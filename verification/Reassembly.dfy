/** Reassembly of a transaction reply that arrives in several messages
    (section 2.2.4.46.2 of [MS-CIFS]), as steps over values.

    A track records which positions of one block have been covered as a set of
    positions; `Assembly.dfy` implements the same steps in place over interval
    lists. */
module Reassembly {
  import opened Wrappers
  import C = Coverage

  const FRAGMENT_CAP := 64
  const EMPTY_TOLERANCE := 1

  /** Which of the two parts of a transaction reply a track holds. */
  datatype Block = Parameters | Data

  datatype ReassemblyError =
    | RevisedUpward(block: Block, declared: nat, revised: nat)
    | OutsideDeclaredRange(block: Block, displacement: nat, length: nat, total: nat)
    | Overlapping(block: Block, displacement: nat, length: nat)
    | MoreThanAsked(block: Block, total: nat, asked: nat)
    | TooManyFragments(cap: nat)
    | NoProgress

  /** What one message says about one block. */
  datatype Piece = Piece(total: nat, displacement: nat, payload: seq<byte>) {

    /** Whether this piece carries the byte at `position` of its block. */
    predicate Supplies(position: int) {
      displacement <= position < displacement + |payload|
    }

    /** The byte it carries there. */
    function At(position: int): byte
      requires Supplies(position)
    {
      payload[position - displacement]
    }

    function Positions(): set<int> {
      C.Span(displacement, displacement + |payload|)
    }
  }

  /** One decoded message of a transaction reply. */
  datatype Fragment = Fragment(setup: seq<nat>, parameters: Piece, data: Piece) {

    function Of(block: Block): Piece {
      if block == Parameters then parameters else data
    }

    predicate CarriesBytes(): (carries: bool)
      ensures carries <==> |parameters.payload| + |data.payload| > 0
    {
      parameters.payload != [] || data.payload != []
    }
  }

  /** One block being reassembled. */
  datatype Track = Track(
    block: Block, total: nat, asked: nat, declared: bool, covered: set<int>, bytes: Option<seq<byte>>)
  {
    predicate Complete() {
      declared && covered == C.Span(0, total)
    }

    /** What every reachable track keeps. The buffer is as long as the total
        that governs, and that total never exceeds what the request asked for. */
    ghost predicate Valid() {
      && total <= asked
      && covered <= C.Span(0, total)
      && (!declared ==> total == 0)
      && (bytes.Some? ==> |bytes.value| == total)
    }

    /** Everything but the buffer. */
    ghost predicate Tracks(other: Track) {
      && block == other.block && total == other.total && asked == other.asked
      && declared == other.declared && covered == other.covered
    }
  }

  function NewTrack(block: Block, asked: nat): Track {
    Track(block, 0, asked, false, {}, Some([]))
  }

  /** `bytes` cut or zero-extended to `length`. */
  function Resized(bytes: seq<byte>, length: nat): seq<byte> {
    if length <= |bytes| then bytes[..length] else bytes + Zeros(length - |bytes|)
  }

  function Zeros(n: nat): (z: seq<byte>)
    ensures |z| == n
  {
    seq(n, _ => 0)
  }

  /** `bytes` with `payload` written over it from `at` on. */
  function Overwritten(bytes: seq<byte>, at: nat, payload: seq<byte>): seq<byte>
    requires at + |payload| <= |bytes|
  {
    bytes[..at] + payload + bytes[at + |payload|..]
  }

  /** Takes the total a message declares: it may only shrink, and shrinking drops
      the coverage past it. */
  function Declare(t: Track, total: nat): Result<Track, ReassemblyError> {
    if t.declared && total > t.total then Err(RevisedUpward(t.block, t.total, total))
    else if total > t.asked then Err(MoreThanAsked(t.block, total, t.asked))
    else Ok(t.(
      total := total,
      declared := true,
      covered := if total < t.total then t.covered * C.Span(0, total) else t.covered,
      bytes := if t.bytes.Some? then Some(Resized(t.bytes.value, total)) else None))
  }

  /** A payload within the total, and off all that was placed before, is placed. */
  function Place(t: Track, displacement: nat, payload: seq<byte>): Result<Track, ReassemblyError>
    requires t.Valid()
  {
    if payload == [] then Ok(t)
    else if displacement + |payload| > t.total then
      Err(OutsideDeclaredRange(t.block, displacement, |payload|, t.total))
    else if !(t.covered !! C.Span(displacement, displacement + |payload|)) then
      Err(Overlapping(t.block, displacement, |payload|))
    else Ok(t.(
      covered := t.covered + C.Span(displacement, displacement + |payload|),
      bytes := if t.bytes.Some? then Some(Overwritten(t.bytes.value, displacement, payload)) else None))
  }

  lemma DeclareKeepsValid(t: Track, total: nat)
    requires t.Valid() && Declare(t, total).Ok?
    ensures Declare(t, total).value.Valid()
  {
  }

  lemma PlaceKeepsValid(t: Track, displacement: nat, payload: seq<byte>)
    requires t.Valid() && Place(t, displacement, payload).Ok?
    ensures Place(t, displacement, payload).value.Valid()
  {
  }

  datatype Progress = Continuing | Complete

  /** A transaction reply being reassembled. */
  datatype Assembly = Assembly(
    parameters: Track, data: Track, setup: seq<nat>, fragments: nat, empty: nat, buffered: bool)
  {
    ghost predicate Valid() {
      && parameters.Valid() && data.Valid()
      && parameters.block == Parameters && data.block == Data
      && (buffered <==> parameters.bytes.Some?)
      && (buffered <==> data.bytes.Some?)
    }

    function Of(block: Block): Track {
      if block == Parameters then parameters else data
    }

    function Progress(): Progress {
      if parameters.Complete() && data.Complete() then Complete else Continuing
    }

    /** Both follow the same reply: they differ only in what a release drops. */
    ghost predicate Follows(other: Assembly) {
      parameters.Tracks(other.parameters) && data.Tracks(other.data)
    }
  }

  function New(maxParameters: nat, maxData: nat): (a: Assembly)
    ensures a.Valid()
  {
    Assembly(NewTrack(Parameters, maxParameters), NewTrack(Data, maxData), [], 0, 0, true)
  }

  /** Drops the buffer and keeps the coverage. */
  function Release(a: Assembly): Assembly {
    a.(parameters := a.parameters.(bytes := None), data := a.data.(bytes := None),
       setup := [], buffered := false)
  }

  /** What one message leaves behind, and how far it carried the reassembly. A
      refused message has still moved whatever was moved before its refusal. */
  datatype Step = Step(next: Assembly, outcome: Result<Progress, ReassemblyError>)

  function Accept(a: Assembly, f: Fragment): Step
    requires a.Valid()
  {
    var a0 := if a.buffered then a.(fragments := a.fragments + 1) else a;
    if a0.buffered && a0.fragments > FRAGMENT_CAP then Step(a0, Err(TooManyFragments(FRAGMENT_CAP)))
    else
      var declared := DeclareBoth(a0, f);
      if declared.refused.Some? then Step(declared.next, Err(declared.refused.value))
      else
        DeclareBothKeepsValid(a0, f);
        var placed := PlaceBoth(declared.next, f);
        if placed.refused.Some? then Step(placed.next, Err(placed.refused.value))
        else Counted(placed.next, f)
  }

  /** A stage of `Accept`. */
  datatype Stage = Stage(next: Assembly, refused: Option<ReassemblyError>)

  function DeclareBoth(a: Assembly, f: Fragment): Stage {
    match Declare(a.parameters, f.parameters.total)
    case Err(e) => Stage(a, Some(e))
    case Ok(p) =>
      match Declare(a.data, f.data.total)
      case Err(e) => Stage(a.(parameters := p), Some(e))
      case Ok(d) => Stage(a.(parameters := p, data := d), None)
  }

  function PlaceBoth(a: Assembly, f: Fragment): Stage
    requires a.Valid()
  {
    match Place(a.parameters, f.parameters.displacement, f.parameters.payload)
    case Err(e) => Stage(a, Some(e))
    case Ok(p) =>
      match Place(a.data, f.data.displacement, f.data.payload)
      case Err(e) => Stage(a.(parameters := p), Some(e))
      case Ok(d) => Stage(a.(parameters := p, data := d), None)
  }

  lemma DeclareBothKeepsValid(a: Assembly, f: Fragment)
    requires a.Valid()
    ensures DeclareBoth(a, f).next.Valid()
  {
  }

  lemma PlaceBothKeepsValid(a: Assembly, f: Fragment)
    requires a.Valid()
    ensures PlaceBoth(a, f).next.Valid()
  {
    if Place(a.parameters, f.parameters.displacement, f.parameters.payload).Ok? {
      PlaceKeepsValid(a.parameters, f.parameters.displacement, f.parameters.payload);
    }
    if Place(a.data, f.data.displacement, f.data.payload).Ok? {
      PlaceKeepsValid(a.data, f.data.displacement, f.data.payload);
    }
  }

  /** The end of `Accept`: setup words, the no-progress guard, completeness. */
  function Counted(a: Assembly, f: Fragment): Step {
    var a1 := if f.setup != [] then a.(setup := f.setup) else a;
    var a2 := if a1.buffered && !f.CarriesBytes() then a1.(empty := a1.empty + 1) else a1;
    if a1.buffered && !f.CarriesBytes() && a2.empty > EMPTY_TOLERANCE then Step(a2, Err(NoProgress))
    else Step(a2, Ok(a2.Progress()))
  }

  /** Both track steps of one block. */
  function Take(t: Track, piece: Piece): Result<Track, ReassemblyError>
    requires t.Valid()
  {
    match Declare(t, piece.total)
    case Err(e) => Err(e)
    case Ok(t1) => Place(t1, piece.displacement, piece.payload)
  }

  lemma CountedKeepsValid(a: Assembly, f: Fragment)
    requires a.Valid()
    ensures Counted(a, f).next.Valid()
  {
  }

  /** A message, accepted or refused, leaves a valid reassembly. */
  lemma AcceptKeepsValid(a: Assembly, f: Fragment)
    requires a.Valid()
    ensures Accept(a, f).next.Valid()
  {
    var a0 := if a.buffered then a.(fragments := a.fragments + 1) else a;
    DeclareBothKeepsValid(a0, f);
    PlaceBothKeepsValid(DeclareBoth(a0, f).next, f);
    CountedKeepsValid(PlaceBoth(DeclareBoth(a0, f).next, f).next, f);
  }

  /** An accepted message has taken both blocks. */
  lemma AcceptTakes(a: Assembly, f: Fragment)
    requires a.Valid()
    ensures Accept(a, f).outcome.Ok? ==>
      && Take(a.parameters, f.parameters) == Ok(Accept(a, f).next.parameters)
      && Take(a.data, f.data) == Ok(Accept(a, f).next.data)
      && Accept(a, f).outcome.value == Accept(a, f).next.Progress()
      && Accept(a, f).next.buffered == a.buffered
  {
  }

  /** What `Accept` refuses, and what it counts. */
  lemma AcceptDecides(a: Assembly, f: Fragment)
    requires a.Valid()
    ensures var r := Accept(a, f);
      r.outcome.Ok? <==>
        && (a.buffered ==> a.fragments < 64)
        && Take(a.parameters, f.parameters).Ok? && Take(a.data, f.data).Ok?
        && (a.buffered && !f.CarriesBytes() ==> a.empty < 1)
    ensures var r := Accept(a, f);
      r.outcome.Ok? && a.buffered ==>
        && r.next.fragments == a.fragments + 1
        && r.next.empty == a.empty + (if f.CarriesBytes() then 0 else 1)
    ensures var r := Accept(a, f);
      r.outcome.Ok? ==> r.next.setup == if |f.setup| > 0 then f.setup else a.setup
  {
  }

  /** The next message of a run that has not been refused so far. */
  function Then(r: Result<Assembly, ReassemblyError>, f: Fragment): (s: Result<Assembly, ReassemblyError>)
    requires r.Ok? ==> r.value.Valid()
    ensures s.Ok? ==> r.Ok? && s.value.Valid() && s.value.buffered == r.value.buffered
  {
    if r.Err? then r
    else
      AcceptKeepsValid(r.value, f);
      AcceptTakes(r.value, f);
      var step := Accept(r.value, f);
      if step.outcome.Ok? then Ok(step.next) else Err(step.outcome.error)
  }

  /** A run of messages, each taken while the one before it was accepted. */
  function Run(a: Assembly, fs: seq<Fragment>): (r: Result<Assembly, ReassemblyError>)
    requires a.Valid()
    ensures r.Ok? ==> r.value.Valid() && r.value.buffered == a.buffered
  {
    if fs == [] then Ok(a) else Then(Run(a, fs[..|fs| - 1]), fs[|fs| - 1])
  }

  lemma RunSnoc(a: Assembly, fs: seq<Fragment>, f: Fragment)
    requires a.Valid()
    ensures Run(a, fs + [f]) == Then(Run(a, fs), f)
  {
    assert (fs + [f])[..|fs|] == fs;
  }

  lemma {:induction false} RunConcat(a: Assembly, xs: seq<Fragment>, ys: seq<Fragment>)
    requires a.Valid() && Run(a, xs).Ok?
    ensures Run(a, xs + ys) == Run(Run(a, xs).value, ys)
  {
    if ys == [] {
      assert xs + ys == xs;
    } else {
      var n := |ys| - 1;
      RunConcat(a, xs, ys[..n]);
      assert ys == ys[..n] + [ys[n]];
      assert xs + ys == (xs + ys[..n]) + [ys[n]];
      RunSnoc(a, xs + ys[..n], ys[n]);
      RunSnoc(Run(a, xs).value, ys[..n], ys[n]);
    }
  }
}
