/** Which messages make a reply, told from the messages alone: which sequences of them a
    reassembly takes, when it is whole, what its setup words are, and what it refuses
    a message for. */
module ReassemblyRuns {
  import opened Wrappers
  import opened Reassembly
  import opened ReassemblyProofs
  import C = Coverage

  /** Piece `n` may follow those before it: its total is no larger than the last one
      declared, or than what was asked for; what it carries lies within that total; and
      no earlier piece carried any of it. */
  ghost predicate Fits(pieces: seq<Piece>, n: nat, asked: nat)
    requires n < |pieces|
  {
    && pieces[n].total <= (if n == 0 then asked else pieces[n - 1].total)
    && (pieces[n].payload != [] ==> pieces[n].displacement + |pieces[n].payload| <= pieces[n].total)
    && (forall k, p :: k < n && SuppliesAt(pieces, k, p) ==> !pieces[n].Supplies(p))
  }

  /** At most 64 messages, at most one of which carries no byte, and all of which fit. */
  ghost predicate Acceptable(fs: seq<Fragment>, maxParameters: nat, maxData: nat) {
    && |fs| <= 64
    && (forall i, j :: 0 <= i < j < |fs| ==> fs[i].CarriesBytes() || fs[j].CarriesBytes())
    && AllFit(Pieces(fs, Parameters), maxParameters) && AllFit(Pieces(fs, Data), maxData)
  }

  ghost predicate AllFit(pieces: seq<Piece>, asked: nat) {
    forall n: nat :: n < |pieces| ==> Fits(pieces, n, asked)
  }

  /** A block stands where its pieces brought it. */
  ghost predicate Follows(t: Track, pieces: seq<Piece>) {
    && t.Valid() && Sourced(t, pieces) && (t.declared <==> |pieces| > 0)
    && (|pieces| > 0 ==> t.total == pieces[|pieces| - 1].total)
  }

  lemma TakesWhatFits(t: Track, pieces: seq<Piece>, piece: Piece)
    requires Follows(t, pieces)
    ensures Take(t, piece).Ok? <==> Fits(pieces + [piece], |pieces|, t.asked)
  {
    var all := pieces + [piece];
    assert forall k, p :: k < |pieces| ==> (SuppliesAt(all, k, p) <==> SuppliesAt(pieces, k, p));
    if piece.total <= (if t.declared then t.total else t.asked) {
      var t1 := Declare(t, piece.total).value;
      forall p | p in piece.Positions() && p < piece.total
        ensures p in t1.covered <==> Supplied(pieces, p)
      {
      }
      if Place(t1, piece.displacement, piece.payload).Err? && piece.displacement + |piece.payload| <= piece.total {
        var p :| p in t1.covered && p in piece.Positions();
        assert Supplied(pieces, p);
        var k :| SuppliesAt(pieces, k, p);
        assert SuppliesAt(all, k, p) && piece.Supplies(p);
      }
      forall k, p | k < |pieces| && SuppliesAt(all, k, p) && piece.Supplies(p)
        ensures Place(t1, piece.displacement, piece.payload).Err?
      {
        assert SuppliesAt(pieces, k, p) && p in piece.Positions();
      }
    }
  }

  lemma FollowsMore(t: Track, pieces: seq<Piece>, piece: Piece)
    requires Follows(t, pieces) && Take(t, piece).Ok?
    ensures Follows(Take(t, piece).value, pieces + [piece]) && Take(t, piece).value.asked == t.asked
  {
    TakeKeepsSourced(t, pieces, piece);
    DeclareKeepsValid(t, piece.total);
    PlaceKeepsValid(Declare(t, piece.total).value, piece.displacement, piece.payload);
  }

  lemma AllFitMore(pieces: seq<Piece>, piece: Piece, asked: nat)
    ensures AllFit(pieces + [piece], asked) <==> AllFit(pieces, asked) && Fits(pieces + [piece], |pieces|, asked)
  {
    var all := pieces + [piece];
    forall n: nat | n < |pieces|
      ensures Fits(all, n, asked) <==> Fits(pieces, n, asked)
    {
      assert forall k, p :: k < n ==> (SuppliesAt(all, k, p) <==> SuppliesAt(pieces, k, p));
    }
  }

  /** What a run that was taken has come to. */
  ghost predicate Stood(a: Assembly, fs: seq<Fragment>, maxParameters: nat, maxData: nat) {
    && a.Valid() && a.buffered && a.parameters.asked == maxParameters && a.data.asked == maxData
    && Follows(a.parameters, Pieces(fs, Parameters)) && Follows(a.data, Pieces(fs, Data))
    && a.fragments == |fs| && Bare(fs, a.empty) && a.setup == LastSetup(fs)
  }

  /** `n` of the messages carry no byte, and that is at most one. */
  ghost predicate Bare(fs: seq<Fragment>, n: nat) {
    && n <= 1 && (n == 0 <==> forall i :: 0 <= i < |fs| ==> fs[i].CarriesBytes())
    && (forall i, j :: 0 <= i < j < |fs| ==> fs[i].CarriesBytes() || fs[j].CarriesBytes())
  }

  /** The setup words are those of the last message that had any. */
  function LastSetup(fs: seq<Fragment>): seq<nat> {
    if |fs| == 0 then []
    else if |fs[|fs| - 1].setup| > 0 then fs[|fs| - 1].setup
    else LastSetup(fs[..|fs| - 1])
  }

  lemma StoodMore(a: Assembly, fs: seq<Fragment>, f: Fragment, maxParameters: nat, maxData: nat)
    requires Stood(a, fs, maxParameters, maxData) && Accept(a, f).outcome.Ok?
    ensures Stood(Accept(a, f).next, fs + [f], maxParameters, maxData)
  {
    var more, a' := fs + [f], Accept(a, f).next;
    AcceptKeepsValid(a, f);
    AcceptTakes(a, f);
    AcceptDecides(a, f);
    FollowsMore(a.parameters, Pieces(fs, Parameters), f.parameters);
    FollowsMore(a.data, Pieces(fs, Data), f.data);
    assert Pieces(more, Parameters) == Pieces(fs, Parameters) + [f.parameters];
    assert Pieces(more, Data) == Pieces(fs, Data) + [f.data];
    assert more[..|fs|] == fs;
    BareMore(fs, f, a.empty);
  }

  lemma NextAcceptable(a: Assembly, fs: seq<Fragment>, f: Fragment, maxParameters: nat, maxData: nat)
    requires Stood(a, fs, maxParameters, maxData) && Acceptable(fs, maxParameters, maxData)
    ensures Accept(a, f).outcome.Ok? <==> Acceptable(fs + [f], maxParameters, maxData)
  {
    var more := fs + [f];
    AcceptDecides(a, f);
    TakesWhatFits(a.parameters, Pieces(fs, Parameters), f.parameters);
    TakesWhatFits(a.data, Pieces(fs, Data), f.data);
    AllFitMore(Pieces(fs, Parameters), f.parameters, maxParameters);
    AllFitMore(Pieces(fs, Data), f.data, maxData);
    assert Pieces(more, Parameters) == Pieces(fs, Parameters) + [f.parameters];
    assert Pieces(more, Data) == Pieces(fs, Data) + [f.data];
    BareMore(fs, f, a.empty);
  }

  lemma BareMore(fs: seq<Fragment>, f: Fragment, n: nat)
    requires Bare(fs, n)
    ensures var more := fs + [f];
      (f.CarriesBytes() || n < 1)
      <==> forall i, j :: 0 <= i < j < |more| ==> more[i].CarriesBytes() || more[j].CarriesBytes()
    ensures f.CarriesBytes() || n < 1 ==> Bare(fs + [f], n + if f.CarriesBytes() then 0 else 1)
  {
    var more := fs + [f];
    assert more[|fs|] == f && forall i :: 0 <= i < |fs| ==> more[i] == fs[i];
    if n == 1 {
      var i :| 0 <= i < |fs| && !fs[i].CarriesBytes();
      assert !more[i].CarriesBytes();
    }
  }

  lemma LessAcceptable(fs: seq<Fragment>, f: Fragment, maxParameters: nat, maxData: nat)
    requires Acceptable(fs + [f], maxParameters, maxData)
    ensures Acceptable(fs, maxParameters, maxData)
  {
    var more := fs + [f];
    AllFitMore(Pieces(fs, Parameters), f.parameters, maxParameters);
    AllFitMore(Pieces(fs, Data), f.data, maxData);
    assert Pieces(more, Parameters) == Pieces(fs, Parameters) + [f.parameters];
    assert Pieces(more, Data) == Pieces(fs, Data) + [f.data];
    assert forall i :: 0 <= i < |fs| ==> more[i] == fs[i];
  }

  /** The messages are taken exactly if they are acceptable. */
  ghost predicate Taken(r: Result<Assembly, ReassemblyError>, fs: seq<Fragment>, maxParameters: nat, maxData: nat) {
    && (r.Ok? <==> Acceptable(fs, maxParameters, maxData))
    && (r.Ok? ==> Stood(r.value, fs, maxParameters, maxData))
  }

  lemma TakenMore(r: Result<Assembly, ReassemblyError>, fs: seq<Fragment>, f: Fragment,
                  maxParameters: nat, maxData: nat)
    requires Taken(r, fs, maxParameters, maxData)
    ensures (r.Ok? ==> r.value.Valid()) && Taken(Then(r, f), fs + [f], maxParameters, maxData)
  {
    if r.Ok? {
      NextAcceptable(r.value, fs, f, maxParameters, maxData);
      if Accept(r.value, f).outcome.Ok? {
        StoodMore(r.value, fs, f, maxParameters, maxData);
      }
    } else if Acceptable(fs + [f], maxParameters, maxData) {
      LessAcceptable(fs, f, maxParameters, maxData);
    }
  }

  /** **Exactly these messages are taken**: a reassembly takes a sequence of messages if
      and only if there are at most 64, at most one carries nothing, and each fits those
      before it. */
  lemma {:induction false} TakesExactly(maxParameters: nat, maxData: nat, fs: seq<Fragment>)
    ensures Taken(Run(New(maxParameters, maxData), fs), fs, maxParameters, maxData)
    decreases |fs|
  {
    if |fs| > 0 {
      var n := |fs| - 1;
      TakesExactly(maxParameters, maxData, fs[..n]);
      TakenMore(Run(New(maxParameters, maxData), fs[..n]), fs[..n], fs[n], maxParameters, maxData);
      assert fs == fs[..n] + [fs[n]];
    }
  }

  /** **Whole when every byte came**: a reassembly that took the messages is whole if and
      only if some message has declared the totals and each byte below the last of them
      was carried by one. */
  lemma WholeExactly(maxParameters: nat, maxData: nat, fs: seq<Fragment>)
    requires Run(New(maxParameters, maxData), fs).Ok?
    ensures Run(New(maxParameters, maxData), fs).value.Progress() == Complete <==>
      |fs| > 0 && forall block, p :: 0 <= p < fs[|fs| - 1].Of(block).total ==> Supplied(Pieces(fs, block), p)
    ensures Run(New(maxParameters, maxData), fs).value.setup == LastSetup(fs)
  {
    TakesExactly(maxParameters, maxData, fs);
    var a := Run(New(maxParameters, maxData), fs).value;
    if |fs| > 0 {
      BlockWhole(a.parameters, Pieces(fs, Parameters));
      BlockWhole(a.data, Pieces(fs, Data));
      assert a.Of(Parameters).total == fs[|fs| - 1].Of(Parameters).total;
      assert a.Of(Data).total == fs[|fs| - 1].Of(Data).total;
    }
  }

  lemma BlockWhole(t: Track, pieces: seq<Piece>)
    requires Follows(t, pieces) && |pieces| > 0
    ensures t.Complete() <==> forall p :: 0 <= p < t.total ==> Supplied(pieces, p)
  {
    if t.Complete() {
      forall p | 0 <= p < t.total
        ensures Supplied(pieces, p)
      {
        assert p in t.covered;
      }
    }
    if forall p :: 0 <= p < t.total ==> Supplied(pieces, p) {
      forall p | p in C.Span(0, t.total)
        ensures p in t.covered
      {
        assert Supplied(pieces, p);
        var k :| SuppliesAt(pieces, k, p);
      }
    }
  }

  /** What a message is refused for is so. */
  lemma RefusedForCause(a: Assembly, f: Fragment)
    requires a.Valid() && Accept(a, f).outcome.Err?
    ensures match Accept(a, f).outcome.error
      case TooManyFragments(cap) => cap == 64 && a.buffered && a.fragments >= 64
      case RevisedUpward(block, declared, revised) =>
        a.Of(block).declared && a.Of(block).total == declared < revised == f.Of(block).total
      case MoreThanAsked(block, total, asked) => f.Of(block).total == total > asked == a.Of(block).asked
      case OutsideDeclaredRange(block, displacement, length, total) =>
        && displacement == f.Of(block).displacement && length == |f.Of(block).payload| > 0
        && total == f.Of(block).total < displacement + length
      case Overlapping(block, displacement, length) =>
        && displacement == f.Of(block).displacement && length == |f.Of(block).payload|
        && exists p :: p in a.Of(block).covered && displacement <= p < displacement + length
      case NoProgress => a.buffered && !f.CarriesBytes() && a.empty >= 1
  {
    BlockRefusedForCause(a.parameters, f.parameters);
    BlockRefusedForCause(a.data, f.data);
  }

  lemma BlockRefusedForCause(t: Track, piece: Piece)
    requires t.Valid()
    ensures Declare(t, piece.total).Ok? ==>
      Place(Declare(t, piece.total).value, piece.displacement, piece.payload).Ok?
      || piece.displacement + |piece.payload| > piece.total
      || exists p :: p in t.covered && piece.Supplies(p)
  {
    if Declare(t, piece.total).Ok? {
      var t1 := Declare(t, piece.total).value;
      DeclareKeepsValid(t, piece.total);
      if Place(t1, piece.displacement, piece.payload).Err? && piece.displacement + |piece.payload| <= piece.total {
        var p :| p in t1.covered && p in C.Span(piece.displacement, piece.displacement + |piece.payload|);
        assert p in t.covered && piece.Supplies(p);
      }
    }
  }
}
