/** The progress handle of a write: a small protocol between the write that issues
    chunks, the actor that ends them, the drops of both, and whoever reads it.

    A step is one critical section, one atomic exchange or one signal, and no more:
    a chunk that leaves the group is marked, then counted out, then the group is
    looked at, and other steps may fall between. */
module Progress {
  import opened Wrappers
  import C = Coverage

  /** What a chunk offers, where, and whether it has been marked as leaving. */
  datatype Ticket = Ticket(offset: nat, offered: nat, applied: bool)

  /** The handle, and how many of those at work on it have marked a ticket and not
      yet counted it out (`leaving`), have still to look whether the group is empty
      (`settling`), and have still to signal that it is (`signalling`). */
  datatype State = State(
    base: nat,
    covered: set<int>,
    tickets: map<nat, Ticket>,
    outstanding: int,
    issuing: bool,
    registered: bool,
    finalPrefix: Option<nat>,
    signalled: bool,
    leaving: int,
    settling: int,
    signalling: int)

  const NEW := State(0, {}, map[], 0, false, false, None, false, 0, 0, 0)

  /** The contiguous acknowledged prefix, or what was frozen of it. */
  ghost function Written(s: State): nat {
    if s.finalPrefix.Some? then s.finalPrefix.value else C.PrefixOf(s.covered)
  }

  datatype Step =
    | Register(base: nat)
    | Issue(id: nat, offset: nat, offered: nat)
    | Record(id: nat, acknowledged: Option<nat>)
    | Mark(id: nat)
    | CountOut
    | ClearIssuing
    | Settle
    | Signal

  /** Chunks are issued under the guard a registration gives out, each with a
      ticket of its own; tickets that exist may be recorded against and marked at
      any time, even again; and what was begun goes on. */
  predicate Enabled(s: State, step: Step) {
    match step
    case Register(_) => true
    case Issue(id, _, _) => s.issuing && id !in s.tickets
    case Record(id, _) => id in s.tickets
    case Mark(id) => id in s.tickets
    case CountOut => s.leaving > 0
    case ClearIssuing => s.issuing
    case Settle => s.settling > 0
    case Signal => s.signalling > 0
  }

  function Below(a: nat, b: nat): (r: nat)
    ensures a <= b ==> a + r == b
    ensures a > b ==> r == 0
  {
    if a <= b then b - a else 0
  }

  /** The bytes a reply acknowledges: no more than the chunk offered. */
  function Acknowledged(s: State, t: Ticket, acknowledged: Option<nat>): set<int> {
    if acknowledged.Some? && acknowledged.value > 0 then
      var count := if acknowledged.value <= t.offered then acknowledged.value else t.offered;
      C.Span(Below(s.base, t.offset), Below(s.base, t.offset) + count)
    else {}
  }

  /** What a reply acknowledged is recorded, unless it is of a byte covered already. */
  function Recorded(s: State, id: nat, acknowledged: Option<nat>): State
    requires id in s.tickets
  {
    var bytes := Acknowledged(s, s.tickets[id], acknowledged);
    if s.covered !! bytes then s.(covered := s.covered + bytes) else s
  }

  /** The first to mark a ticket goes on to count it out. */
  function Marked(s: State, id: nat): State
    requires id in s.tickets
  {
    if s.tickets[id].applied then s
    else s.(tickets := s.tickets[id := s.tickets[id].(applied := true)], leaving := s.leaving + 1)
  }

  /** The prefix is frozen by the first that finds the write done issuing and the
      group empty, and that one goes on to signal. */
  ghost function Settled(s: State): State {
    var t := s.(settling := s.settling - 1);
    if t.issuing || t.outstanding > 0 || t.finalPrefix.Some? then t
    else t.(finalPrefix := Some(C.PrefixOf(t.covered)), signalling := t.signalling + 1)
  }

  ghost function Next(s: State, step: Step): State
    requires Enabled(s, step)
  {
    match step
    case Register(base) =>
      if s.registered then s else s.(registered := true, issuing := true, base := base)
    case Issue(id, offset, offered) =>
      s.(tickets := s.tickets[id := Ticket(offset, offered, false)], outstanding := s.outstanding + 1)
    case Record(id, acknowledged) => Recorded(s, id, acknowledged)
    case Mark(id) => Marked(s, id)
    case CountOut => s.(leaving := s.leaving - 1, outstanding := s.outstanding - 1, settling := s.settling + 1)
    case ClearIssuing => s.(issuing := false, settling := s.settling + 1)
    case Settle => Settled(s)
    case Signal => s.(signalling := s.signalling - 1, signalled := true)
  }

  // ---- What every interleaving keeps ----

  /** The tickets that have not been marked. */
  function Live(tickets: map<nat, Ticket>): set<nat> {
    set id | id in tickets && !tickets[id].applied
  }

  /** A registered write that has stopped issuing, with its group empty. */
  predicate Empty(s: State) { s.registered && !s.issuing && s.outstanding == 0 }

  /** The group's count is that of the live tickets and those on their way out; a
      frozen prefix is of an empty group; and an empty group has a frozen prefix, or
      somebody who has still to look. */
  ghost predicate Sound(s: State) {
    && s.outstanding == |Live(s.tickets)| + s.leaving
    && s.leaving >= 0 && s.settling >= 0 && s.signalling >= 0
    && (s.issuing ==> s.registered)
    && (s.finalPrefix.Some? ==> Empty(s) && s.finalPrefix.value <= C.PrefixOf(s.covered))
    && (Empty(s) ==> s.finalPrefix.Some? || s.settling > 0)
    && (s.finalPrefix.Some? <==> s.signalled || s.signalling > 0)
    && (!s.registered ==> s == NEW)
  }

  lemma LiveWithout(tickets: map<nat, Ticket>, id: nat)
    requires id in tickets && !tickets[id].applied
    ensures Live(tickets[id := tickets[id].(applied := true)]) == Live(tickets) - {id}
    ensures |Live(tickets)| > 0
  {
    assert id in Live(tickets);
  }

  /** How a later state relates to an earlier one: tickets never come back, the
      prefix never shrinks, and a frozen prefix stays as it was, with no ticket
      live. */
  ghost predicate Later(s: State, s': State) {
    && (forall id :: id in s.tickets ==> id in s'.tickets && (s.tickets[id].applied ==> s'.tickets[id].applied))
    && Written(s) <= Written(s')
    && s.covered <= s'.covered
    && (s.signalled ==> s'.signalled)
    && (s.finalPrefix.Some? ==> s'.finalPrefix == s.finalPrefix && Live(s'.tickets) == {} && s'.leaving == 0)
  }

  lemma MarkKeepsSound(s: State, id: nat)
    requires Sound(s) && id in s.tickets
    ensures Sound(Marked(s, id)) && Later(s, Marked(s, id)) && Marked(s, id).tickets[id].applied
  {
    if !s.tickets[id].applied {
      LiveWithout(s.tickets, id);
    }
  }

  lemma RecordKeepsSound(s: State, id: nat, acknowledged: Option<nat>)
    requires Sound(s) && id in s.tickets
    ensures Sound(Recorded(s, id, acknowledged)) && Later(s, Recorded(s, id, acknowledged))
  {
    C.PrefixGrows(s.covered, Recorded(s, id, acknowledged).covered);
  }

  lemma RecordedIsSound(s: State, id: nat, acknowledged: Option<nat>)
    requires Sound(s) && id in s.tickets
    ensures Sound(Recorded(s, id, acknowledged))
  {
    RecordKeepsSound(s, id, acknowledged);
  }

  /** Recording is covering a span, where anything was acknowledged. */
  lemma RecordsBytes(s: State, id: nat, acknowledged: Option<nat>, at: nat, count: nat)
    requires id in s.tickets && acknowledged.Some? && acknowledged.value > 0
    requires at == Below(s.base, s.tickets[id].offset)
    requires count == if acknowledged.value <= s.tickets[id].offered then acknowledged.value else s.tickets[id].offered
    ensures var bytes := C.Span(at, at + count);
      Recorded(s, id, acknowledged) == s.(covered := if s.covered !! bytes then s.covered + bytes else s.covered)
  {
  }

  lemma RecordsNothing(s: State, id: nat, acknowledged: Option<nat>)
    requires id in s.tickets && (acknowledged.None? || acknowledged.value == 0)
    ensures Recorded(s, id, acknowledged) == s
  {
  }

  lemma IssueKeepsSound(s: State, id: nat, offset: nat, offered: nat)
    requires Sound(s) && s.issuing && id !in s.tickets
    ensures var s' := Next(s, Issue(id, offset, offered)); Sound(s') && Later(s, s')
  {
    assert Live(s.tickets[id := Ticket(offset, offered, false)]) == Live(s.tickets) + {id};
  }

  /** The steps that touch no ticket. */
  lemma OthersKeepSound(s: State, step: Step)
    requires Sound(s) && Enabled(s, step) && !step.Issue? && !step.Record? && !step.Mark?
    ensures Sound(Next(s, step)) && Later(s, Next(s, step))
  {
    assert NEW.tickets == map[] && Live(map[]) == {};
  }

  lemma NextKeepsSound(s: State, step: Step)
    requires Sound(s) && Enabled(s, step)
    ensures Sound(Next(s, step)) && Later(s, Next(s, step))
  {
    match step
    case Issue(id, offset, offered) => IssueKeepsSound(s, id, offset, offered);
    case Record(id, acknowledged) => RecordKeepsSound(s, id, acknowledged);
    case Mark(id) => MarkKeepsSound(s, id);
    case _ => OthersKeepSound(s, step);
  }

  /** An interleaving in which every step was enabled where it happened. */
  ghost predicate Possible(s: State, steps: seq<Step>)
    decreases |steps|
  {
    |steps| == 0 || (Enabled(s, steps[0]) && Possible(Next(s, steps[0]), steps[1..]))
  }

  ghost function After(s: State, steps: seq<Step>): State
    requires Possible(s, steps)
    decreases |steps|
  {
    if |steps| == 0 then s else After(Next(s, steps[0]), steps[1..])
  }

  lemma LaterThanLater(s: State, t: State, u: State)
    requires Later(s, t) && Later(t, u)
    ensures Later(s, u)
  {
  }

  /** **The prefix only grows, and a frozen one is final**: over every interleaving
      each ticket leaves the group once and for all, `written()` never decreases,
      and once it has been frozen no ticket is live and it never changes. */
  lemma {:induction false} ProgressOnlyMovesOn(s: State, steps: seq<Step>)
    requires Sound(s) && Possible(s, steps)
    ensures Sound(After(s, steps)) && Later(s, After(s, steps))
    decreases |steps|
  {
    if |steps| > 0 {
      var t := Next(s, steps[0]);
      NextKeepsSound(s, steps[0]);
      ProgressOnlyMovesOn(t, steps[1..]);
      LaterThanLater(s, t, After(t, steps[1..]));
    }
  }

  lemma NewIsSound()
    ensures Sound(NEW)
  {
    assert Live(NEW.tickets) == {};
  }

  /** **The prefix is final exactly when it should be**, after any interleaving. A
      frozen prefix is one of a write that has stopped issuing, with no ticket live
      or on its way out; and such a write has a frozen prefix unless somebody has
      still to look. The signal has gone out exactly where there is a frozen prefix
      that nobody has still to signal. */
  lemma SettledExactly(steps: seq<Step>)
    requires Possible(NEW, steps)
    ensures var s := After(NEW, steps);
      && (s.finalPrefix.Some? ==> s.registered && !s.issuing && Live(s.tickets) == {} && s.leaving == 0)
      && (s.settling == 0 && s.leaving == 0 ==>
            (s.finalPrefix.Some? <==> s.registered && !s.issuing && Live(s.tickets) == {}))
      && (s.signalling == 0 ==> (s.signalled <==> s.finalPrefix.Some?))
  {
    NewIsSound();
    ProgressOnlyMovesOn(NEW, steps);
  }

  /** Between the last chunk's being counted out and the look that follows, the
      prefix is not frozen yet. */
  lemma NotSettledYet()
    ensures var steps := [Register(0), Issue(0, 0, 1), ClearIssuing, Mark(0), CountOut];
      && Possible(NEW, steps)
      && (var s := After(NEW, steps);
          && s.registered && !s.issuing && Live(s.tickets) == {} && s.leaving == 0
          && s.finalPrefix.None? && s.settling == 2)
  {
    var s1 := Next(NEW, Register(0));
    var s2 := Next(s1, Issue(0, 0, 1));
    var s3 := Next(s2, ClearIssuing);
    var s4 := Next(s3, Mark(0));
    var s5 := Next(s4, CountOut);
    var steps := [Register(0), Issue(0, 0, 1), ClearIssuing, Mark(0), CountOut];
    assert steps[1..] == [Issue(0, 0, 1), ClearIssuing, Mark(0), CountOut];
    assert steps[1..][1..] == [ClearIssuing, Mark(0), CountOut];
    assert steps[1..][1..][1..] == [Mark(0), CountOut];
    assert steps[1..][1..][1..][1..] == [CountOut];
    assert Possible(s5, []) && Possible(s4, [CountOut]) && Possible(s3, [Mark(0), CountOut]);
    assert Possible(s2, steps[1..][1..]) && Possible(s1, steps[1..]);
    assert After(s4, [CountOut]) == s5;
    assert After(s3, [Mark(0), CountOut]) == s5;
    assert After(s2, steps[1..][1..]) == s5;
    assert Live(s5.tickets) == {};
  }

  /** How much those at work on the handle have still to do. */
  function Pending(s: State): int { 3 * s.leaving + 2 * s.settling + s.signalling }

  /** **A waiter is never left waiting**: from any reachable state in which the
      write has stopped issuing and every ticket is marked, those at work need only
      finish what they began, and the signal goes out. */
  lemma {:induction false} FinishingSignals(s: State) returns (steps: seq<Step>)
    requires Sound(s) && s.registered && !s.issuing && Live(s.tickets) == {}
    ensures Possible(s, steps) && |steps| <= Pending(s)
    ensures forall i :: 0 <= i < |steps| ==> steps[i] in {CountOut, Settle, Signal}
    ensures After(s, steps).signalled
    decreases Pending(s)
  {
    if s.signalled {
      steps := [];
    } else {
      var step := if s.leaving > 0 then CountOut else if s.settling > 0 then Settle else Signal;
      NextKeepsSound(s, step);
      var rest := FinishingSignals(Next(s, step));
      steps := [step] + rest;
      assert steps[1..] == rest;
    }
  }

  /** Everything some reply of the run acknowledged, clamped to what its chunk
      offered. */
  ghost function EverAcknowledged(s: State, steps: seq<Step>): set<int>
    requires Possible(s, steps)
    decreases |steps|
  {
    if |steps| == 0 then {}
    else
      (if steps[0].Record? then Acknowledged(s, s.tickets[steps[0].id], steps[0].acknowledged) else {})
      + EverAcknowledged(Next(s, steps[0]), steps[1..])
  }

  lemma NextCovers(s: State, step: Step)
    requires Enabled(s, step)
    ensures Next(s, step).covered <=
      s.covered + (if step.Record? then Acknowledged(s, s.tickets[step.id], step.acknowledged) else {})
  {
  }

  /** **The prefix claims nothing the server did not acknowledge**: over every
      interleaving each byte covered was acknowledged by the reply to a chunk that
      offered it. */
  lemma {:induction false} CoversOnlyAcknowledged(s: State, steps: seq<Step>)
    requires Possible(s, steps)
    ensures After(s, steps).covered <= s.covered + EverAcknowledged(s, steps)
    decreases |steps|
  {
    if |steps| > 0 {
      NextCovers(s, steps[0]);
      CoversOnlyAcknowledged(Next(s, steps[0]), steps[1..]);
    }
  }

  lemma WrittenIsAcknowledged(steps: seq<Step>)
    requires Possible(NEW, steps)
    ensures C.Span(0, Written(After(NEW, steps))) <= EverAcknowledged(NEW, steps)
  {
    NewIsSound();
    ProgressOnlyMovesOn(NEW, steps);
    CoversOnlyAcknowledged(NEW, steps);
  }

  // ---- What is said once stays said ----

  lemma {:induction false} StoppedStays(s: State, steps: seq<Step>)
    requires Possible(s, steps) && s.registered && !s.issuing
    ensures After(s, steps).registered && !After(s, steps).issuing
    decreases |steps|
  {
    if |steps| > 0 {
      StoppedStays(Next(s, steps[0]), steps[1..]);
    }
  }

  /** A write whose guard was dropped is one that has stopped issuing. */
  lemma {:induction false} ClearingStops(s: State, steps: seq<Step>)
    requires Sound(s) && Possible(s, steps) && ClearIssuing in steps
    ensures After(s, steps).registered && !After(s, steps).issuing
    decreases |steps|
  {
    var t := Next(s, steps[0]);
    NextKeepsSound(s, steps[0]);
    if steps[0] == ClearIssuing {
      StoppedStays(t, steps[1..]);
    } else {
      ClearingStops(t, steps[1..]);
    }
  }

  /** A ticket that was marked is marked. */
  lemma {:induction false} MarkingMarks(s: State, steps: seq<Step>, id: nat)
    requires Sound(s) && Possible(s, steps) && Mark(id) in steps
    ensures id in After(s, steps).tickets && After(s, steps).tickets[id].applied
    decreases |steps|
  {
    var t := Next(s, steps[0]);
    NextKeepsSound(s, steps[0]);
    if steps[0] == Mark(id) {
      ProgressOnlyMovesOn(t, steps[1..]);
    } else {
      MarkingMarks(t, steps[1..], id);
    }
  }

  /** Where a write began, and what each of its chunks offered where, is settled
      with the registration and the ticket. */
  ghost predicate Fixed(s: State, s': State) {
    && (s.registered ==> s'.registered && s'.base == s.base)
    && (forall id :: id in s.tickets ==>
          id in s'.tickets && s'.tickets[id].offset == s.tickets[id].offset
          && s'.tickets[id].offered == s.tickets[id].offered)
  }

  lemma {:induction false} StaysFixed(s: State, steps: seq<Step>)
    requires Possible(s, steps)
    ensures Fixed(s, After(s, steps))
    decreases |steps|
  {
    if |steps| > 0 {
      StaysFixed(Next(s, steps[0]), steps[1..]);
    }
  }

  /** Byte `q` of the handle is among those the `j`th step records, as the tickets
      stand at state `s`. */
  ghost predicate RecordedAt(s: State, steps: seq<Step>, j: nat, q: int) {
    && j < |steps| && steps[j].Record? && steps[j].id in s.tickets
    && q in Acknowledged(s, s.tickets[steps[j].id], steps[j].acknowledged)
  }

  lemma FixedAcknowledges(s: State, s': State, id: nat, acknowledged: Option<nat>)
    requires Sound(s) && Fixed(s, s') && id in s.tickets
    ensures Acknowledged(s', s'.tickets[id], acknowledged) == Acknowledged(s, s.tickets[id], acknowledged)
  {
  }

  lemma RecordedFirst(s: State, steps: seq<Step>, q: int)
    requires Sound(s) && Possible(s, steps) && |steps| > 0 && steps[0].Record?
    requires q in Acknowledged(s, s.tickets[steps[0].id], steps[0].acknowledged)
    ensures RecordedAt(After(s, steps), steps, 0, q)
  {
    StaysFixed(s, steps);
    FixedAcknowledges(s, After(s, steps), steps[0].id, steps[0].acknowledged);
  }

  lemma RecordedLater(s: State, steps: seq<Step>, k: nat, q: int)
    requires |steps| > 0 && RecordedAt(s, steps[1..], k, q)
    ensures RecordedAt(s, steps, k + 1, q)
  {
  }

  /** What was ever acknowledged some one step records. */
  lemma {:induction false} RecordedSomewhere(s: State, steps: seq<Step>, q: int) returns (j: nat)
    requires Sound(s) && Possible(s, steps) && q in EverAcknowledged(s, steps)
    ensures RecordedAt(After(s, steps), steps, j, q)
    decreases |steps|
  {
    if q in EverAcknowledged(Next(s, steps[0]), steps[1..]) {
      NextKeepsSound(s, steps[0]);
      var k := RecordedSomewhere(Next(s, steps[0]), steps[1..], q);
      RecordedLater(After(s, steps), steps, k, q);
      j := k + 1;
    } else {
      RecordedFirst(s, steps, q);
      j := 0;
    }
  }

  // ---- What one holder does, when nothing falls between ----

  /** Looks whether the group is empty, and signals if it froze the prefix. */
  ghost function SettledAndSignalled(s: State): State
    requires s.settling > 0 && s.signalling >= 0
  {
    var t := Next(s, Settle);
    if t.signalling > s.signalling then Next(t, Signal) else t
  }

  /** The first to leave with a ticket marks it, counts it out and settles. */
  ghost function Left(s: State, id: nat): State
    requires id in s.tickets && Sound(s)
  {
    if s.tickets[id].applied then s
    else
      MarkKeepsSound(s, id);
      NextKeepsSound(Marked(s, id), CountOut);
      SettledAndSignalled(Next(Marked(s, id), CountOut))
  }

  /** The end of a request: what was acknowledged is recorded, and its chunk leaves. */
  ghost function Ended(s: State, id: nat, acknowledged: Option<nat>): State
    requires id in s.tickets && Sound(s)
  {
    RecordKeepsSound(s, id, acknowledged);
    Left(Recorded(s, id, acknowledged), id)
  }

  /** The guard of a write goes. */
  ghost function Stopped(s: State): State
    requires s.issuing && Sound(s)
  {
    NextKeepsSound(s, ClearIssuing);
    SettledAndSignalled(Next(s, ClearIssuing))
  }
}
