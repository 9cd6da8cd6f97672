/** What the actor promises of its offers, its writes, its wake-ups and its messages,
    told from the actions of a run. */
module ActorLaws {
  import opened Wrappers
  import opened Table
  import opened TableIndex
  import opened Actor
  import opened ActorRuns
  import C = Coverage
  import E = TableExpiry
  import I = InPlaceTable
  import W = WriteEnds

  // ---- One write at a time, and each to its end ----

  /** The action begins to write a frame. */
  predicate Begins(x: Action) {
    (x.TakeClose? || x.TakeRequest?) && x.how.Framed? && x.mid.Some?
  }

  /** The bytes that the socket took over some actions. */
  function BytesTaken(xs: seq<Action>): nat {
    if |xs| == 0 then 0
    else BytesTaken(xs[..|xs| - 1]) + (if xs[|xs| - 1].BytesWritten? then xs[|xs| - 1].written else 0)
  }

  ghost predicate LastBegin(xs: seq<Action>, b: int) {
    0 <= b < |xs| && Begins(xs[b]) && forall j :: b < j < |xs| ==> !Begins(xs[j])
  }

  /** The write begun at `b` has the socket's bytes since then behind it. */
  ghost predicate WritesOn(a: Actor, xs: seq<Action>, b: int)
    requires LastBegin(xs, b)
  {
    && a.writing.Some? && a.writing.value.length == xs[b].how.length
    && a.writing.value.cursor == BytesTaken(xs[b + 1..]) < xs[b].how.length
    && (a.writing.value.queued.Some? <==> BytesTaken(xs[b + 1..]) == 0)
  }

  /** The write in progress, if there is one, is the last that was begun; and that one is
      in progress until the socket has taken all of it. */
  ghost predicate WriteFollows(a: Actor, xs: seq<Action>) {
    && (a.writing.Some? ==> exists b :: LastBegin(xs, b))
    && forall b :: LastBegin(xs, b) ==>
         if BytesTaken(xs[b + 1..]) < xs[b].how.length then WritesOn(a, xs, b) else a.writing.None?
  }

  lemma BytesTakenMore(xs: seq<Action>, x: Action, b: int)
    requires 0 <= b < |xs|
    ensures BytesTaken((xs + [x])[b + 1..]) == BytesTaken(xs[b + 1..]) + (if x.BytesWritten? then x.written else 0)
  {
    var more := (xs + [x])[b + 1..];
    assert more[..|more| - 1] == xs[b + 1..];
  }

  lemma LastBeginMore(xs: seq<Action>, x: Action, b: int)
    ensures LastBegin(xs + [x], b) <==> if Begins(x) then b == |xs| else LastBegin(xs, b)
  {
    var ys := xs + [x];
    if LastBegin(ys, b) && !Begins(x) {
      assert forall j :: b < j < |xs| ==> ys[j] == xs[j];
    }
    if LastBegin(xs, b) && !Begins(x) {
      assert forall j :: b < j < |xs| ==> ys[j] == xs[j];
    }
    if Begins(x) {
      assert ys[|xs|] == x;
    }
  }

  /** What an action does to the write in progress. */
  lemma WritingAfter(a: Actor, x: Action)
    requires Ready(a) && Enabled(a, x)
    ensures Begins(x) ==>
      && a.writing.None? && Act(a, x).writing.Some? && Act(a, x).writing.value.length == x.how.length
      && Act(a, x).writing.value.cursor == 0 && Act(a, x).writing.value.queued.Some?
    ensures x.BytesWritten? ==>
      var w := a.writing.value;
      if x.written == 0 then Act(a, x).writing == a.writing
      else if w.cursor + x.written >= w.length then Act(a, x).writing.None?
      else Act(a, x).writing == Some(Writing(w.length, w.cursor + x.written, None))
    ensures !Begins(x) && !x.BytesWritten? ==> Act(a, x).writing == a.writing
  {
    if !x.BytesWritten? && !x.TakeClose? && !x.TakeRequest? {
      W.WritingStays(a, x);
    }
  }

  lemma NothingTaken(xs: seq<Action>, b: nat)
    requires b == |xs|
    ensures BytesTaken(xs[b..]) == 0
  {
  }

  lemma ActWritesOn(a: Actor, xs: seq<Action>, x: Action)
    requires Ready(a) && Enabled(a, x) && WriteFollows(a, xs)
    ensures WriteFollows(Act(a, x), xs + [x])
  {
    var a', ys := Act(a, x), xs + [x];
    WritingAfter(a, x);
    if Begins(x) {
      LastBeginMore(xs, x, |xs|);
      NothingTaken(ys, |xs| + 1);
    } else if a.writing.Some? {
      var b :| LastBegin(xs, b);
      LastBeginMore(xs, x, b);
    }
    forall b | LastBegin(ys, b)
      ensures if BytesTaken(ys[b + 1..]) < ys[b].how.length then WritesOn(a', ys, b) else a'.writing.None?
    {
      LastBeginMore(xs, x, b);
      if !Begins(x) {
        BytesTakenMore(xs, x, b);
      }
    }
  }

  /** **A frame is written to its end**, over every run: from the action that begins it
      on, a write is in progress, with as much behind it as the socket has taken since,
      exactly until that is all of it. */
  lemma {:induction false} WritesGoOn(limit: nat, timeouts: Timeouts, xs: seq<Action>)
    requires Possible(limit, timeouts, xs)
    ensures WriteFollows(Reached(limit, timeouts, xs), xs)
  {
    if |xs| > 0 {
      var n := |xs| - 1;
      WritesGoOn(limit, timeouts, xs[..n]);
      ActWritesOn(Reached(limit, timeouts, xs[..n]), xs[..n], xs[n]);
      assert xs == xs[..n] + [xs[n]];
    }
  }

  /** **Frames are not mixed**: no write is begun before the socket has taken all of the
      one begun before. */
  lemma FramesAreWhole(limit: nat, timeouts: Timeouts, xs: seq<Action>, b: nat, k: nat)
    requires b < k < |xs| && Possible(limit, timeouts, xs[..k])
    requires Enabled(Reached(limit, timeouts, xs[..k]), xs[k]) && Begins(xs[k]) && LastBegin(xs[..k], b)
    ensures BytesTaken(xs[b + 1..k]) >= xs[b].how.length
  {
    WritesGoOn(limit, timeouts, xs[..k]);
    assert xs[..k][b + 1..] == xs[b + 1..k];
  }

  // ---- What a pass offers ----

  /** The closes begun since a request was, or a pass found either queue empty. */
  ghost function ClosesBegun(limit: nat, timeouts: Timeouts, xs: seq<Action>): nat
    requires Possible(limit, timeouts, xs)
  {
    if |xs| == 0 then 0
    else
      var before, x := xs[..|xs| - 1], xs[|xs| - 1];
      var a := Reached(limit, timeouts, before);
      if x.TakeClose? then ClosesBegun(limit, timeouts, before) + 1
      else if x.TakeRequest? || (x.ArmLoop? && (a.requests == [] || a.closes == [])) then 0
      else ClosesBegun(limit, timeouts, before)
  }

  lemma {:induction false} ClosesAreCounted(limit: nat, timeouts: Timeouts, xs: seq<Action>)
    requires Possible(limit, timeouts, xs)
    ensures Reached(limit, timeouts, xs).consecutiveCloses == ClosesBegun(limit, timeouts, xs)
  {
    if |xs| > 0 {
      var n := |xs| - 1;
      var a := Reached(limit, timeouts, xs[..n]);
      ClosesAreCounted(limit, timeouts, xs[..n]);
      ActKeepsReady(a, xs[n]);
      ResetsCount(a, xs[n]);
    }
  }

  lemma ResetsCount(a: Actor, x: Action)
    requires Ready(a) && Enabled(a, x)
    ensures x.TakeRequest? || (x.ArmLoop? && (a.requests == [] || a.closes == [])) ==> Act(a, x).consecutiveCloses == 0
  {
  }

  /** A queue is hung up on exactly when the loop was told so, and holds nothing then. */
  lemma {:induction false} SourcesClose(limit: nat, timeouts: Timeouts, xs: seq<Action>)
    requires Possible(limit, timeouts, xs)
    ensures var a := Reached(limit, timeouts, xs);
      && (a.requestsDone <==> RequestsGone in xs) && (a.closesDone <==> ClosesGone in xs)
      && (a.requestsDone ==> a.requests == []) && (a.closesDone ==> a.closes == [])
  {
    if |xs| > 0 {
      var n := |xs| - 1;
      SourcesClose(limit, timeouts, xs[..n]);
      assert xs == xs[..n] + [xs[n]];
      W.QueueAfter(Reached(limit, timeouts, xs[..n]), xs[n], true);
      W.QueueAfter(Reached(limit, timeouts, xs[..n]), xs[n], false);
    }
  }

  /** There is room for one more: none is being written, and fewer are on the wire than
      may be. */
  ghost predicate Room(a: Actor, limit: nat) {
    a.writing.None? && |OnWires(a.table.entries)| < limit
  }

  /** **What a pass offers**, in every reachable state: where there is room, a close while
      its queue is not hung up on and fewer than eight were begun in a row; and a request
      while its queue is not, and no close is waiting or eight were. Where there is none,
      neither. */
  lemma OffersExactly(limit: nat, timeouts: Timeouts, xs: seq<Action>)
    requires Possible(limit, timeouts, xs + [ArmLoop]) && Possible(limit, timeouts, xs)
    ensures var a, offer := Reached(limit, timeouts, xs), Reached(limit, timeouts, xs + [ArmLoop]).offer;
      var begun := ClosesBegun(limit, timeouts, xs + [ArmLoop]);
      && offer.Some?
      && (offer.value.close <==> Room(a, limit) && ClosesGone !in xs && begun < 8)
      && (offer.value.request <==> Room(a, limit) && RequestsGone !in xs && (a.closes == [] || begun >= 8))
  {
    assert (xs + [ArmLoop])[..|xs|] == xs;
    ClosesAreCounted(limit, timeouts, xs + [ArmLoop]);
    SourcesClose(limit, timeouts, xs);
  }

  /** **Nobody waits where there is room**: where a pass finds room and something queued,
      something queued can be taken. */
  lemma SomethingCanBeTaken(limit: nat, timeouts: Timeouts, xs: seq<Action>) returns (x: Action)
    requires Possible(limit, timeouts, xs + [ArmLoop]) && Possible(limit, timeouts, xs)
    requires var a := Reached(limit, timeouts, xs); Room(a, limit) && (a.requests != [] || a.closes != [])
    ensures (x.TakeClose? || x.TakeRequest?) && x.how.Framed?
    ensures Enabled(Reached(limit, timeouts, xs + [ArmLoop]), x)
  {
    var a := Reached(limit, timeouts, xs);
    var b := Reached(limit, timeouts, xs + [ArmLoop]);
    assert (xs + [ArmLoop])[..|xs|] == xs;
    OffersExactly(limit, timeouts, xs);
    SourcesClose(limit, timeouts, xs);
    W.QueueAfter(a, ArmLoop, true);
    W.QueueAfter(a, ArmLoop, false);
    var mid := SomeMid(b.table);
    x := if b.closes != [] && b.offer.value.close then TakeClose(Framed(FRAME_HEADER), mid)
         else TakeRequest(Framed(FRAME_HEADER), mid);
  }

  /** What the pool has to give. */
  lemma SomeMid(t: Table) returns (mid: Option<nat>)
    requires RowsValid(t.entries)
    ensures Allocated(t, mid)
  {
    I.HeldIds(t.entries);
    if C.Span(0, POOL) <= t.entries.Keys {
      mid := None;
    } else {
      var m: nat :| m in C.Span(0, POOL) && m !in t.entries.Keys;
      mid := Some(m);
    }
  }

  // ---- Wake-ups are in time ----

  /** Something is due: a deadline of a row has come, or requests have charged capacity
      without an answer for the overall deadline. */
  ghost predicate SomethingIsDue(a: Actor, now: nat) {
    || (exists m :: m in a.table.entries && RowIsDue(a.table.entries[m], now))
    || (|OnWires(a.table.entries)| > 0 && SilentTime(a.history, now) >= a.timeouts.overall)
  }

  predicate RowIsDue(e: Entry, now: nat) {
    match e.state
    case OnWire(_, silenceAt, overallAt) => silenceAt <= now || overallAt <= now
    case Lapsed(giveUpAt) => giveUpAt <= now
    case Retired => false
  }

  lemma FirstIsEarliest(t: Table, now: nat)
    requires Indexed(t)
    ensures (exists m :: m in t.entries && RowIsDue(t.entries[m], now)) <==>
      t.expiry != {} && E.First(t.expiry).0 <= now
  {
    if t.expiry != {} && E.First(t.expiry).0 <= now {
      assert IsDue(t.entries, E.First(t.expiry));
      assert RowIsDue(t.entries[E.First(t.expiry).1], now);
    }
    if m :| m in t.entries && RowIsDue(t.entries[m], now) {
      var d := (t.entries[m].DueAt().value, m);
      assert IsDue(t.entries, d) && d in t.expiry;
    }
  }

  lemma SilenceWakes(a: Actor, now: nat)
    requires ClockAgrees(a) && a.clock <= now
    ensures |OnWires(a.table.entries)| > 0 && Indexed(a.table) && SilentTime(a.history, now) >= a.timeouts.overall <==>
      a.waitingSince.Some? && Indexed(a.table)
      && a.waitingSince.value
         + (if a.silentFor <= a.timeouts.overall then a.timeouts.overall - a.silentFor else 0) <= now
  {
    if Indexed(a.table) {
      ClockRuns(a, now);
    }
  }

  /** **Wake-ups are in time, and never for nothing**: in every reachable state, the time
      has come for which the loop asked to be woken exactly when something is due. */
  lemma WakeIsExact(limit: nat, timeouts: Timeouts, xs: seq<Action>, now: nat)
    requires Possible(limit, timeouts, xs)
    requires var a := Reached(limit, timeouts, xs); a.down.None? && a.clock <= now
    ensures var a := Reached(limit, timeouts, xs);
      && (NextWake(a).Some? && NextWake(a).value <= now <==> SomethingIsDue(a, now))
      && (a.offer.Some? ==> a.offer.value.wake == NextWake(a))
  {
    var a := Reached(limit, timeouts, xs);
    FirstIsEarliest(a.table, now);
    SilenceWakes(a, now);
  }

  // ---- What the clock found ----

  /** The reading of the clock that a step which came to `a` made, if it read it and went
      well: when that was, whether a message was answered, and whether requests charged. */
  ghost function ReadingOf(a: Actor, x: Action): seq<Beat> {
    var charging := |OnWires(a.table.entries)| > 0;
    match x
    case BytesWritten(written, now) => if written > 0 then [Beat(now, false, charging)] else []
    case FrameIn(_, _, now) =>
      if a.down.None? || a.down == Some(SessionDeleted) then [Beat(now, true, charging)] else []
    case TimerFired(now) => if a.down == Some(Silent) then [] else [Beat(now, false, charging)]
    case _ => []
  }

  /** The readings of a run. */
  ghost function Readings(limit: nat, timeouts: Timeouts, xs: seq<Action>): seq<Beat>
    requires Possible(limit, timeouts, xs)
  {
    if |xs| == 0 then []
    else Readings(limit, timeouts, xs[..|xs| - 1]) + ReadingOf(Reached(limit, timeouts, xs), xs[|xs| - 1])
  }

  lemma ReadsOnce(a: Actor, x: Action)
    requires Ready(a) && Enabled(a, x)
    ensures Act(a, x).history == a.history + ReadingOf(Act(a, x), x)
  {
    ActKeepsReady(a, x);
    match x
    case FrameIn(frame, _, now) => RouteReads(a.(offer := None), frame, now);
    case TimerFired(now) => TickReads(a.(offer := None), now);
    case BytesWritten(written, now) => WroteReads(a.(offer := None), written, now);
    case _ => NothingRead(a, x);
  }

  lemma NothingRead(a: Actor, x: Action)
    requires Indexed(a.table) && Enabled(a, x) && !x.FrameIn? && !x.TimerFired? && !x.BytesWritten?
    ensures Act(a, x).history == a.history
  {
  }

  lemma WroteReads(a: Actor, written: nat, now: nat)
    requires a.writing.Some?
    ensures var b := Wrote(a, written, now);
      b.history == a.history + (if written > 0 then [Beat(now, false, b.Charging() > 0)] else [])
  {
  }

  lemma TickReads(a: Actor, now: nat)
    requires Indexed(a.table) && a.down.None?
    ensures var b := Tick(a, now);
      b.history == a.history + (if b.down == Some(Silent) then [] else [Beat(now, false, b.Charging() > 0)])
  {
    ExpireFailsForBudget(a.table, a.timeouts, now);
  }

  lemma RouteReads(a: Actor, frame: Frame, now: nat)
    requires Indexed(a.table) && a.down.None?
    ensures var b := Route(a, frame, now);
      if b.down.None? || b.down == Some(SessionDeleted) then
        b.history == a.history + [Beat(now, true, b.Charging() > 0)]
      else b.history == a.history
  {
    NeverDeleted(a.table, frame, a.timeouts, now);
  }

  /** **The history is what happened**: the readings on which the silence clock was judged
      are those of the run. */
  lemma {:induction false} HistoryIsRead(limit: nat, timeouts: Timeouts, xs: seq<Action>)
    requires Possible(limit, timeouts, xs)
    ensures Reached(limit, timeouts, xs).history == Readings(limit, timeouts, xs)
  {
    if |xs| > 0 {
      var n := |xs| - 1;
      HistoryIsRead(limit, timeouts, xs[..n]);
      ReadsOnce(Reached(limit, timeouts, xs[..n]), xs[n]);
    }
  }

  // ---- What ends the connection ----

  lemma NeverDeleted(t: Table, frame: Frame, timeouts: Timeouts, now: nat)
    requires Indexed(t)
    ensures Accept(t, frame, timeouts, now).failure != Some(SessionDeleted)
  {
    if frame.mid in t.entries {
      var e := t.entries[frame.mid];
      if !e.state.Retired? && e.command == frame.command {
        NeverDeletes(t, frame.mid, e, AcceptRow(e, frame, now, timeouts.perRequest));
      }
    }
  }

  lemma NeverDeletes(t: Table, m: nat, e: Entry, r: RowStep)
    requires m in t.entries
    ensures Settle(t, m, e, r).failure != Some(SessionDeleted)
  {
  }

  /** What comes of a message: one that chains another ends the connection and goes no
      further; any other is routed first, and ends the connection where it cannot be, or
      else where it says that the session is gone. */
  lemma MessageOutcome(a: Actor, frame: Frame, answers: nat, now: nat)
    requires Ready(a) && Enabled(a, FrameIn(frame, answers, now))
    ensures var b, m := Act(a, FrameIn(frame, answers, now)), Accept(a.table, frame, a.timeouts, now);
      && (frame.chains.Some? ==> b.down == Some(ChainedResponse(frame.chains.value)) && b.table == a.table)
      && (frame.chains.None? ==>
            && b.table == m.table
            && b.down == if m.failure.Some? then m.failure
                         else if frame.status == UserSessionDeleted then Some(SessionDeleted) else None)
  {
  }

  /** What comes of the timer: silence for too long ends the connection, and else the
      rows that are due expire. */
  lemma TimerOutcome(limit: nat, timeouts: Timeouts, xs: seq<Action>, now: nat)
    requires Possible(limit, timeouts, xs) && Enabled(Reached(limit, timeouts, xs), TimerFired(now))
    ensures var a, b := Reached(limit, timeouts, xs), Act(Reached(limit, timeouts, xs), TimerFired(now));
      if |OnWires(a.table.entries)| > 0 && SilentTime(a.history, now) >= timeouts.overall then
        b.down == Some(Silent) && b.table == a.table
      else b.table == E.Expire(a.table, timeouts, now).table && b.down == E.Expire(a.table, timeouts, now).failure
  {
    var a := Reached(limit, timeouts, xs);
    SilentExactly(limit, timeouts, xs, now);
    ExpireFailsForBudget(a.table, timeouts, now);
    TickExpires(a.(offer := None), now);
  }

  lemma TickExpires(a: Actor, now: nat)
    requires Indexed(a.table) && a.down.None? && E.Expire(a.table, a.timeouts, now).failure != Some(Silent)
    ensures var b := Tick(a, now);
      if b.down == Some(Silent) then b.table == a.table
      else b.table == E.Expire(a.table, a.timeouts, now).table && b.down == E.Expire(a.table, a.timeouts, now).failure
  {
  }

  /** What comes of a request that is taken: one whose caller has gone is told so and not
      sent; one for which there is no id ends the connection; one that cannot be framed is
      told so; any other is written, under an identity of its own. */
  lemma TakeOutcome(a: Actor, x: Action)
    requires Ready(a) && Enabled(a, x) && (x.TakeClose? || x.TakeRequest?)
    ensures var b, d := Act(a, x), if x.TakeClose? then a.closes[0] else a.requests[0];
      && (x.how.Abandoned? ==>
            b.refused == a.refused + [Refused(d, Lost, d.hook, false)] && b.serial == a.serial && b.down.None?)
      && (!x.how.Abandoned? && x.mid.None? ==>
            b.down == Some(PoolExhausted) && b.refused == a.refused && b.serial == a.serial)
      && (x.how.Unframed? && x.mid.Some? ==>
            b.refused == a.refused + [Refused(d, Error.Wire, d.hook, d.reply)] && b.serial == a.serial && b.down.None?)
      && (Begins(x) ==>
            && b.refused == a.refused && b.serial == a.serial + 1 && b.down.None?
            && b.writing == Some(Writing(x.how.length, 0, Some(Queued(a.serial, x.mid.value, d)))))
  {
  }

  /** What comes of the socket: nothing taken, or a failure, ends the connection. */
  lemma SocketOutcome(a: Actor, x: Action)
    requires Ready(a) && Enabled(a, x)
    ensures x.BytesWritten? ==> Act(a, x).down == if x.written == 0 then Some(Io) else None
    ensures x.SocketFailed? ==> Act(a, x).down == Some(x.error)
    ensures x.ArmLoop? || x.NothingIn? || x.QueueClose? || x.QueueRequest? || x.ClosesGone? || x.RequestsGone? ==>
      Act(a, x).down.None?
  {
  }
}
