/** Whole runs of the actor: admission, the silence clock, the wake-up and the
    share of closes, against any server and any traffic on the queues. */
module ActorRuns {
  import opened Wrappers
  import opened Table
  import opened TableIndex
  import opened TableRuns
  import TR = TableRuns
  import opened Actor
  import E = TableExpiry

  // ---- The reference for the silence clock ----

  /** The time up to `now`, since the last message was answered, during which
      some request charged capacity. */
  function SilentTime(history: seq<Beat>, now: nat): nat {
    if history == [] then 0
    else
      var last := history[|history| - 1];
      (if last.charging then Since(last.at, now) else 0)
      + (if last.answered then 0 else SilentTime(history[..|history| - 1], last.at))
  }

  // ---- The invariant ----

  /** The silence clock agrees with the history, and runs exactly while a request
      charges capacity. */
  ghost predicate ClockAgrees(a: Actor) {
    && (a.waitingSince.Some? <==> a.Charging() > 0)
    && (a.waitingSince.Some? ==> a.waitingSince.value <= a.clock)
    && (a.history == [] ==> a.waitingSince.None? && a.silentFor == 0)
    && (a.history != [] ==>
          var last := a.history[|a.history| - 1];
          && last.at == a.clock && (last.charging <==> a.Charging() > 0)
          && SilentFor(a, a.clock) == SilentTime(a.history, a.clock))
  }

  /** One where a request has been taken but not yet dispatched. */
  function Pending(a: Actor): nat {
    if a.writing.Some? && a.writing.value.queued.Some? then 1 else 0
  }

  /** What charges capacity and what is about to never exceed the limit, and the
      write in progress holds an id nothing in the table holds. */
  ghost predicate Admitted(a: Actor) {
    && a.Charging() + Pending(a) <= a.limit
    && (Pending(a) == 1 ==>
          && a.writing.value.queued.value.id + 1 == a.serial
          && a.writing.value.queued.value.mid <= LAST_MID
          && a.writing.value.queued.value.mid !in a.table.entries)
    && (a.offer.Some? && (a.offer.value.close || a.offer.value.request) ==>
          a.writing.None? && a.Charging() < a.limit)
  }

  ghost predicate ClosesBounded(a: Actor) {
    && a.consecutiveCloses <= CLOSE_RUN
    && (a.offer.Some? && a.offer.value.close ==> a.consecutiveCloses < CLOSE_RUN)
  }

  ghost predicate Ready(a: Actor) {
    && Indexed(a.table)
    && (a.down.None? ==> ClockAgrees(a))
    && Admitted(a) && ClosesBounded(a)
    && (a.offer.Some? ==> a.offer.value.wake == NextWake(a))
  }

  lemma StartIsReady(limit: nat, timeouts: Timeouts, now: nat)
    ensures Ready(Start(limit, timeouts, now))
  {
    NewTableIsIndexed();
  }

  /** Noting the time keeps the silence clock exact, whatever the step did to the
      table. */
  lemma NotedAgrees(a: Actor, b: Actor, now: nat)
    requires ClockAgrees(a) && a.clock <= now
    requires b.silentFor == a.silentFor && b.waitingSince == a.waitingSince && b.history == a.history
    ensures ClockAgrees(Noted(b, now, false))
  {
    var c := Noted(b, now, false);
    assert c.history[..|b.history|] == b.history;
    if a.history != [] {
      ClockRuns(a, now);
    }
  }

  /** Between two readings the clock and its reference run alike. */
  lemma ClockRuns(a: Actor, now: nat)
    requires ClockAgrees(a) && a.clock <= now
    ensures SilentFor(a, now) == SilentTime(a.history, now)
  {
  }

  lemma AnsweredAgrees(b: Actor, now: nat)
    requires b.silentFor == 0 && b.waitingSince.None?
    ensures ClockAgrees(Noted(b, now, true))
  {
  }

  // ---- Every action keeps it ----

  lemma BeginKeepsReady(a: Actor, d: Dispatch, how: Framing, mid: Option<nat>)
    requires Ready(a) && a.offer.None? && a.writing.None? && a.Charging() < a.limit
    requires Framable(a.table, d, how, mid)
    ensures Ready(Begin(a, d, how, mid)) && SameLoop(a, Begin(a, d, how, mid))
  {
  }

  /** What no step of the clock or the socket changes. */
  predicate SameLoop(a: Actor, b: Actor) {
    a.limit == b.limit && a.timeouts == b.timeouts && a.consecutiveCloses == b.consecutiveCloses
  }

  /** A new state of the table, and of the write, that an actor can go on with. */
  ghost predicate Fits(a: Actor, table: Table, writing: Option<Writing>) {
    && Indexed(table)
    && (writing.Some? && writing.value.queued.Some? ==>
          writing == a.writing && writing.value.queued.value.mid !in table.entries)
    && table.charging + Pending(a.(writing := writing)) <= a.limit
  }

  /** Noting the time after a step of the table. */
  lemma NotedKeepsReady(a: Actor, table: Table, writing: Option<Writing>, now: nat)
    requires Ready(a) && a.down.None? && a.offer.None? && a.clock <= now
    requires Fits(a, table, writing)
    ensures Ready(Noted(a.(table := table, writing := writing), now, false))
  {
    NotedAgrees(a, a.(table := table, writing := writing), now);
  }

  lemma WroteFits(a: Actor, writing: Option<Writing>, now: nat)
    requires Ready(a) && a.down.None? && a.writing.Some?
    requires writing.Some? ==> writing.value.queued.None?
    ensures Fits(a, WroteTable(a, now), writing)
  {
    if Pending(a) == 1 {
      var q := a.writing.value.queued.value;
      DispatchKeepsIndex(a.table, q.mid, q.id, q.dispatch.command, q.dispatch.reply, Bounded(q.dispatch.bounds),
                         q.dispatch.hook, a.timeouts, now);
    }
  }

  lemma WroteKeepsReady(a: Actor, written: nat, now: nat)
    requires Ready(a) && a.down.None? && a.offer.None? && a.writing.Some? && a.clock <= now
    ensures Ready(Wrote(a, written, now))
  {
    WroteFits(a, Rest(a.writing.value, written), now);
    NotedKeepsReady(a, WroteTable(a, now), Rest(a.writing.value, written), now);
  }

  /** A message never adds to what charges capacity, and frees or keeps ids. */
  lemma AcceptNeverCharges(t: Table, frame: Frame, timeouts: Timeouts, now: nat)
    requires Indexed(t)
    ensures Accept(t, frame, timeouts, now).table.charging <= t.charging
    ensures Accept(t, frame, timeouts, now).table.entries.Keys <= t.entries.Keys
  {
    if Routes(t, frame) {
      var e := t.entries[frame.mid];
      AcceptSettles(t, frame, timeouts, now);
      SettleNeverCharges(t, frame.mid, e, AcceptRow(e, frame, now, timeouts.perRequest));
    } else {
      AcceptElsewhere(t, frame, timeouts, now);
    }
  }

  lemma SettleNeverCharges(t: Table, m: nat, e: Entry, r: RowStep)
    requires m in t.entries
    ensures Settle(t, m, e, r).table.charging <= t.charging
    ensures Settle(t, m, e, r).table.entries.Keys <= t.entries.Keys
  {
  }

  lemma {:induction false} ExpireNeverCharges(t: Table, timeouts: Timeouts, now: nat)
    requires Indexed(t)
    ensures E.Expire(t, timeouts, now).table.charging <= t.charging
    ensures E.Expire(t, timeouts, now).table.entries.Keys == t.entries.Keys
    decreases E.Remaining(t)
  {
    E.RemainingIsNat(t);
    if t.expiry != {} && E.First(t.expiry).0 <= now {
      var first := E.First(t.expiry);
      ExpireOneKeepsIndex(t, first, timeouts, now);
      E.ExpireOneShrinks(t, first, timeouts, now);
      var m := ExpireOne(t, first, timeouts, now);
      assert m.table.entries.Keys == t.entries.Keys;
      if m.failure.None? {
        ExpireNeverCharges(m.table, timeouts, now);
      }
    }
  }

  lemma ArrivalFits(a: Actor, frame: Frame, now: nat)
    requires Ready(a)
    ensures Fits(a, Accept(a.table, frame, a.timeouts, now).table, a.writing)
  {
    AcceptKeepsIndex(a.table, frame, a.timeouts, now);
    AcceptNeverCharges(a.table, frame, a.timeouts, now);
  }

  lemma AnsweredKeepsReady(a: Actor, table: Table, now: nat)
    requires Ready(a) && a.down.None? && a.offer.None? && a.clock <= now
    requires Fits(a, table, a.writing)
    ensures var b := a.(silentFor := 0, waitingSince := None, table := table);
      && (forall down: Option<Error> :: down.Some? ==> Ready(b.(down := down)))
      && (forall down :: Ready(Noted(b, now, true).(down := down)))
      && Ready(Noted(b, now, true))
  {
    AnsweredAgrees(a.(silentFor := 0, waitingSince := None, table := table), now);
  }

  lemma RouteKeepsReady(a: Actor, frame: Frame, now: nat)
    requires Ready(a) && a.down.None? && a.offer.None? && a.clock <= now
    ensures Ready(Route(a, frame, now))
  {
    if frame.chains.None? {
      ArrivalFits(a, frame, now);
      AnsweredKeepsReady(a, Accept(a.table, frame, a.timeouts, now).table, now);
    }
  }

  lemma TickFits(a: Actor, now: nat)
    requires Ready(a)
    ensures Fits(a, E.Expire(a.table, a.timeouts, now).table, a.writing)
  {
    ExpireNeverCharges(a.table, a.timeouts, now);
  }

  lemma TickKeepsReady(a: Actor, now: nat)
    requires Ready(a) && a.down.None? && a.offer.None? && a.clock <= now
    ensures Ready(Tick(a, now))
  {
    TickFits(a, now);
    var table := E.Expire(a.table, a.timeouts, now).table;
    NotedKeepsReady(a, table, a.writing, now);
    assert a.(table := table, writing := a.writing) == a.(table := table);
    GoingDown(Noted(a.(table := table), now, false), E.Expire(a.table, a.timeouts, now).failure);
  }

  /** A connection that fails keeps what it had. */
  lemma GoingDown(a: Actor, failure: Option<Error>)
    requires Ready(a)
    ensures failure.Some? || failure == a.down ==> Ready(a.(down := failure))
  {
  }

  lemma ArmKeepsReady(a: Actor)
    requires Ready(a) && a.offer.None?
    ensures Ready(Arm(a))
    ensures SameLoop(a, if a.requests == [] || a.closes == []
      then Arm(a).(consecutiveCloses := a.consecutiveCloses) else Arm(a))
  {
  }

  lemma WithoutOffer(a: Actor)
    requires Ready(a)
    ensures Ready(a.(offer := None))
  {
  }

  lemma CountedCloseKeepsReady(a: Actor)
    requires Ready(a) && a.closes != [] && a.consecutiveCloses < CLOSE_RUN
    ensures Ready(WithoutClose(a))
  {
  }

  /** An offer to take a close is made only where one may be begun. */
  lemma OfferedClose(a: Actor, x: Action)
    requires Ready(a) && Enabled(a, x) && x.TakeClose?
    ensures a.writing.None? && a.Charging() < a.limit && a.consecutiveCloses < CLOSE_RUN && |a.closes| > 0
    ensures Framable(a.table, a.closes[0], x.how, x.mid)
  {
  }

  lemma TakeCloseKeepsReady(a: Actor, x: Action)
    requires Ready(a) && Enabled(a, x) && x.TakeClose?
    ensures Ready(Act(a, x))
  {
    OfferedClose(a, x);
    CountedCloseKeepsReady(a);
    BeginKeepsReady(WithoutClose(a), a.closes[0], x.how, x.mid);
  }

  lemma TakeRequestKeepsReady(a: Actor, x: Action)
    requires Ready(a) && Enabled(a, x) && x.TakeRequest?
    ensures Ready(Act(a, x))
  {
    assert Ready(WithoutRequest(a));
    BeginKeepsReady(WithoutRequest(a), a.requests[0], x.how, x.mid);
  }

  lemma TakesKeepReady(a: Actor, x: Action)
    requires Ready(a) && Enabled(a, x) && (x.TakeClose? || x.TakeRequest?)
    ensures Ready(Act(a, x))
  {
    if x.TakeClose? {
      TakeCloseKeepsReady(a, x);
    } else {
      TakeRequestKeepsReady(a, x);
    }
  }

  lemma TakesSameLoop(a: Actor, x: Action)
    requires Indexed(a.table) && Enabled(a, x) && (x.TakeClose? || x.TakeRequest?)
    ensures SameLoop(a.(consecutiveCloses := if x.TakeClose? then a.consecutiveCloses + 1 else 0), Act(a, x))
  {
  }

  lemma WroteSameLoop(a: Actor, written: nat, now: nat)
    requires a.writing.Some?
    ensures SameLoop(a, Wrote(a, written, now))
  {
  }

  lemma RouteSameLoop(a: Actor, frame: Frame, now: nat)
    requires Indexed(a.table)
    ensures SameLoop(a, Route(a, frame, now))
  {
  }

  lemma TickSameLoop(a: Actor, now: nat)
    requires Indexed(a.table)
    ensures SameLoop(a, Tick(a, now))
  {
  }

  lemma QueuesKeepReady(a: Actor, x: Action)
    requires Ready(a) && Enabled(a, x)
    requires x.QueueRequest? || x.QueueClose? || x.ClosesGone? || x.RequestsGone? || x.NothingIn? || x.SocketFailed?
    ensures Ready(Act(a, x)) && SameLoop(a, Act(a, x))
  {
  }

  /** Every action keeps the invariant and the parameters, and counts the closes
      it begins. */
  lemma ActKeepsReady(a: Actor, x: Action)
    requires Ready(a) && Enabled(a, x)
    ensures Ready(Act(a, x))
    ensures Act(a, x).limit == a.limit && Act(a, x).timeouts == a.timeouts
    ensures x.TakeClose? ==> Act(a, x).consecutiveCloses == a.consecutiveCloses + 1
    ensures !x.TakeClose? && !x.TakeRequest? && !(x.ArmLoop? && (a.requests == [] || a.closes == [])) ==>
      Act(a, x).consecutiveCloses == a.consecutiveCloses
  {
    WithoutOffer(a);
    match x
    case TakeClose(_, _) => TakesKeepReady(a, x); TakesSameLoop(a, x);
    case TakeRequest(_, _) => TakesKeepReady(a, x); TakesSameLoop(a, x);
    case ArmLoop => ArmKeepsReady(a);
    case FrameIn(frame, _, now) =>
      RouteKeepsReady(a.(offer := None), frame, now);
      RouteSameLoop(a.(offer := None), frame, now);
    case BytesWritten(written, now) =>
      WroteKeepsReady(a.(offer := None), written, now);
      WroteSameLoop(a.(offer := None), written, now);
    case TimerFired(now) =>
      TickKeepsReady(a.(offer := None), now);
      TickSameLoop(a.(offer := None), now);
    case _ => QueuesKeepReady(a, x);
  }

  // ---- Whole runs ----

  /** A run from the start in which every action was enabled where it happened. */
  ghost predicate Possible(limit: nat, timeouts: Timeouts, xs: seq<Action>)
    decreases |xs|, 0
  {
    xs == [] ||
    (var n := |xs| - 1;
     Possible(limit, timeouts, xs[..n]) && Enabled(Reached(limit, timeouts, xs[..n]), xs[n]))
  }

  ghost function Reached(limit: nat, timeouts: Timeouts, xs: seq<Action>): (a: Actor)
    requires Possible(limit, timeouts, xs)
    ensures Ready(a) && a.limit == limit && a.timeouts == timeouts
    decreases |xs|, 1
  {
    if xs == [] then StartIsReady(limit, timeouts, 0); Start(limit, timeouts, 0)
    else
      var a, x := Reached(limit, timeouts, xs[..|xs| - 1]), xs[|xs| - 1];
      ActKeepsReady(a, x);
      Act(a, x)
  }

  /** One more action of a run. */
  lemma Next(limit: nat, timeouts: Timeouts, xs: seq<Action>, x: Action)
    requires Possible(limit, timeouts, xs) && Enabled(Reached(limit, timeouts, xs), x)
    ensures Possible(limit, timeouts, xs + [x])
    ensures Reached(limit, timeouts, xs + [x]) == Act(Reached(limit, timeouts, xs), x)
  {
    assert (xs + [x])[..|xs|] == xs;
  }

  /** **Admission**: in every reachable state the requests that charge capacity
      and the one taken but not yet dispatched stay within the limit, and that
      one's id is held by nothing in the table. */
  lemma AdmissionHolds(maxMpxCount: nat, timeouts: Timeouts, xs: seq<Action>)
    requires Possible(AdmissionLimit(maxMpxCount), timeouts, xs)
    ensures var a := Reached(AdmissionLimit(maxMpxCount), timeouts, xs);
      && |OnWires(a.table.entries)| + Pending(a) <= 50
      && (maxMpxCount <= 1 ==> |OnWires(a.table.entries)| + Pending(a) <= 1)
      && (maxMpxCount > 1 ==> |OnWires(a.table.entries)| + Pending(a) <= maxMpxCount)
      && (Pending(a) == 1 ==> a.writing.value.queued.value.mid !in a.table.entries)
  {
  }

  /** **The silence clock is exact** in every reachable state, at every reading. */
  lemma SilenceIsExact(limit: nat, timeouts: Timeouts, xs: seq<Action>, now: nat)
    requires Possible(limit, timeouts, xs)
    requires var a := Reached(limit, timeouts, xs); a.down.None? && a.clock <= now
    ensures var a := Reached(limit, timeouts, xs); SilentFor(a, now) == SilentTime(a.history, now)
  {
    ClockRuns(Reached(limit, timeouts, xs), now);
  }

  /** The silence rule fires at a tick exactly when a request is charging capacity
      and the time spent so without an answer has reached the overall deadline. */
  lemma SilentExactly(limit: nat, timeouts: Timeouts, xs: seq<Action>, now: nat)
    requires Possible(limit, timeouts, xs)
    requires Enabled(Reached(limit, timeouts, xs), TimerFired(now))
    ensures var a := Reached(limit, timeouts, xs);
      Act(a, TimerFired(now)).down == Some(Silent)
      <==> |OnWires(a.table.entries)| > 0 && SilentTime(a.history, now) >= timeouts.overall
  {
    var a := Reached(limit, timeouts, xs);
    ClockRuns(a, now);
    ExpireFailsForBudget(a.table, timeouts, now);
  }

  lemma {:induction false} ExpireFailsForBudget(t: Table, timeouts: Timeouts, now: nat)
    requires Indexed(t)
    ensures E.Expire(t, timeouts, now).failure.Some? ==> E.Expire(t, timeouts, now).failure.value.RetirementBudget?
    decreases E.Remaining(t)
  {
    E.RemainingIsNat(t);
    if t.expiry != {} && E.First(t.expiry).0 <= now {
      var first := E.First(t.expiry);
      ExpireOneKeepsIndex(t, first, timeouts, now);
      E.ExpireOneShrinks(t, first, timeouts, now);
      if ExpireOne(t, first, timeouts, now).failure.None? {
        ExpireFailsForBudget(ExpireOne(t, first, timeouts, now).table, timeouts, now);
      }
    }
  }

  /** **A wake-up is never for nothing**: a timer that fires when the loop asked
      for it fails the connection or moves at least one request on. */
  lemma WakeMakesProgress(limit: nat, timeouts: Timeouts, xs: seq<Action>, now: nat)
    requires Possible(limit, timeouts, xs)
    requires Enabled(Reached(limit, timeouts, xs), TimerFired(now))
    ensures var a := Reached(limit, timeouts, xs);
      var b := Act(a, TimerFired(now));
      b.down.Some? || E.Remaining(b.table) < E.Remaining(a.table)
  {
    var a := Reached(limit, timeouts, xs);
    if a.table.expiry != {} && E.First(a.table.expiry).0 <= now {
      E.ExpireMakesProgress(a.table, timeouts, now);
    }
  }

  // ---- No request is lost on the way to the wire ----

  function Taken(xs: seq<Action>): nat {
    if |xs| == 0 then 0
    else Taken(xs[..|xs| - 1]) + (if xs[|xs| - 1].TakeClose? || xs[|xs| - 1].TakeRequest? then 1 else 0)
  }

  /** **Every request taken is accounted for**: over every run those taken from the
      queues are those given an identity, those refused, and the one at which the
      pool was exhausted, which ended the connection. */
  lemma {:induction false} TakenAreAccounted(limit: nat, timeouts: Timeouts, xs: seq<Action>)
    requires Possible(limit, timeouts, xs)
    ensures var a := Reached(limit, timeouts, xs);
      Taken(xs) == a.serial + |a.refused| + (if a.down == Some(PoolExhausted) then 1 else 0)
  {
    if |xs| > 0 {
      var n := |xs| - 1;
      TakenAreAccounted(limit, timeouts, xs[..n]);
      ActAccounts(Reached(limit, timeouts, xs[..n]), xs[n]);
    }
  }

  /** What is accounted for of the requests taken. */
  function Accounts(a: Actor): nat {
    a.serial + |a.refused| + (if a.down == Some(PoolExhausted) then 1 else 0)
  }

  /** The requests refused are `before`, and at most one more, which was told. */
  ghost predicate RefusesOne(before: seq<Refused>, after: seq<Refused>) {
    after == before || (|after| == |before| + 1 && after[..|before|] == before && Told(after[|before|]))
  }

  lemma BeginAccounts(a: Actor, d: Dispatch, how: Framing, mid: Option<nat>)
    requires a.down.None? && Framable(a.table, d, how, mid)
    ensures Accounts(Begin(a, d, how, mid)) == Accounts(a) + 1
    ensures RefusesOne(a.refused, Begin(a, d, how, mid).refused)
  {
  }

  /** What a step about no request taken leaves alone. */
  ghost predicate Uncounted(a: Actor, b: Actor) {
    b.serial == a.serial && b.refused == a.refused && b.down != Some(PoolExhausted)
  }

  lemma RouteIsUncounted(a: Actor, frame: Frame, now: nat)
    requires Indexed(a.table) && a.down.None?
    ensures Uncounted(a, Route(a, frame, now))
  {
    AcceptNeverExhausts(a.table, frame, a.timeouts, now);
  }

  lemma TickIsUncounted(a: Actor, now: nat)
    requires Indexed(a.table) && a.down.None?
    ensures Uncounted(a, Tick(a, now))
  {
    ExpireFailsForBudget(a.table, a.timeouts, now);
  }

  /** Only taking a request gives an identity or refuses one. */
  lemma ElsewhereAccounts(a: Actor, x: Action)
    requires Indexed(a.table) && Enabled(a, x) && !x.TakeClose? && !x.TakeRequest?
    ensures Uncounted(a, Act(a, x))
  {
    match x
    case FrameIn(frame, _, now) => RouteIsUncounted(a.(offer := None), frame, now);
    case TimerFired(now) => TickIsUncounted(a.(offer := None), now);
    case _ =>
  }

  lemma ActAccounts(a: Actor, x: Action)
    requires Indexed(a.table) && Enabled(a, x)
    ensures Accounts(Act(a, x)) == Accounts(a) + (if x.TakeClose? || x.TakeRequest? then 1 else 0)
    ensures RefusesOne(a.refused, Act(a, x).refused)
  {
    if x.TakeClose? {
      BeginAccounts(WithoutClose(a), a.closes[0], x.how, x.mid);
    } else if x.TakeRequest? {
      BeginAccounts(WithoutRequest(a), a.requests[0], x.how, x.mid);
    } else {
      ElsewhereAccounts(a, x);
    }
  }

  lemma AcceptNeverExhausts(t: Table, frame: Frame, timeouts: Timeouts, now: nat)
    requires Indexed(t)
    ensures Accept(t, frame, timeouts, now).failure != Some(PoolExhausted)
  {
    if Routes(t, frame) {
      var e := t.entries[frame.mid];
      AcceptSettles(t, frame, timeouts, now);
      SettleNeverExhausts(t, frame.mid, e, AcceptRow(e, frame, now, timeouts.perRequest));
    }
  }

  lemma SettleNeverExhausts(t: Table, m: nat, e: Entry, r: RowStep)
    requires m in t.entries
    ensures Settle(t, m, e, r).failure != Some(PoolExhausted)
  {
  }

  /** A refused request ended as it was arranged to: its hook heard, and its
      waiter, unless it had gone. */
  predicate Told(r: Refused) {
    && r.hook == r.dispatch.hook
    && if r.error == Lost then r.dispatch.reply && !r.reply
       else r.error == Error.Wire && r.reply == r.dispatch.reply
  }

  lemma {:induction false} RefusedWereTold(limit: nat, timeouts: Timeouts, xs: seq<Action>)
    requires Possible(limit, timeouts, xs)
    ensures forall i :: 0 <= i < |Reached(limit, timeouts, xs).refused| ==>
      Told(Reached(limit, timeouts, xs).refused[i])
  {
    if |xs| > 0 {
      var n := |xs| - 1;
      var a := Reached(limit, timeouts, xs[..n]);
      RefusedWereTold(limit, timeouts, xs[..n]);
      ActAccounts(a, xs[n]);
      OneMoreTold(a.refused, Act(a, xs[n]).refused);
    }
  }

  lemma OneMoreTold(before: seq<Refused>, after: seq<Refused>)
    requires RefusesOne(before, after) && forall i :: 0 <= i < |before| ==> Told(before[i])
    ensures forall i :: 0 <= i < |after| ==> Told(after[i])
  {
    forall i | 0 <= i < |after|
      ensures Told(after[i])
    {
      assert i < |before| ==> after[..|before|][i] == before[i];
    }
  }

  // ---- The share of closes ----

  /** From `a`, both queues are non-empty whenever the loop arms itself, and no
      request is taken. */
  ghost predicate OnlyCloses(a: Actor, xs: seq<Action>)
    requires Ready(a)
    decreases |xs|
  {
    xs == [] ||
    (Enabled(a, xs[0]) && !xs[0].TakeRequest?
     && (xs[0].ArmLoop? ==> a.requests != [] && a.closes != [])
     && (ActKeepsReady(a, xs[0]); OnlyCloses(Act(a, xs[0]), xs[1..])))
  }

  function Closes(xs: seq<Action>): nat {
    if xs == [] then 0 else (if xs[0].TakeClose? then 1 else 0) + Closes(xs[1..])
  }

  /** **Closes cannot starve requests**: while both queues stay non-empty, at most
      eight closes are begun before a request is. */
  lemma {:induction false} CloseRunIsBounded(a: Actor, xs: seq<Action>)
    requires Ready(a) && OnlyCloses(a, xs)
    ensures Closes(xs) + a.consecutiveCloses <= 8
    decreases |xs|
  {
    if xs != [] {
      ActKeepsReady(a, xs[0]);
      CloseRunIsBounded(Act(a, xs[0]), xs[1..]);
    }
  }

  // ---- The actor keeps the table's side of the bargain ----

  /** The table events an action gives rise to. */
  ghost function Events(a: Actor, x: Action): seq<Event> {
    match x
    case FrameIn(frame, answers, now) => if frame.chains.None? then [Arrived(frame, answers, now)] else []
    case BytesWritten(written, now) =>
      if written > 0 && a.writing.Some? && a.writing.value.queued.Some? then
        var q := a.writing.value.queued.value;
        var d := q.dispatch;
        [Dispatched(q.id, Request(q.mid, d.command, d.bounds, d.hook, d.reply), now)]
      else []
    case TimerFired(now) =>
      if a.waitingSince.Some? && SilentFor(a, now) >= a.timeouts.overall then [] else [Ticked(now)]
    case _ => []
  }

  ghost function TableEvents(limit: nat, timeouts: Timeouts, xs: seq<Action>): seq<Event>
    requires Possible(limit, timeouts, xs)
  {
    if xs == [] then []
    else TableEvents(limit, timeouts, xs[..|xs| - 1]) + Events(Reached(limit, timeouts, xs[..|xs| - 1]), xs[|xs| - 1])
  }

  /** The table's own record of a run agrees with the actor. */
  ghost predicate Agrees(s: System, a: Actor) {
    && s.table == a.table
    && (forall id :: id in s.requests ==> id + Pending(a) < a.serial)
    && (a.down.None? ==> s.failure.None?)
  }

  lemma AgreesOnQuietWrite(s: System, a: Actor, x: Action)
    requires Ready(a) && Enabled(a, x) && x.BytesWritten? && Agrees(s, a) && Events(a, x) == []
    ensures Agrees(s, Act(a, x))
  {
  }

  lemma DispatchIsPossible(s: System, a: Actor, x: Action)
    requires Ready(a) && Enabled(a, x) && x.BytesWritten? && Agrees(s, a) && Events(a, x) != []
    ensures Events(a, x)[0].Dispatched? && Can(s, Events(a, x)[0])
  {
  }

  lemma AgreesOnDispatch(s: System, a: Actor, x: Action)
    requires Ready(a) && Enabled(a, x) && x.BytesWritten? && Agrees(s, a) && Events(a, x) != []
    requires Can(s, Events(a, x)[0])
    ensures Agrees(After(s, Events(a, x)[0], a.timeouts), Act(a, x))
  {
  }

  lemma AgreesOnWrite(s: System, a: Actor, x: Action)
    requires Ready(a) && Enabled(a, x) && x.BytesWritten? && Agrees(s, a)
    ensures Events(a, x) == [] ==> Agrees(s, Act(a, x))
    ensures Events(a, x) != [] ==>
      Can(s, Events(a, x)[0]) && Agrees(After(s, Events(a, x)[0], a.timeouts), Act(a, x))
  {
    if Events(a, x) == [] {
      AgreesOnQuietWrite(s, a, x);
    } else {
      DispatchIsPossible(s, a, x);
      AgreesOnDispatch(s, a, x);
    }
  }

  /** What routing a message does to the parts of the actor that agree with the table. */
  lemma RouteKeeps(a: Actor, frame: Frame, now: nat)
    requires Indexed(a.table) && frame.chains.None?
    ensures var m, b := Accept(a.table, frame, a.timeouts, now), Route(a, frame, now);
      && b.table == m.table && b.serial == a.serial && b.writing == a.writing
      && (b.down.None? ==> a.down.None? && m.failure.None?)
  {
  }

  lemma AgreesOnFrame(s: System, a: Actor, x: Action)
    requires Ready(a) && Enabled(a, x) && x.FrameIn? && Agrees(s, a)
    ensures Events(a, x) == [] ==> Agrees(s, Act(a, x))
    ensures Events(a, x) != [] ==> Agrees(After(s, Events(a, x)[0], a.timeouts), Act(a, x))
  {
    if x.frame.chains.None? {
      RouteKeeps(a.(offer := None), x.frame, x.now);
    }
  }

  lemma AgreesOnTick(s: System, a: Actor, x: Action)
    requires Ready(a) && Enabled(a, x) && x.TimerFired? && Agrees(s, a)
    ensures Events(a, x) == [] ==> Agrees(s, Act(a, x))
    ensures Events(a, x) != [] ==> Agrees(After(s, Events(a, x)[0], a.timeouts), Act(a, x))
  {
  }

  lemma BeginAgrees(s: System, a: Actor, d: Dispatch, how: Framing, mid: Option<nat>)
    requires a.down.None? && Pending(a) == 0 && Agrees(s, a)
    ensures Agrees(s, Begin(a, d, how, mid))
  {
  }

  lemma AgreesOnTake(s: System, a: Actor, x: Action)
    requires Ready(a) && Enabled(a, x) && Agrees(s, a) && (x.TakeClose? || x.TakeRequest?)
    ensures Events(a, x) == [] && Agrees(s, Act(a, x))
  {
    if x.TakeClose? {
      BeginAgrees(s, WithoutClose(a), a.closes[0], x.how, x.mid);
    } else {
      BeginAgrees(s, WithoutRequest(a), a.requests[0], x.how, x.mid);
    }
  }

  lemma AgreesElsewhere(s: System, a: Actor, x: Action)
    requires Ready(a) && Enabled(a, x) && Agrees(s, a)
    requires !x.BytesWritten? && !x.FrameIn? && !x.TimerFired? && !x.TakeClose? && !x.TakeRequest?
    ensures Events(a, x) == [] && Agrees(s, Act(a, x))
  {
  }

  /** **Every run of the actor is a run of the table**, whatever the server sends:
      the identities and ids it dispatches under are free when their requests reach
      the wire, so what is proved of the table's runs holds of the actor's. */
  lemma {:induction false} ActorRunsAreTableRuns(limit: nat, timeouts: Timeouts, xs: seq<Action>)
    requires Possible(limit, timeouts, xs)
    ensures TR.Possible(TableEvents(limit, timeouts, xs), timeouts)
    ensures Agrees(Run(TableEvents(limit, timeouts, xs), timeouts), Reached(limit, timeouts, xs))
  {
    if |xs| > 0 {
      var n := |xs| - 1;
      var a, before := Reached(limit, timeouts, xs[..n]), TableEvents(limit, timeouts, xs[..n]);
      var events := Events(a, xs[n]);
      var es := before + events;
      ActorRunsAreTableRuns(limit, timeouts, xs[..n]);
      ActAgrees(Run(before, timeouts), a, xs[n]);
      if events != [] {
        assert es[..|before|] == before && es[|before|] == events[0];
        assert es == before + [events[0]];
      } else {
        assert es == before;
      }
    }
  }

  /** **No crosstalk reaches the actor**: where the server, in the labels of its
      messages, keeps its side, each message that is routed finds the row of the
      very request it answers. */
  lemma ActorHasNoCrosstalk(limit: nat, timeouts: Timeouts, xs: seq<Action>, frame: Frame, answers: nat, now: nat)
    requires Possible(limit, timeouts, xs) && Enabled(Reached(limit, timeouts, xs), FrameIn(frame, answers, now))
    requires frame.chains.None?
    requires ServerKeeps(TableEvents(limit, timeouts, xs) + [Arrived(frame, answers, now)], timeouts)
    ensures var t := Reached(limit, timeouts, xs).table;
      && frame.mid in t.entries && t.entries[frame.mid].request == answers
      && (var failure := Accept(t, frame, timeouts, now).failure;
          failure.Some? && failure.value.Unroutable? ==> frame.command != t.entries[frame.mid].command)
  {
    var before, e := TableEvents(limit, timeouts, xs), Arrived(frame, answers, now);
    var es := before + [e];
    ActorRunsAreTableRuns(limit, timeouts, xs);
    assert es[..|before|] == before;
    assert TR.Possible(es, timeouts);
    LegalExactly(es, timeouts);
    NoCrosstalk(es, timeouts, |before|);
    UnroutableExactly(Reached(limit, timeouts, xs).table, frame, timeouts, now);
  }

  lemma ActAgrees(s: System, a: Actor, x: Action)
    requires Ready(a) && Enabled(a, x) && Agrees(s, a)
    ensures |Events(a, x)| <= 1
    ensures Events(a, x) == [] ==> Agrees(s, Act(a, x))
    ensures Events(a, x) != [] ==>
      Can(s, Events(a, x)[0]) && Agrees(After(s, Events(a, x)[0], a.timeouts), Act(a, x))
  {
    if x.BytesWritten? {
      AgreesOnWrite(s, a, x);
    } else if x.FrameIn? {
      AgreesOnFrame(s, a, x);
    } else if x.TimerFired? {
      AgreesOnTick(s, a, x);
    } else if x.TakeClose? || x.TakeRequest? {
      AgreesOnTake(s, a, x);
    } else {
      AgreesElsewhere(s, a, x);
    }
  }
}
