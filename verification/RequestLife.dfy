/** The life of one request, told from the events of a run alone: when it was
    dispatched, what came on its id, and when the timers ran. The table, which
    holds every request at once behind an index and a counter, is proved to hold
    each where its own life has brought it. */
module RequestLife {
  import opened Wrappers
  import opened Table
  import opened TableIndex
  import opened TableRuns
  import E = TableExpiry
  import R = Reassembly
  import P = ReassemblyProofs
  import TO = TableOutcomes

  /** Where a request stands. It is waited for, since it was dispatched and since
      something was last heard of it; it timed out, and its id is held until a time;
      its id is spent; or its reply was whole, and the id is free. */
  datatype Phase = Live(heardAt: nat, since: nat) | Late(until: nat) | Spent | Over

  /** `fragments` are those of its reply so far, `outcome` what it ended with. */
  datatype Life = Life(phase: Phase, fragments: seq<R.Fragment>, outcome: Option<Result<Reply, Error>>)

  /** It ends so, unless it has ended. */
  function Ends(life: Life, phase: Phase, outcome: Result<Reply, Error>): Life {
    life.(phase := phase, outcome := if life.outcome.None? then Some(outcome) else life.outcome)
  }

  /** The waiting starts over, where it is waited for still. */
  function Heard(life: Life, now: nat): Life {
    if life.phase.Live? then life.(phase := Live(now, life.phase.since)) else life
  }

  /** What a reassembly has of a block. */
  function Block(t: R.Track): seq<byte> {
    if t.bytes.Some? then t.bytes.value else []
  }

  /** A fragment of the reply: the caps on a reassembly stand while it is waited for. */
  function HearsFragment(life: Life, bounds: (nat, nat), frame: Frame, f: R.Fragment, now: nat): Life {
    var asked := R.New(bounds.0, bounds.1);
    var r := R.Run(if life.phase.Live? then asked else R.Release(asked), life.fragments + [f]);
    match r
    case Err(error) => Ends(life, Spent, Err(ReassemblyFailed(error)))
    case Ok(a) =>
      if a.parameters.Complete() && a.data.Complete() then
        Ends(life, Over, Ok(Reply(frame, Some(TransactionBody(a.setup, Block(a.parameters), Block(a.data))))))
      else Heard(life, now).(fragments := life.fragments + [f])
  }

  /** All that a message carries of a transaction, if it carries any. */
  function Carried(frame: Frame): Option<TransactionBody> {
    match frame.body
    case Decoded(f) => Some(TransactionBody(f.setup, f.parameters.payload, f.data.payload))
    case Undecodable => None
  }

  /** A message on its id and of its command. */
  function Hears(life: Life, q: Request, frame: Frame, now: nat): Life {
    if life.phase.Spent? || life.phase.Over? then life
    else if frame.status == PendingStatus then Heard(life, now)
    else if q.bounds.None? then Ends(life, Over, Ok(Reply(frame, None)))
    else if frame.status != Success then
      Ends(life, Over, Ok(Reply(frame, Carried(frame))))
    else
      match frame.body
      case Undecodable => Ends(life, Spent, Err(Wire))
      case Decoded(f) => HearsFragment(life, q.bounds.value, frame, f, now)
  }

  /** The timers run: a request times out once it has been silent, or waited for,
      too long; its id is spent eight of the longer times after that. */
  function Ages(life: Life, timeouts: Timeouts, now: nat): Life {
    match life.phase
    case Live(heardAt, since) =>
      if now < heardAt + timeouts.perRequest && now < since + timeouts.overall then life
      else Ends(life, if timeouts.overall == 0 then Spent else Late(now + 8 * timeouts.overall), Err(Timeout))
    case Late(until) => if now < until then life else life.(phase := Spent)
    case _ => life
  }

  /** What an event does to the life of request `id`, which is `q`. */
  function NextLife(life: Option<Life>, id: nat, q: Request, e: Event, timeouts: Timeouts): Option<Life> {
    match e
    case Dispatched(other, _, now) => if other == id then Some(Life(Live(now, now), [], None)) else life
    case Arrived(frame, _, now) =>
      if life.Some? && frame.mid == q.mid && frame.command == q.command then Some(Hears(life.value, q, frame, now))
      else life
    case Ticked(now) => if life.Some? then Some(Ages(life.value, timeouts, now)) else None
  }

  function LifeOf(es: seq<Event>, timeouts: Timeouts, id: nat, q: Request): Option<Life> {
    if |es| == 0 then None
    else NextLife(LifeOf(es[..|es| - 1], timeouts, id, q), id, q, es[|es| - 1], timeouts)
  }

  // ---- The table holds each request where its life has brought it ----

  ghost predicate LiveRow(e: Entry, q: Request, life: Life, timeouts: Timeouts)
    requires life.phase.Live?
  {
    && e.command == q.command && e.hook == q.hook
    && e.state == OnWire(q.reply, life.phase.heardAt + timeouts.perRequest, life.phase.since + timeouts.overall)
    && (e.assembly.Some? <==> q.bounds.Some?)
    && (q.bounds.Some? ==>
          R.Run(R.New(q.bounds.value.0, q.bounds.value.1), life.fragments) == Ok(e.assembly.value))
    && life.outcome.None?
  }

  ghost predicate LateRow(e: Entry, q: Request, life: Life)
    requires life.phase.Late?
  {
    && e.command == q.command && e.state == Lapsed(life.phase.until)
    && (e.assembly.Some? <==> q.bounds.Some?)
    && (q.bounds.Some? ==>
          var r := R.Run(R.Release(R.New(q.bounds.value.0, q.bounds.value.1)), life.fragments);
          r.Ok? && e.assembly.value.Follows(r.value))
    && life.outcome == Some(Err(Timeout))
  }

  ghost predicate RowMatches(t: Table, id: nat, q: Request, life: Life, timeouts: Timeouts) {
    match life.phase
    case Live(_, _) => Held(t, id, q) && LiveRow(t.entries[q.mid], q, life, timeouts)
    case Late(_) => Held(t, id, q) && LateRow(t.entries[q.mid], q, life)
    case Spent => Held(t, id, q) && t.entries[q.mid].state.Retired? && life.outcome.Some?
    case Over => !Held(t, id, q) && life.outcome.Some?
  }

  /** The log has no other end of the request. */
  ghost predicate LogMatches(log: seq<Ended>, id: nat, life: Life) {
    forall i :: 0 <= i < |log| && log[i].request == id ==> life.outcome == Some(log[i].outcome)
  }

  ghost predicate Matches(t: Table, id: nat, q: Request, life: Life, timeouts: Timeouts) {
    RowMatches(t, id, q, life, timeouts) && LogMatches(t.log, id, life)
  }

  /** A message that is no fragment, at the row of a request waited for. */
  lemma LiveHearsPlain(e: Entry, q: Request, life: Life, frame: Frame, now: nat, timeouts: Timeouts)
    requires e.Valid() && life.phase.Live? && LiveRow(e, q, life, timeouts)
    requires !(q.bounds.Some? && frame.status == Success && frame.body.Decoded?)
    ensures LiveStep(e, q, Hears(life, q, frame, now), AcceptRow(e, frame, now, timeouts.perRequest), timeouts)
  {
  }

  /** What a message leaves of the row of a request waited for, and what it ends. */
  ghost predicate LiveStep(e: Entry, q: Request, life: Life, r: RowStep, timeouts: Timeouts) {
    match r.step
    case Continuing => life.phase.Live? && LiveRow(r.entry, q, life, timeouts) && r.ended == []
    case Completed => life.phase.Over? && EndsAs(e, q, life, r.ended)
    case Corrupted => life.phase.Spent? && EndsAs(e, q, life, r.ended)
  }

  ghost predicate EndsAs(e: Entry, q: Request, life: Life, ended: seq<Ended>) {
    life.outcome.Some? && ended == [Ended(e.request, life.outcome.value, q.hook, q.reply)]
  }

  /** What ending a row adds to the log: one end where it was waited for, and else none. */
  function EndOf(e: Entry, outcome: Result<Reply, Error>): seq<Ended> {
    if e.state.OnWire? then [Ended(e.request, outcome, e.hook, e.state.reply)] else []
  }

  /** What a fragment does to the row of a request waited for. */
  lemma FragmentStep(e: Entry, frame: Frame, f: R.Fragment)
    requires e.Valid() && e.assembly.Some? && e.state.OnWire?
    ensures var r, taken := AcceptFragment(e, frame, f), R.Then(Ok(e.assembly.value), f);
      if taken.Err? then r.step.Corrupted? && r.ended == EndOf(e, Err(ReassemblyFailed(taken.error)))
      else if taken.value.Progress().Complete? then
        r.step.Completed? && r.ended == EndOf(e, Ok(Reply(frame, Some(Finish(taken.value)))))
      else r == RowStep(e.(assembly := Some(taken.value)), Continuing, [])
  {
    R.AcceptTakes(e.assembly.value, f);
  }

  lemma LiveTakesFragment(e: Entry, q: Request, life: Life, frame: Frame, now: nat, timeouts: Timeouts)
    requires e.Valid() && life.phase.Live? && LiveRow(e, q, life, timeouts)
    requires q.bounds.Some? && frame.status == Success && frame.body.Decoded?
    requires R.Run(R.New(q.bounds.value.0, q.bounds.value.1), life.fragments + [frame.body.fragment])
      == R.Then(Ok(e.assembly.value), frame.body.fragment)
    ensures LiveStep(e, q, HearsFragment(life, q.bounds.value, frame, frame.body.fragment, now),
                     AcceptFragment(Touch(e, now, timeouts.perRequest), frame, frame.body.fragment), timeouts)
  {
    FragmentStep(Touch(e, now, timeouts.perRequest), frame, frame.body.fragment);
  }

  lemma LiveHearsFragment(e: Entry, q: Request, life: Life, frame: Frame, now: nat, timeouts: Timeouts)
    requires e.Valid() && life.phase.Live? && LiveRow(e, q, life, timeouts)
    requires q.bounds.Some? && frame.status == Success && frame.body.Decoded?
    ensures LiveStep(e, q, Hears(life, q, frame, now), AcceptRow(e, frame, now, timeouts.perRequest), timeouts)
  {
    var f := frame.body.fragment;
    RowReassembles(e, frame, now, timeouts.perRequest);
    R.RunSnoc(R.New(q.bounds.value.0, q.bounds.value.1), life.fragments, f);
    LiveTakesFragment(e, q, life, frame, now, timeouts);
  }

  lemma RowReassembles(e: Entry, frame: Frame, now: nat, perRequest: nat)
    requires e.Valid() && e.assembly.Some? && frame.status == Success && frame.body.Decoded?
    ensures AcceptRow(e, frame, now, perRequest) ==
      AcceptFragment(Touch(e, now, perRequest), frame, frame.body.fragment)
  {
  }

  /** What a message leaves of the row of a request that timed out; it ends nothing. */
  ghost predicate LateStep(q: Request, before: Life, life: Life, r: RowStep) {
    && r.ended == [] && life.outcome == before.outcome
    && match r.step
       case Continuing => life.phase.Late? && LateRow(r.entry, q, life)
       case Completed => life.phase.Over?
       case Corrupted => life.phase.Spent?
  }

  lemma LateHearsPlain(e: Entry, q: Request, life: Life, frame: Frame, now: nat, timeouts: Timeouts)
    requires e.Valid() && life.phase.Late? && LateRow(e, q, life)
    requires !(q.bounds.Some? && frame.status == Success && frame.body.Decoded?)
    ensures LateStep(q, life, Hears(life, q, frame, now), AcceptRow(e, frame, now, timeouts.perRequest))
  {
  }

  lemma LateHearsFragment(e: Entry, q: Request, life: Life, frame: Frame, now: nat, timeouts: Timeouts)
    requires e.Valid() && life.phase.Late? && LateRow(e, q, life)
    requires q.bounds.Some? && frame.status == Success && frame.body.Decoded?
    ensures LateStep(q, life, Hears(life, q, frame, now), AcceptRow(e, frame, now, timeouts.perRequest))
  {
    var f, released := frame.body.fragment, R.Release(R.New(q.bounds.value.0, q.bounds.value.1));
    var a, b := e.assembly.value, R.Run(released, life.fragments).value;
    R.RunSnoc(released, life.fragments, f);
    P.AcceptWithoutBuffer(a, b, f);
    R.AcceptTakes(a, f);
    R.AcceptTakes(b, f);
  }

  lemma RowHears(e: Entry, q: Request, life: Life, frame: Frame, now: nat, timeouts: Timeouts)
    requires e.Valid()
    requires match life.phase
      case Live(_, _) => LiveRow(e, q, life, timeouts)
      case Late(_) => LateRow(e, q, life)
      case _ => false
    ensures var r, life' := AcceptRow(e, frame, now, timeouts.perRequest), Hears(life, q, frame, now);
      if life.phase.Live? then LiveStep(e, q, life', r, timeouts) else LateStep(q, life, life', r)
  {
    var fragment := q.bounds.Some? && frame.status == Success && frame.body.Decoded?;
    if life.phase.Live? {
      if fragment {
        LiveHearsFragment(e, q, life, frame, now, timeouts);
      } else {
        LiveHearsPlain(e, q, life, frame, now, timeouts);
      }
    } else if fragment {
      LateHearsFragment(e, q, life, frame, now, timeouts);
    } else {
      LateHearsPlain(e, q, life, frame, now, timeouts);
    }
  }

  lemma OthersMatch(t: Table, t': Table, m: nat, other: nat, id: nat, q: Request, life: Life, timeouts: Timeouts)
    requires OnlyTouches(t, t', m, other) && other != id && Matches(t, id, q, life, timeouts)
    ensures Matches(t', id, q, life, timeouts)
  {
    OthersHeld(t, t', m, other, id, q);
    forall i | 0 <= i < |t'.log| && t'.log[i].request == id
      ensures life.outcome == Some(t'.log[i].outcome)
    {
      assert i < |t.log| && t'.log[i] == t.log[i];
    }
  }

  lemma LogMatchesMore(log: seq<Ended>, more: seq<Ended>, id: nat, life: Life, life': Life)
    requires LogMatches(log, id, life) && (life.outcome.Some? ==> life'.outcome == life.outcome)
    requires forall i :: 0 <= i < |more| ==> life'.outcome == Some(more[i].outcome)
    ensures LogMatches(log + more, id, life')
  {
  }

  /** The message comes to the very row. */
  lemma OwnArrival(t: Table, id: nat, q: Request, life: Life, frame: Frame, timeouts: Timeouts, now: nat)
    requires Indexed(t) && Matches(t, id, q, life, timeouts) && (life.phase.Live? || life.phase.Late?)
    requires frame.mid == q.mid && frame.command == q.command
    ensures Matches(Accept(t, frame, timeouts, now).table, id, q, Hears(life, q, frame, now), timeouts)
  {
    var e := t.entries[q.mid];
    var r, life' := AcceptRow(e, frame, now, timeouts.perRequest), Hears(life, q, frame, now);
    RowHears(e, q, life, frame, now, timeouts);
    AcceptRowKeepsValid(e, frame, now, timeouts.perRequest);
    AcceptSettles(t, frame, timeouts, now);
    LogMatchesMore(t.log, r.ended, id, life, life');
    SettleMatches(t, id, q, e, r, life', timeouts);
  }

  lemma SettleMatches(t: Table, id: nat, q: Request, e: Entry, r: RowStep, life: Life, timeouts: Timeouts)
    requires Held(t, id, q) && r.entry.request == id && LogMatches(t.log + r.ended, id, life)
    requires match r.step
      case Continuing =>
        if life.phase.Live? then LiveRow(r.entry, q, life, timeouts)
        else life.phase.Late? && LateRow(r.entry, q, life)
      case Completed => life.phase.Over? && life.outcome.Some?
      case Corrupted => life.phase.Spent? && life.outcome.Some?
    ensures Matches(Settle(t, q.mid, e, r).table, id, q, life, timeouts)
  {
  }

  lemma ArrivalMatches(t: Table, requests: map<nat, Request>, id: nat, life: Life, frame: Frame,
                       timeouts: Timeouts, now: nat)
    requires Indexed(t) && RowsKnown(t, requests) && id in requests && Matches(t, id, requests[id], life, timeouts)
    ensures var q := requests[id];
      Matches(Accept(t, frame, timeouts, now).table, id, q,
              if frame.mid == q.mid && frame.command == q.command then Hears(life, q, frame, now) else life, timeouts)
  {
    var q := requests[id];
    if frame.mid == q.mid && frame.command == q.command && (life.phase.Live? || life.phase.Late?) {
      OwnArrival(t, id, q, life, frame, timeouts, now);
    } else if Routes(t, frame) {
      var other := t.entries[frame.mid].request;
      ArrivalTouches(t, other, requests[other], frame, timeouts, now);
      OthersMatch(t, Accept(t, frame, timeouts, now).table, frame.mid, other, id, q, life, timeouts);
    } else {
      AcceptElsewhere(t, frame, timeouts, now);
    }
  }

  lemma DispatchMatches(t: Table, id: nat, q: Request, timeouts: Timeouts, now: nat)
    requires q.mid !in t.entries && forall i :: 0 <= i < |t.log| ==> t.log[i].request != id
    ensures Matches(Dispatch(t, q.mid, id, q.command, q.reply, Fresh(q), q.hook, timeouts, now), id, q,
                    Life(Live(now, now), [], None), timeouts)
  {
  }

  // ---- The timers run ----

  /** What the timers add to the log are timeouts. */
  ghost predicate AddsTimeouts(log: seq<Ended>, log': seq<Ended>) {
    && |log| <= |log'| && log'[..|log|] == log
    && forall i :: |log| <= i < |log'| ==> log'[i].outcome == Err(Timeout)
  }

  lemma {:induction false} ExpireAddsTimeouts(t: Table, timeouts: Timeouts, now: nat)
    requires Indexed(t)
    ensures AddsTimeouts(t.log, E.Expire(t, timeouts, now).table.log)
    decreases E.Remaining(t)
  {
    E.RemainingIsNat(t);
    if t.expiry != {} && E.First(t.expiry).0 <= now {
      E.ExpireTurns(t, timeouts, now);
      ExpireOneAddsTimeouts(t, E.First(t.expiry), timeouts, now);
      var m := ExpireOne(t, E.First(t.expiry), timeouts, now);
      if m.failure.None? {
        ExpireAddsTimeouts(m.table, timeouts, now);
        AddsMoreTimeouts(t.log, m.table.log, E.Expire(m.table, timeouts, now).table.log);
      }
    }
  }

  lemma ExpireOneAddsTimeouts(t: Table, first: (nat, nat), timeouts: Timeouts, now: nat)
    requires first.1 in t.entries && !t.entries[first.1].state.Retired?
    ensures AddsTimeouts(t.log, ExpireOne(t, first, timeouts, now).table.log)
  {
  }

  lemma AddsMoreTimeouts(a: seq<Ended>, b: seq<Ended>, c: seq<Ended>)
    requires AddsTimeouts(a, b) && AddsTimeouts(b, c)
    ensures AddsTimeouts(a, c)
  {
    assert c[..|a|] == c[..|b|][..|a|];
    forall i | |a| <= i < |b|
      ensures c[i] == b[i]
    {
      assert c[..|b|][i] == b[i];
    }
  }

  /** A row that lapses. */
  lemma LiveAges(e: Entry, q: Request, life: Life, timeouts: Timeouts, now: nat)
    requires e.Valid() && life.phase.Live? && LiveRow(e, q, life, timeouts)
    ensures var e', life' := E.ExpiredRow(e, timeouts, now), Ages(life, timeouts, now);
      && e'.request == e.request
      && match life'.phase
         case Live(_, _) => life' == life && e' == e
         case Late(_) => LateRow(e', q, life')
         case Spent => e'.state.Retired? && life'.outcome == Some(Err(Timeout))
         case Over => false
  {
    if q.bounds.Some? {
      var asked := R.New(q.bounds.value.0, q.bounds.value.1);
      P.RunWithoutBuffer(asked, R.Release(asked), life.fragments);
    }
  }

  lemma LateAges(e: Entry, q: Request, life: Life, timeouts: Timeouts, now: nat)
    requires e.Valid() && life.phase.Late? && LateRow(e, q, life)
    ensures var e', life' := E.ExpiredRow(e, timeouts, now), Ages(life, timeouts, now);
      && e'.request == e.request && life'.outcome == life.outcome
      && match life'.phase
         case Late(_) => life' == life && e' == e
         case Spent => e'.state.Retired?
         case _ => false
  {
  }

  lemma RowAges(t: Table, id: nat, q: Request, life: Life, timeouts: Timeouts, now: nat)
    requires Indexed(t) && RowMatches(t, id, q, life, timeouts)
    ensures var t' := t.(entries := E.ExpiredRows(t.entries, timeouts, now));
      RowMatches(t', id, q, Ages(life, timeouts, now), timeouts)
  {
    if life.phase.Live? {
      LiveAges(t.entries[q.mid], q, life, timeouts, now);
    } else if life.phase.Late? {
      LateAges(t.entries[q.mid], q, life, timeouts, now);
    }
  }

  /** A request that does not wait has no end but the one it had. */
  lemma NoEndAdded(log: seq<Ended>, log': seq<Ended>, id: nat)
    requires |log| <= |log'| && log'[..|log|] == log && Times(log, id) == Times(log', id)
    ensures forall i :: |log| <= i < |log'| ==> log'[i].request != id
  {
    var more := log'[|log|..];
    assert log' == log + more;
    TimesConcat(log, more, id);
    NeverTimes(more, id);
    forall i | |log| <= i < |log'|
      ensures log'[i].request != id
    {
      assert log'[i] == more[i - |log|];
    }
  }

  lemma LogAges(t: Table, t': Table, id: nat, q: Request, life: Life, life': Life, timeouts: Timeouts)
    requires Matches(t, id, q, life, timeouts) && RowMatches(t', id, q, life', timeouts)
    requires EndsOnce(t, id, q) && EndsOnce(t', id, q) && AddsTimeouts(t.log, t'.log)
    requires life.outcome.Some? ==> life'.outcome == life.outcome
    requires life.outcome.None? ==> life'.outcome in {None, Some(Err(Timeout))}
    ensures LogMatches(t'.log, id, life')
  {
    if Times(t.log, id) == Times(t'.log, id) {
      NoEndAdded(t.log, t'.log, id);
    }
    forall i | 0 <= i < |t'.log| && t'.log[i].request == id
      ensures life'.outcome == Some(t'.log[i].outcome)
    {
      assert i < |t.log| ==> t'.log[i] == t.log[i];
    }
  }

  lemma TickMatches(t: Table, requests: map<nat, Request>, id: nat, life: Life, timeouts: Timeouts, now: nat)
    requires Indexed(t) && Accounted(t, requests) && id in requests && Matches(t, id, requests[id], life, timeouts)
    requires E.Expire(t, timeouts, now).failure.None?
    ensures Matches(E.Expire(t, timeouts, now).table, id, requests[id], Ages(life, timeouts, now), timeouts)
  {
    var q, t' := requests[id], E.Expire(t, timeouts, now).table;
    E.ExpireIsPointwise(t, timeouts, now);
    ExpireKeepsAccounted(t, timeouts, now, requests);
    ExpireAddsTimeouts(t, timeouts, now);
    RowAges(t, id, q, life, timeouts, now);
    assert RowMatches(t', id, q, Ages(life, timeouts, now), timeouts);
    assert EndsOnce(t, id, q) && EndsOnce(t', id, q);
    LogAges(t, t', id, q, life, Ages(life, timeouts, now), timeouts);
  }

  // ---- Over whole runs ----

  /** The timers did not fail halfway. */
  ghost predicate Ran(es: seq<Event>, timeouts: Timeouts)
    requires Possible(es, timeouts)
  {
    Run(es, timeouts).failure.None? || !es[|es| - 1].Ticked?
  }

  lemma StepMatches(s: System, e: Event, timeouts: Timeouts, id: nat, life: Option<Life>)
    requires Indexed(s.table) && Can(s, e) && Accounted(s.table, s.requests)
    requires e.Ticked? ==> After(s, e, timeouts).failure.None?
    requires id in s.requests ==> life.Some? && Matches(s.table, id, s.requests[id], life.value, timeouts)
    requires id in After(s, e, timeouts).requests
    ensures var q := After(s, e, timeouts).requests[id];
      var next := NextLife(life, id, q, e, timeouts);
      next.Some? && Matches(After(s, e, timeouts).table, id, q, next.value, timeouts)
  {
    match e
    case Dispatched(other, q, now) =>
      if other == id {
        DispatchMatches(s.table, id, q, timeouts, now);
      } else {
        var t' := After(s, e, timeouts).table;
        DispatchTouches(s.table, other, q, timeouts, now);
        OthersMatch(s.table, t', q.mid, other, id, s.requests[id], life.value, timeouts);
      }
    case Arrived(frame, _, now) =>
      ArrivalMatches(s.table, s.requests, id, life.value, frame, timeouts, now);
    case Ticked(now) => TickMatches(s.table, s.requests, id, life.value, timeouts, now);
  }

  /** **The table is nothing but its requests' lives**: over every run, against any
      server, the row of a request, or its absence, and the end the log has of it are
      those its own life comes to. */
  lemma {:induction false} LifeIsKept(es: seq<Event>, timeouts: Timeouts, id: nat)
    requires Possible(es, timeouts) && Ran(es, timeouts) && id in Run(es, timeouts).requests
    ensures var s := Run(es, timeouts);
      var life := LifeOf(es, timeouts, id, s.requests[id]);
      life.Some? && Matches(s.table, id, s.requests[id], life.value, timeouts)
  {
    var n := |es| - 1;
    var s := Run(es[..n], timeouts);
    RunIsAccounted(es[..n], timeouts);
    if id in s.requests {
      LifeIsKept(es[..n], timeouts, id);
    }
    StepMatches(s, es[n], timeouts, id,
                if id in s.requests then LifeOf(es[..n], timeouts, id, s.requests[id]) else None);
    if id !in s.requests {
      NotBorn(es[..n], timeouts, id, Run(es, timeouts).requests[id]);
    }
  }

  /** Who has not been dispatched has no life. */
  lemma {:induction false} NotBorn(es: seq<Event>, timeouts: Timeouts, id: nat, q: Request)
    requires Possible(es, timeouts) && id !in Run(es, timeouts).requests
    ensures LifeOf(es, timeouts, id, q).None?
  {
    if |es| > 0 {
      NotBorn(es[..|es| - 1], timeouts, id, q);
    }
  }

  // ---- What a life says of deadlines ----

  /** Request `id` was dispatched at `now`, by the `d`th event. */
  predicate BornAt(es: seq<Event>, d: int, id: nat, now: nat) {
    0 <= d < |es| && es[d].Dispatched? && es[d].id == id && es[d].now == now
  }

  predicate IsFor(e: Event, q: Request) {
    e.Arrived? && e.frame.mid == q.mid && e.frame.command == q.command
  }

  /** The last that was heard of it was at `now`: the `k`th event is its dispatch or a
      message for it, and no message for it has come since. */
  ghost predicate LastHeard(es: seq<Event>, k: int, id: nat, q: Request, now: nat) {
    && (BornAt(es, k, id, now) || (0 <= k < |es| && IsFor(es[k], q) && es[k].now == now))
    && forall j :: k < j < |es| ==> !IsFor(es[j], q)
  }

  /** It was dispatched at `since`, and last heard of, no earlier in the run, at
      `heardAt`. */
  ghost predicate WaitsSince(es: seq<Event>, id: nat, q: Request, since: nat, heardAt: nat) {
    exists d, k :: d <= k && BornAt(es, d, id, since) && LastHeard(es, k, id, q, heardAt)
  }

  lemma {:induction false} LiveSince(es: seq<Event>, timeouts: Timeouts, id: nat, q: Request)
    requires LifeOf(es, timeouts, id, q).Some? && LifeOf(es, timeouts, id, q).value.phase.Live?
    ensures var phase := LifeOf(es, timeouts, id, q).value.phase; WaitsSince(es, id, q, phase.since, phase.heardAt)
  {
    var n := |es| - 1;
    var e, phase := es[n], LifeOf(es, timeouts, id, q).value.phase;
    if e.Dispatched? && e.id == id {
      assert BornAt(es, n, id, phase.since) && LastHeard(es, n, id, q, phase.heardAt);
    } else {
      LiveSince(es[..n], timeouts, id, q);
      var before := LifeOf(es[..n], timeouts, id, q).value.phase;
      var d, k :| d <= k && BornAt(es[..n], d, id, before.since) && LastHeard(es[..n], k, id, q, before.heardAt);
      assert BornAt(es, d, id, phase.since);
      assert LastHeard(es, if IsFor(e, q) then n else k, id, q, phase.heardAt);
    }
  }

  /** It timed out at the `j`th event, a tick, at which it had been silent for the one
      time or waited for for the other. */
  ghost predicate TimedOutAt(es: seq<Event>, timeouts: Timeouts, j: int, id: nat, q: Request, now: nat) {
    && 0 <= j < |es| && es[j] == Ticked(now)
    && exists since: nat, heardAt: nat :: WaitsSince(es[..j], id, q, since, heardAt)
         && (now >= heardAt + timeouts.perRequest || now >= since + timeouts.overall)
  }

  lemma {:induction false} LateSince(es: seq<Event>, timeouts: Timeouts, id: nat, q: Request)
    returns (j: nat, now: nat)
    requires LifeOf(es, timeouts, id, q).Some? && LifeOf(es, timeouts, id, q).value.phase.Late?
    ensures TimedOutAt(es, timeouts, j, id, q, now)
    ensures LifeOf(es, timeouts, id, q).value.phase.until == now + 8 * timeouts.overall
  {
    var n := |es| - 1;
    var before := LifeOf(es[..n], timeouts, id, q).value.phase;
    if before.Live? {
      LiveSince(es[..n], timeouts, id, q);
      j, now := n, es[n].now;
    } else {
      j, now := LateSince(es[..n], timeouts, id, q);
      assert es[..n][..j] == es[..j];
    }
  }

  /** **Deadlines are timely**: over every run, against any server, a request on the
      wire will have been silent too long once the shorter time has passed since it was
      dispatched or a message last came for it, and waited for too long once the longer
      one has passed since it was dispatched; one that lapsed did so at a tick at which
      one of the two had come, and holds its id for eight of the longer times more. */
  lemma DeadlinesAreTimely(es: seq<Event>, timeouts: Timeouts, id: nat)
    requires Possible(es, timeouts) && Ran(es, timeouts) && id in Run(es, timeouts).requests
    requires Held(Run(es, timeouts).table, id, Run(es, timeouts).requests[id])
    ensures var q := Run(es, timeouts).requests[id];
      match Run(es, timeouts).table.entries[q.mid].state
      case OnWire(_, silenceAt, overallAt) =>
        exists since: nat, heardAt: nat :: WaitsSince(es, id, q, since, heardAt)
          && silenceAt == heardAt + timeouts.perRequest && overallAt == since + timeouts.overall
      case Lapsed(giveUpAt) =>
        exists j: nat, now: nat :: TimedOutAt(es, timeouts, j, id, q, now) && giveUpAt == now + 8 * timeouts.overall
      case Retired => true
  {
    var q := Run(es, timeouts).requests[id];
    LifeIsKept(es, timeouts, id);
    var phase := LifeOf(es, timeouts, id, q).value.phase;
    if phase.Live? {
      LiveSince(es, timeouts, id, q);
    } else if phase.Late? {
      var j, now := LateSince(es, timeouts, id, q);
    }
  }

  // ---- What a life says of ends ----

  /** What a reply to `q` can be that is given as its outcome: never an interim one;
      with no transaction where none was asked for; and what a failed transaction
      carries, which is the last message whole. */
  predicate Answers(q: Request, reply: Reply) {
    && reply.frame.status != PendingStatus && reply.frame.mid == q.mid && reply.frame.command == q.command
    && (q.bounds.None? ==> reply.transaction.None?)
    && (q.bounds.Some? && reply.frame.status != Success ==> reply.transaction == Carried(reply.frame))
  }

  /** What it can fail with while the connection stands: it timed out, or a message for
      it was no transaction, or was no part of the one begun. */
  predicate Fails(q: Request, error: Error) {
    error == Timeout || (q.bounds.Some? && (error == Wire || error.ReassemblyFailed?))
  }

  lemma {:induction false} LifeEnds(es: seq<Event>, timeouts: Timeouts, id: nat, q: Request)
    requires LifeOf(es, timeouts, id, q).Some? && LifeOf(es, timeouts, id, q).value.outcome.Some?
    ensures match LifeOf(es, timeouts, id, q).value.outcome.value
      case Ok(reply) => Answers(q, reply) && exists j :: 0 <= j < |es| && es[j].Arrived? && es[j].frame == reply.frame
      case Err(error) => Fails(q, error)
  {
    var n := |es| - 1;
    var before := LifeOf(es[..n], timeouts, id, q);
    if before.Some? && before.value.outcome.Some? && !(es[n].Dispatched? && es[n].id == id) {
      LifeEnds(es[..n], timeouts, id, q);
      if before.value.outcome.value.Ok? {
        var j :| 0 <= j < n && es[..n][j].Arrived? && es[..n][j].frame == before.value.outcome.value.value.frame;
        assert es[j] == es[..n][j];
      }
    } else if es[n].Arrived? {
      assert es[n].frame == es[n].frame;
    }
  }

  /** **What a request ends with**: over every run, against any server, an end in the
      log that carries a reply carries a message that came for the request and is no
      interim one, and one that carries a failure, a failure such as there is. */
  lemma EndsAreAnswers(es: seq<Event>, timeouts: Timeouts, i: nat)
    requires Possible(es, timeouts) && Ran(es, timeouts) && i < |Run(es, timeouts).table.log|
    ensures var s := Run(es, timeouts);
      && s.table.log[i].request in s.requests
      && (var q := s.requests[s.table.log[i].request];
          match s.table.log[i].outcome
          case Ok(reply) =>
            Answers(q, reply) && exists j :: 0 <= j < |es| && es[j].Arrived? && es[j].frame == reply.frame
          case Err(error) => Fails(q, error))
  {
    var s := Run(es, timeouts);
    RunIsAccounted(es, timeouts);
    var id := s.table.log[i].request;
    LifeIsKept(es, timeouts, id);
    LifeEnds(es, timeouts, id, s.requests[id]);
  }

  /** A row given up with the connection ends as lost. */
  lemma {:induction false} LostRowsAreLost(entries: map<nat, Entry>, order: seq<nat>)
    requires forall m :: m in order ==> m in entries
    ensures forall i :: 0 <= i < |LostRows(entries, order)| ==> LostRows(entries, order)[i].outcome == Err(Lost)
  {
    if |order| > 0 {
      LostRowsAreLost(entries, order[..|order| - 1]);
    }
  }

  /** What is still waited for has come to no end. */
  lemma LostHadNoEnd(t: Table, requests: map<nat, Request>, order: seq<nat>, id: nat, life: Life, timeouts: Timeouts,
                     i: nat)
    requires Enumerates(order, t.entries.Keys) && RowsKnown(t, requests) && id in requests
    requires Matches(t, id, requests[id], life, timeouts)
    requires i < |LostRows(t.entries, order)| && LostRows(t.entries, order)[i].request == id
    ensures life.outcome.None? && LostRows(t.entries, order)[i].outcome == Err(Lost)
  {
    LostRowsAreLost(t.entries, order);
    TO.LostTimes(t, requests, order, id);
    assert Waiting(t, id, requests[id]);
  }

  lemma FinalEnd(t: Table, requests: map<nat, Request>, order: seq<nat>, id: nat, life: Life, timeouts: Timeouts,
                 i: nat)
    requires Enumerates(order, t.entries.Keys) && RowsKnown(t, requests) && id in requests
    requires Matches(t, id, requests[id], life, timeouts)
    requires i < |FailAll(t, order).log| && FailAll(t, order).log[i].request == id
    ensures FailAll(t, order).log[i].outcome == if life.outcome.Some? then life.outcome.value else Err(Lost)
  {
    var log, lost := FailAll(t, order).log, LostRows(t.entries, order);
    assert log == t.log + lost;
    if i < |t.log| {
      assert log[i] == t.log[i];
    } else {
      assert log[i] == lost[i - |t.log|];
      LostHadNoEnd(t, requests, order, id, life, timeouts, i - |t.log|);
    }
  }

  /** **What a request ended with, in the end**: once the connection is over, the one end
      of a request is what its life came to, and where its life came to none, that it was
      lost. */
  lemma EndsAsItLived(es: seq<Event>, timeouts: Timeouts, order: seq<nat>, i: nat)
    requires Possible(es, timeouts) && Ran(es, timeouts)
    requires Enumerates(order, Run(es, timeouts).table.entries.Keys)
    requires i < |FailAll(Run(es, timeouts).table, order).log|
    requires FailAll(Run(es, timeouts).table, order).log[i].request in Run(es, timeouts).requests
    ensures var s, end := Run(es, timeouts), FailAll(Run(es, timeouts).table, order).log[i];
      var life := LifeOf(es, timeouts, end.request, s.requests[end.request]);
      life.Some? && end.outcome == if life.value.outcome.Some? then life.value.outcome.value else Err(Lost)
  {
    var s := Run(es, timeouts);
    var id := FailAll(s.table, order).log[i].request;
    LifeIsKept(es, timeouts, id);
    RunIsAccounted(es, timeouts);
    FinalEnd(s.table, s.requests, order, id, LifeOf(es, timeouts, id, s.requests[id]).value, timeouts, i);
  }

  // ---- One message at a time ----

  /** A live row for the message. */
  predicate Finds(t: Table, frame: Frame) {
    frame.mid in t.entries && !t.entries[frame.mid].state.Retired? && t.entries[frame.mid].command == frame.command
  }

  /** The row goes, its id is free, and it ended so. */
  ghost predicate Frees(t: Table, t': Table, mid: nat, outcome: Result<Reply, Error>)
    requires mid in t.entries
  {
    && mid !in t'.entries && (forall m :: m != mid ==> SameRow(t, t', m))
    && t'.log == t.log + EndOf(t.entries[mid], outcome) && t'.retired == t.retired
  }

  lemma WholeCompletes(e: Entry, frame: Frame, now: nat, perRequest: nat)
    requires e.Valid() && frame.status != PendingStatus && (e.assembly.None? || frame.status != Success)
    ensures var r := AcceptRow(e, frame, now, perRequest);
      && r.step.Completed?
      && r.ended == EndOf(e, Ok(Reply(frame, if e.assembly.None? then None else Carried(frame))))
  {
  }

  lemma CompletedFrees(t: Table, mid: nat, r: RowStep, outcome: Result<Reply, Error>)
    requires mid in t.entries && r.step.Completed? && r.ended == EndOf(t.entries[mid], outcome)
    ensures var m := Settle(t, mid, t.entries[mid], r); m.failure.None? && Frees(t, m.table, mid, outcome)
  {
  }

  /** A message fails the connection exactly where it has no row to go to, or where it
      spends the last id that may be. */
  lemma ArrivalFailsExactly(t: Table, frame: Frame, timeouts: Timeouts, now: nat)
    requires Indexed(t)
    ensures var m, mid := Accept(t, frame, timeouts, now), frame.mid;
      && t.retired <= m.table.retired <= t.retired + 1
      && m.failure ==
           if mid !in t.entries || (!t.entries[mid].state.Retired? && t.entries[mid].command != frame.command) then
             Some(Unroutable(mid, frame.command))
           else if m.table.retired > t.retired && m.table.retired >= 1_024 then
             Some(RetirementBudget(m.table.retired))
           else None
  {
    if Routes(t, frame) {
      AcceptSettles(t, frame, timeouts, now);
    }
  }

  /** An interim message ends nothing, and moves only the time at which the request it
      is for will have been silent too long. */
  lemma InterimEndsNothing(t: Table, frame: Frame, timeouts: Timeouts, now: nat)
    requires Indexed(t) && Finds(t, frame) && frame.status == PendingStatus
    ensures var m, e := Accept(t, frame, timeouts, now), t.entries[frame.mid];
      && m.failure.None? && m.table.log == t.log && m.table.charging == t.charging && m.table.retired == t.retired
      && m.table.entries == t.entries[frame.mid :=
           if e.state.OnWire? then e.(state := OnWire(e.state.reply, now + timeouts.perRequest, e.state.overallAt))
           else e]
  {
  }

  /** Any other message is the whole reply of a request that asked for no transaction. */
  lemma PlainReplyIsWhole(t: Table, frame: Frame, timeouts: Timeouts, now: nat)
    requires Indexed(t) && Finds(t, frame) && frame.status != PendingStatus
    requires t.entries[frame.mid].assembly.None?
    ensures var m := Accept(t, frame, timeouts, now);
      m.failure.None? && Frees(t, m.table, frame.mid, Ok(Reply(frame, None)))
  {
    var e := t.entries[frame.mid];
    AcceptSettles(t, frame, timeouts, now);
    WholeCompletes(e, frame, now, timeouts.perRequest);
    CompletedFrees(t, frame.mid, AcceptRow(e, frame, now, timeouts.perRequest), Ok(Reply(frame, None)));
  }

  /** And of one that asked for a transaction, where it says that this failed: what it
      carries is all there is of it. */
  lemma FailedTransactionIsWhole(t: Table, frame: Frame, timeouts: Timeouts, now: nat)
    requires Indexed(t) && Finds(t, frame) && frame.status != PendingStatus && frame.status != Success
    requires t.entries[frame.mid].assembly.Some?
    ensures var m := Accept(t, frame, timeouts, now);
      m.failure.None? && Frees(t, m.table, frame.mid, Ok(Reply(frame, Carried(frame))))
  {
    var e := t.entries[frame.mid];
    AcceptSettles(t, frame, timeouts, now);
    WholeCompletes(e, frame, now, timeouts.perRequest);
    CompletedFrees(t, frame.mid, AcceptRow(e, frame, now, timeouts.perRequest), Ok(Reply(frame, Carried(frame))));
  }

  /** One that is no part of a transaction it should be part of costs the id. */
  lemma UndecodableSpends(t: Table, frame: Frame, timeouts: Timeouts, now: nat)
    requires Indexed(t) && Finds(t, frame) && frame.status == Success && frame.body.Undecodable?
    requires t.entries[frame.mid].assembly.Some?
    ensures var t', e := Accept(t, frame, timeouts, now).table, t.entries[frame.mid];
      && frame.mid in t'.entries && t'.entries[frame.mid].state.Retired?
      && (forall m :: m != frame.mid ==> SameRow(t, t', m))
      && t'.log == t.log + EndOf(e, Err(Wire)) && t'.retired == t.retired + 1
  {
  }
}
