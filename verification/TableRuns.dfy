/** Whole runs of the request table against a server: requests are dispatched,
    messages arrive in any order, timers fire at any time, ids come back into use.

    Every message carries, beside what is on the wire, the request it answers.
    The table never sees that; it is what the safety properties are about. */
module TableRuns {
  import opened Wrappers
  import opened Table
  import opened TableIndex
  import E = TableExpiry
  import R = Reassembly
  import P = ReassemblyProofs

  /** A request as it was put on the wire. `bounds` is what a transaction asked
      its reply to be limited to. */
  datatype Request = Request(
    mid: nat, command: nat, bounds: Option<(nat, nat)>, hook: bool, reply: bool)

  function Fresh(q: Request): Option<R.Assembly> {
    if q.bounds.Some? then Some(R.New(q.bounds.value.0, q.bounds.value.1)) else None
  }

  // ---- The server's side of the bargain ----

  /** Where a reply stands, judged from the messages sent for it alone: still
      open (with the coverage of a transaction), whole, or contradicting itself. */
  datatype Ref = Open(assembly: Option<R.Assembly>) | Done | Broken

  ghost predicate RefValid(ref: Ref) {
    ref.Open? && ref.assembly.Some? ==> ref.assembly.value.Valid() && !ref.assembly.value.buffered
  }

  function RefStep(ref: Ref, frame: Frame): (next: Ref)
    requires RefValid(ref)
    ensures RefValid(next)
  {
    if !ref.Open? then ref
    else
      match Classify(frame, ref.assembly.Some?)
      case Err(_) => Broken
      case Ok(Interim) => ref
      case Ok(Whole(_)) => Done
      case Ok(OneFragment(f)) =>
        R.AcceptKeepsValid(ref.assembly.value, f);
        R.AcceptTakes(ref.assembly.value, f);
        var r := R.Accept(ref.assembly.value, f);
        if r.outcome.Err? then Broken
        else if r.outcome.value.Complete? then Done
        else Open(Some(r.next))
  }

  /** The messages `fs`, sent for `q` in this order. */
  function RefRun(q: Request, fs: seq<Frame>): (ref: Ref)
    ensures RefValid(ref)
  {
    if fs == [] then Open(if q.bounds.Some? then Some(R.Release(Fresh(q).value)) else None)
    else RefStep(RefRun(q, fs[..|fs| - 1]), fs[|fs| - 1])
  }

  // ---- Runs ----

  datatype Event =
    | Dispatched(id: nat, request: Request, now: nat)
    | Arrived(frame: Frame, answers: nat, now: nat)
    | Ticked(now: nat)

  /** The table, the requests that entered it, the messages sent for each by their
      labels, and the messages that found its row. */
  datatype System = System(
    table: Table, requests: map<nat, Request>, received: map<nat, seq<Frame>>, reached: map<nat, seq<Frame>>,
    failure: Option<Error>)

  const INITIAL := System(EMPTY, map[], map[], map[], None)

  /** What can happen against any server: a new request has an identity and an id
      of its own, as `Allocate` gives. Any message may arrive, under any label. */
  predicate Can(s: System, e: Event) {
    e.Dispatched? ==> e.id !in s.requests && e.request.mid <= LAST_MID && e.request.mid !in s.table.entries
  }

  /** What a server that keeps its side does: a message answers a request on that
      request's id, and is not sent after the messages before it already made that
      request's reply whole. */
  predicate Keeps(s: System, e: Event) {
    e.Arrived? ==>
      && e.answers in s.requests && e.answers in s.received
      && e.frame.mid == s.requests[e.answers].mid
      && RefRun(s.requests[e.answers], s.received[e.answers]) != Done
  }

  /** A message under another command is no part of the reply. */
  function Receive(s: System, frame: Frame, answers: nat): map<nat, seq<Frame>> {
    if answers in s.requests && answers in s.received && frame.command == s.requests[answers].command then
      s.received[answers := s.received[answers] + [frame]]
    else s.received
  }

  /** The table holds a live row for the message. */
  predicate Routes(t: Table, frame: Frame) {
    frame.mid in t.entries && !t.entries[frame.mid].state.Retired? && t.entries[frame.mid].command == frame.command
  }

  /** The request whose row a message finds, without regard to its label. */
  function Reach(s: System, frame: Frame): map<nat, seq<Frame>> {
    if Routes(s.table, frame) && s.table.entries[frame.mid].request in s.reached then
      var id := s.table.entries[frame.mid].request;
      s.reached[id := s.reached[id] + [frame]]
    else s.reached
  }

  ghost function After(s: System, e: Event, timeouts: Timeouts): System
    requires Indexed(s.table) && Can(s, e)
  {
    match e
    case Dispatched(id, q, now) =>
      s.(table := Dispatch(s.table, q.mid, id, q.command, q.reply, Fresh(q), q.hook, timeouts, now),
         requests := s.requests[id := q], received := s.received[id := []], reached := s.reached[id := []])
    case Arrived(frame, answers, now) =>
      var m := Accept(s.table, frame, timeouts, now);
      s.(table := m.table, failure := m.failure, received := Receive(s, frame, answers), reached := Reach(s, frame))
    case Ticked(now) =>
      var m := E.Expire(s.table, timeouts, now);
      s.(table := m.table, failure := m.failure)
  }

  lemma AfterKeepsIndex(s: System, e: Event, timeouts: Timeouts)
    requires Indexed(s.table) && Can(s, e)
    ensures Indexed(After(s, e, timeouts).table)
  {
    match e
    case Dispatched(id, q, now) =>
      DispatchKeepsIndex(s.table, q.mid, id, q.command, q.reply, Fresh(q), q.hook, timeouts, now);
    case Arrived(frame, _, now) => AcceptKeepsIndex(s.table, frame, timeouts, now);
    case Ticked(_) =>
  }

  /** A run against any server: every event could happen where it did, and nothing
      happened after the connection failed. */
  ghost predicate Possible(es: seq<Event>, timeouts: Timeouts)
    decreases |es|, 0
  {
    es == [] ||
    (var n := |es| - 1;
     Possible(es[..n], timeouts) && Run(es[..n], timeouts).failure.None? && Can(Run(es[..n], timeouts), es[n]))
  }

  ghost function Run(es: seq<Event>, timeouts: Timeouts): (s: System)
    requires Possible(es, timeouts)
    ensures Indexed(s.table)
    decreases |es|, 1
  {
    if es == [] then NewTableIsIndexed(); INITIAL
    else
      var n := |es| - 1;
      AfterKeepsIndex(Run(es[..n], timeouts), es[n], timeouts);
      After(Run(es[..n], timeouts), es[n], timeouts)
  }

  /** A run in which the server kept its side throughout. */
  ghost predicate Legal(es: seq<Event>, timeouts: Timeouts) {
    Possible(es, timeouts) &&
    (es == [] ||
     (var n := |es| - 1;
      Legal(es[..n], timeouts) && Keeps(Run(es[..n], timeouts), es[n])))
  }

  /** The server keeps its side at every event. */
  ghost predicate ServerKeeps(es: seq<Event>, timeouts: Timeouts) {
    forall k :: 0 <= k < |es| && Possible(es[..k], timeouts) ==> Keeps(Run(es[..k], timeouts), es[k])
  }

  lemma KeepsBefore(es: seq<Event>, timeouts: Timeouts, n: nat)
    requires ServerKeeps(es, timeouts) && n <= |es|
    ensures ServerKeeps(es[..n], timeouts)
  {
    forall k | 0 <= k < n && Possible(es[..n][..k], timeouts)
      ensures Keeps(Run(es[..n][..k], timeouts), es[..n][k])
    {
      assert es[..n][..k] == es[..k];
    }
  }

  lemma {:induction false} KeptIsLegal(es: seq<Event>, timeouts: Timeouts)
    requires Possible(es, timeouts) && ServerKeeps(es, timeouts)
    ensures Legal(es, timeouts)
  {
    if |es| > 0 {
      KeepsBefore(es, timeouts, |es| - 1);
      KeptIsLegal(es[..|es| - 1], timeouts);
    }
  }

  lemma {:induction false} LegalIsKept(es: seq<Event>, timeouts: Timeouts)
    requires Legal(es, timeouts)
    ensures ServerKeeps(es, timeouts)
  {
    if |es| > 0 {
      var n := |es| - 1;
      LegalIsKept(es[..n], timeouts);
      forall k | 0 <= k < |es| && Possible(es[..k], timeouts)
        ensures Keeps(Run(es[..k], timeouts), es[k])
      {
        if k < n {
          assert es[..n][..k] == es[..k];
        }
      }
    }
  }

  /** A run is legal exactly where it is one against any server, and the server
      keeps its side at every event of it. */
  lemma LegalExactly(es: seq<Event>, timeouts: Timeouts)
    requires Possible(es, timeouts)
    ensures Legal(es, timeouts) <==> ServerKeeps(es, timeouts)
  {
    if Legal(es, timeouts) {
      LegalIsKept(es, timeouts);
    } else if ServerKeeps(es, timeouts) {
      KeptIsLegal(es, timeouts);
    }
  }

  // ---- What every run keeps ----

  /** The table still holds request `id`, whatever has become of it. */
  predicate Held(t: Table, id: nat, q: Request) {
    q.mid in t.entries && t.entries[q.mid].request == id
  }

  predicate Waiting(t: Table, id: nat, q: Request) {
    Held(t, id, q) && t.entries[q.mid].Charges()
  }

  /** A row that is not retired follows the reply it is owed. */
  ghost predicate RowFollows(e: Entry, q: Request, ref: Ref) {
    && e.command == q.command
    && (!e.state.Retired? ==>
          && ref.Open?
          && (e.assembly.Some? <==> ref.assembly.Some?)
          && (e.assembly.Some? ==> e.assembly.value.Follows(ref.assembly.value)))
  }

  /** The table holds a request until its reply is whole. */
  ghost predicate Routed(t: Table, id: nat, q: Request, fs: seq<Frame>) {
    && (RefRun(q, fs) != Done ==> Held(t, id, q))
    && (Held(t, id, q) ==> RowFollows(t.entries[q.mid], q, RefRun(q, fs)))
  }

  /** How often request `id` has ended. */
  function Times(log: seq<Ended>, id: nat): nat {
    if log == [] then 0
    else Times(log[..|log| - 1], id) + Count(log[|log| - 1].request == id)
  }

  /** While it waits a request has not ended, and its hook and its waiter are
      still arranged; after that it has ended once, to that hook and that waiter. */
  ghost predicate EndsOnce(t: Table, id: nat, q: Request) {
    if Waiting(t, id, q) then
      && Times(t.log, id) == 0
      && t.entries[q.mid].hook == q.hook && t.entries[q.mid].state.reply == q.reply
    else
      && Times(t.log, id) == 1
      && forall i :: 0 <= i < |t.log| && t.log[i].request == id ==>
           t.log[i].hook == q.hook && t.log[i].reply == q.reply
  }

  /** Every row belongs to a request that was dispatched on its id. */
  ghost predicate RowsKnown(t: Table, requests: map<nat, Request>) {
    forall m :: m in t.entries ==>
      t.entries[m].request in requests && requests[t.entries[m].request].mid == m
  }

  ghost predicate LogKnown(log: seq<Ended>, requests: map<nat, Request>) {
    forall i :: 0 <= i < |log| ==> log[i].request in requests
  }

  /** What every run keeps, whatever the server does. */
  ghost predicate Accounted(t: Table, requests: map<nat, Request>) {
    && RowsKnown(t, requests) && LogKnown(t.log, requests)
    && (forall id :: id in requests ==> EndsOnce(t, id, requests[id]))
  }

  /** What a run keeps whose server keeps its side. */
  ghost predicate AllRouted(t: Table, requests: map<nat, Request>, received: map<nat, seq<Frame>>) {
    && requests.Keys == received.Keys
    && (forall id :: id in requests ==> Routed(t, id, requests[id], received[id]))
  }

  lemma {:induction false} TimesConcat(a: seq<Ended>, b: seq<Ended>, id: nat)
    ensures Times(a + b, id) == Times(a, id) + Times(b, id)
  {
    if b == [] {
      assert a + b == a;
    } else {
      TimesConcat(a, b[..|b| - 1], id);
      assert (a + b)[..|a + b| - 1] == a + b[..|b| - 1];
    }
  }

  lemma {:induction false} TimesNone(log: seq<Ended>, id: nat)
    requires forall i :: 0 <= i < |log| ==> log[i].request != id
    ensures Times(log, id) == 0
  {
    if log != [] {
      TimesNone(log[..|log| - 1], id);
    }
  }

  lemma TimesOne(e: Ended)
    ensures Times([e], e.request) == 1
  {
    assert [e][..0] == [];
  }

  /** Row `k` is the same in both, or in neither. */
  predicate SameRow(t: Table, t': Table, k: nat) {
    if k in t.entries then k in t'.entries && t'.entries[k] == t.entries[k] else k !in t'.entries
  }

  /** `t'` differs from `t` only in row `m`, which is and stays request `id`'s
      until it goes, and in what ended of that request. */
  ghost predicate OnlyTouches(t: Table, t': Table, m: nat, id: nat) {
    && (forall k :: k != m ==> SameRow(t, t', k))
    && (m in t.entries ==> t.entries[m].request == id)
    && (m in t'.entries ==> t'.entries[m].request == id)
    && OnlyLogs(t.log, t'.log, id)
  }

  /** What the log gained is of request `id`. */
  ghost predicate OnlyLogs(log: seq<Ended>, log': seq<Ended>, id: nat) {
    && |log| <= |log'|
    && (forall i :: 0 <= i < |log| ==> log'[i] == log[i])
    && (forall i :: |log| <= i < |log'| ==> log'[i].request == id)
  }

  lemma OthersTimes(log: seq<Ended>, log': seq<Ended>, id: nat, other: nat)
    requires OnlyLogs(log, log', id) && other != id
    ensures Times(log', other) == Times(log, other)
  {
    var more := log'[|log|..];
    assert log' == log + more;
    TimesConcat(log, more, other);
    TimesNone(more, other);
  }

  lemma OthersHeld(t: Table, t': Table, m: nat, id: nat, other: nat, q: Request)
    requires OnlyTouches(t, t', m, id) && other != id
    ensures Held(t', other, q) <==> Held(t, other, q)
    ensures Held(t, other, q) ==> t'.entries[q.mid] == t.entries[q.mid]
  {
    if q.mid != m {
      assert SameRow(t, t', q.mid);
    }
  }

  lemma OthersEndOnce(t: Table, t': Table, m: nat, id: nat, other: nat, q: Request)
    requires OnlyTouches(t, t', m, id) && other != id && EndsOnce(t, other, q)
    ensures EndsOnce(t', other, q)
  {
    OthersHeld(t, t', m, id, other, q);
    OthersTimes(t.log, t'.log, id, other);
  }

  /** A step about request `id` alone, on row `m`: what it has to keep is only
      that request's share. */
  lemma AccountedByRow(t: Table, t': Table, m: nat, id: nat, requests: map<nat, Request>)
    requires Accounted(t, requests) && OnlyTouches(t, t', m, id)
    requires id in requests && requests[id].mid == m && EndsOnce(t', id, requests[id])
    ensures Accounted(t', requests)
  {
    forall k | k in requests
      ensures EndsOnce(t', k, requests[k])
    {
      if k != id {
        OthersEndOnce(t, t', m, id, k, requests[k]);
      }
    }
    forall k | k in t'.entries
      ensures t'.entries[k].request in requests && requests[t'.entries[k].request].mid == k
    {
      if k != m {
        assert SameRow(t, t', k);
      }
    }
    forall i | 0 <= i < |t'.log|
      ensures t'.log[i].request in requests
    {
      assert i < |t.log| ==> t'.log[i] == t.log[i];
    }
  }

  lemma RoutedByRow(t: Table, t': Table, m: nat, id: nat, requests: map<nat, Request>,
                    received: map<nat, seq<Frame>>, received': map<nat, seq<Frame>>)
    requires AllRouted(t, requests, received) && OnlyTouches(t, t', m, id) && id in requests
    requires received'.Keys == received.Keys
    requires forall k :: k in received && k != id ==> received'[k] == received[k]
    requires Routed(t', id, requests[id], received'[id])
    ensures AllRouted(t', requests, received')
  {
    forall k | k in requests
      ensures Routed(t', k, requests[k], received'[k])
    {
      if k != id {
        OthersHeld(t, t', m, id, k, requests[k]);
        assert Routed(t, k, requests[k], received[k]);
      }
    }
  }

  // ---- A request is dispatched ----

  lemma DispatchTouches(t: Table, id: nat, q: Request, timeouts: Timeouts, now: nat)
    requires q.mid !in t.entries
    ensures OnlyTouches(t, Dispatch(t, q.mid, id, q.command, q.reply, Fresh(q), q.hook, timeouts, now), q.mid, id)
  {
  }

  lemma DispatchKeepsAccounted(t: Table, requests: map<nat, Request>, id: nat, q: Request, timeouts: Timeouts, now: nat)
    requires Accounted(t, requests) && id !in requests && q.mid !in t.entries
    ensures Accounted(Dispatch(t, q.mid, id, q.command, q.reply, Fresh(q), q.hook, timeouts, now), requests[id := q])
  {
    var t' := Dispatch(t, q.mid, id, q.command, q.reply, Fresh(q), q.hook, timeouts, now);
    DispatchTouches(t, id, q, timeouts, now);
    TimesNone(t.log, id);
    forall k | k in requests
      ensures EndsOnce(t', k, requests[k])
    {
      OthersEndOnce(t, t', q.mid, id, k, requests[k]);
    }
    DispatchedRows(t, requests, id, q, timeouts, now);
  }

  lemma DispatchedRows(t: Table, requests: map<nat, Request>, id: nat, q: Request, timeouts: Timeouts, now: nat)
    requires RowsKnown(t, requests) && id !in requests
    ensures RowsKnown(Dispatch(t, q.mid, id, q.command, q.reply, Fresh(q), q.hook, timeouts, now), requests[id := q])
  {
  }

  lemma DispatchKeepsRouted(s: System, id: nat, q: Request, timeouts: Timeouts, now: nat)
    requires AllRouted(s.table, s.requests, s.received) && Can(s, Dispatched(id, q, now))
    ensures var t := Dispatch(s.table, q.mid, id, q.command, q.reply, Fresh(q), q.hook, timeouts, now);
      AllRouted(t, s.requests[id := q], s.received[id := []])
  {
    var t := Dispatch(s.table, q.mid, id, q.command, q.reply, Fresh(q), q.hook, timeouts, now);
    DispatchTouches(s.table, id, q, timeouts, now);
    forall k | k in s.requests
      ensures Routed(t, k, s.requests[k], s.received[k])
    {
      OthersHeld(s.table, t, q.mid, id, k, s.requests[k]);
    }
    assert Routed(t, id, q, []);
  }

  // ---- A message arrives ----

  /** What an arrival ends, and what it leaves arranged. */
  lemma AcceptRowEnds(e: Entry, frame: Frame, now: nat, perRequest: nat)
    requires e.Valid() && !e.state.Retired?
    ensures var r := AcceptRow(e, frame, now, perRequest);
      if r.step.Continuing? then
        && r.ended == [] && r.entry.hook == e.hook
        && (e.Charges() ==> r.entry.Charges() && r.entry.state.reply == e.state.reply)
      else if e.Charges() then
        |r.ended| == 1 && r.ended[0] == Ended(e.request, r.ended[0].outcome, e.hook, e.state.reply)
      else r.ended == []
  {
  }

  /** A row that follows the reply it is owed goes on following it: the table
      takes a reply for whole only when it is. */
  lemma RowFollowsArrival(e: Entry, q: Request, ref: Ref, frame: Frame, now: nat, perRequest: nat)
    requires e.Valid() && !e.state.Retired? && RefValid(ref) && RowFollows(e, q, ref)
    ensures var r := AcceptRow(e, frame, now, perRequest);
      && (r.step.Continuing? ==> RowFollows(r.entry, q, RefStep(ref, frame)))
      && (r.step.Completed? ==> RefStep(ref, frame) == Done)
  {
    if e.assembly.Some? && frame.body.Decoded? {
      P.AcceptWithoutBuffer(e.assembly.value, ref.assembly.value, frame.body.fragment);
      R.AcceptTakes(e.assembly.value, frame.body.fragment);
      R.AcceptTakes(ref.assembly.value, frame.body.fragment);
    }
  }

  /** **No crosstalk, one arrival**: a message reaches the row of the request it
      answers, and is refused only for carrying another command. */
  lemma ArrivalReachesItsRequest(s: System, frame: Frame, answers: nat, timeouts: Timeouts, now: nat)
    requires Indexed(s.table) && AllRouted(s.table, s.requests, s.received)
    requires Keeps(s, Arrived(frame, answers, now))
    ensures Held(s.table, answers, s.requests[answers])
    ensures var failure := Accept(s.table, frame, timeouts, now).failure;
      failure.Some? && failure.value.Unroutable? <==>
        frame.command != s.requests[answers].command && !s.table.entries[frame.mid].state.Retired?
  {
    assert Routed(s.table, answers, s.requests[answers], s.received[answers]);
    UnroutableExactly(s.table, frame, timeouts, now);
  }

  /** What the table refuses to route: what it holds no row for, and what comes
      under another command than its live row's. */
  lemma UnroutableExactly(t: Table, frame: Frame, timeouts: Timeouts, now: nat)
    requires frame.mid in t.entries ==> t.entries[frame.mid].Valid()
    ensures var failure := Accept(t, frame, timeouts, now).failure;
      failure.Some? && failure.value.Unroutable? <==>
        frame.mid !in t.entries
        || (!t.entries[frame.mid].state.Retired? && t.entries[frame.mid].command != frame.command)
  {
    if Routes(t, frame) {
      var e := t.entries[frame.mid];
      AcceptSettles(t, frame, timeouts, now);
      SettleIsRouted(t, frame.mid, e, AcceptRow(e, frame, now, timeouts.perRequest));
    }
  }

  lemma SettleIsRouted(t: Table, m: nat, e: Entry, r: RowStep)
    requires m in t.entries
    ensures var failure := Settle(t, m, e, r).failure; failure.Some? ==> !failure.value.Unroutable?
  {
  }

  /** Any message at all ends at most the request whose row it finds. */
  lemma ArrivalKeepsAccounted(t: Table, requests: map<nat, Request>, frame: Frame, timeouts: Timeouts, now: nat)
    requires Indexed(t) && Accounted(t, requests)
    ensures Accounted(Accept(t, frame, timeouts, now).table, requests)
  {
    if Routes(t, frame) {
      var id := t.entries[frame.mid].request;
      assert EndsOnce(t, id, requests[id]);
      ArrivalTouches(t, id, requests[id], frame, timeouts, now);
      AcceptedEnds(t, id, requests[id], frame, timeouts, now);
      AccountedByRow(t, Accept(t, frame, timeouts, now).table, frame.mid, id, requests);
    } else {
      AcceptElsewhere(t, frame, timeouts, now);
    }
  }

  lemma ArrivalKeepsRouted(s: System, frame: Frame, answers: nat, timeouts: Timeouts, now: nat)
    requires Indexed(s.table) && AllRouted(s.table, s.requests, s.received)
    requires Keeps(s, Arrived(frame, answers, now))
    ensures AllRouted(Accept(s.table, frame, timeouts, now).table, s.requests, Receive(s, frame, answers))
  {
    ArrivalReachesItsRequest(s, frame, answers, timeouts, now);
    var t, q, fs := s.table, s.requests[answers], s.received[answers];
    var t' := Accept(t, frame, timeouts, now).table;
    assert Routed(t, answers, q, fs);
    if Routes(t, frame) {
      ArrivalTouches(t, answers, q, frame, timeouts, now);
      AcceptedRouted(t, answers, q, fs, frame, timeouts, now);
    } else {
      AcceptElsewhere(t, frame, timeouts, now);
      if frame.command == q.command {
        RetiredRouted(t, answers, q, fs, frame);
      }
    }
    RoutedByRow(t, t', frame.mid, answers, s.requests, s.received, Receive(s, frame, answers));
  }

  /** A retired row is held whatever else is sent for its request. */
  lemma RetiredRouted(t: Table, id: nat, q: Request, fs: seq<Frame>, frame: Frame)
    requires Routed(t, id, q, fs) && Held(t, id, q) && t.entries[q.mid].state.Retired?
    ensures Routed(t, id, q, fs + [frame])
  {
  }

  lemma AcceptedRouted(t: Table, id: nat, q: Request, fs: seq<Frame>, frame: Frame, timeouts: Timeouts, now: nat)
    requires Indexed(t) && Held(t, id, q) && Routed(t, id, q, fs)
    requires frame.mid == q.mid && frame.command == q.command && !t.entries[q.mid].state.Retired?
    ensures Routed(Accept(t, frame, timeouts, now).table, id, q, fs + [frame])
  {
    var e := t.entries[q.mid];
    assert (fs + [frame])[..|fs|] == fs;
    AcceptRowKeepsValid(e, frame, now, timeouts.perRequest);
    RowFollowsArrival(e, q, RefRun(q, fs), frame, now, timeouts.perRequest);
  }

  lemma SettleTouches(t: Table, m: nat, e: Entry, r: RowStep)
    requires m in t.entries && e == t.entries[m] && r.entry.request == e.request
    requires forall i :: 0 <= i < |r.ended| ==> r.ended[i].request == e.request
    ensures OnlyTouches(t, Settle(t, m, e, r).table, m, e.request)
    ensures Settle(t, m, e, r).table.log == t.log + r.ended
  {
  }

  lemma AcceptSettles(t: Table, frame: Frame, timeouts: Timeouts, now: nat)
    requires Routes(t, frame) && t.entries[frame.mid].Valid()
    ensures var e := t.entries[frame.mid];
      Accept(t, frame, timeouts, now) == Settle(t, frame.mid, e, AcceptRow(e, frame, now, timeouts.perRequest))
  {
  }

  lemma AcceptElsewhere(t: Table, frame: Frame, timeouts: Timeouts, now: nat)
    requires !Routes(t, frame) && (frame.mid in t.entries ==> t.entries[frame.mid].Valid())
    ensures Accept(t, frame, timeouts, now).table == t
  {
  }

  lemma AcceptedTouches(t: Table, frame: Frame, e: Entry, r: RowStep, timeouts: Timeouts, now: nat)
    requires Indexed(t) && frame.mid in t.entries && e == t.entries[frame.mid]
    requires !e.state.Retired? && e.command == frame.command
    requires r == AcceptRow(e, frame, now, timeouts.perRequest) && r.entry.request == e.request
    requires forall i :: 0 <= i < |r.ended| ==> r.ended[i].request == e.request
    ensures OnlyTouches(t, Accept(t, frame, timeouts, now).table, frame.mid, e.request)
  {
    AcceptSettles(t, frame, timeouts, now);
    SettleTouches(t, frame.mid, e, r);
  }

  /** A message changes the row of the request it answers and no other. */
  lemma ArrivalTouches(t: Table, id: nat, q: Request, frame: Frame, timeouts: Timeouts, now: nat)
    requires Indexed(t) && Held(t, id, q) && frame.mid == q.mid
    requires frame.command == t.entries[q.mid].command
    ensures OnlyTouches(t, Accept(t, frame, timeouts, now).table, q.mid, id)
  {
    var e := t.entries[q.mid];
    if !e.state.Retired? {
      AcceptRowEnds(e, frame, now, timeouts.perRequest);
      AcceptRowKeepsValid(e, frame, now, timeouts.perRequest);
      AcceptedTouches(t, frame, e, AcceptRow(e, frame, now, timeouts.perRequest), timeouts, now);
    }
  }

  lemma AcceptedEnds(t: Table, id: nat, q: Request, frame: Frame, timeouts: Timeouts, now: nat)
    requires Indexed(t) && Held(t, id, q) && EndsOnce(t, id, q) && frame.mid == q.mid && Routes(t, frame)
    ensures EndsOnce(Accept(t, frame, timeouts, now).table, id, q)
  {
    var e, t' := t.entries[q.mid], Accept(t, frame, timeouts, now).table;
    var r := AcceptRow(e, frame, now, timeouts.perRequest);
    AcceptRowEnds(e, frame, now, timeouts.perRequest);
    AcceptRowKeepsValid(e, frame, now, timeouts.perRequest);
    AcceptSettles(t, frame, timeouts, now);
    AcceptedEndsOnce(t, t', id, q, e, r);
  }

  lemma AcceptedEndsOnce(t: Table, t': Table, id: nat, q: Request, e: Entry, r: RowStep)
    requires EndsOnce(t, id, q) && Held(t, id, q) && e == t.entries[q.mid] && !e.state.Retired?
    requires t'.log == t.log + r.ended
    requires if r.step.Continuing? then q.mid in t'.entries && t'.entries[q.mid] == r.entry
             else q.mid in t'.entries ==> t'.entries[q.mid].state.Retired?
    requires r.entry.request == id && (r.entry.Charges() <==> e.Charges())
    requires
      if r.step.Continuing? then
        && r.ended == [] && r.entry.hook == e.hook
        && (e.Charges() ==> r.entry.Charges() && r.entry.state.reply == e.state.reply)
      else if e.Charges() then
        |r.ended| == 1 && r.ended[0] == Ended(e.request, r.ended[0].outcome, e.hook, e.state.reply)
      else r.ended == []
    ensures EndsOnce(t', id, q)
  {
    TimesConcat(t.log, r.ended, id);
    if Waiting(t, id, q) && !r.step.Continuing? {
      TimesOne(r.ended[0]);
      assert r.ended == [r.ended[0]];
      NeverTimes(t.log, id);
    }
  }

  lemma {:induction false} NeverTimes(log: seq<Ended>, id: nat)
    ensures Times(log, id) == 0 ==> forall i :: 0 <= i < |log| ==> log[i].request != id
  {
    if log != [] {
      NeverTimes(log[..|log| - 1], id);
    }
  }

  // ---- A deadline fires ----

  lemma ExpireOneTouches(t: Table, first: (nat, nat), timeouts: Timeouts, now: nat)
    requires first.1 in t.entries && !t.entries[first.1].state.Retired?
    ensures OnlyTouches(t, ExpireOne(t, first, timeouts, now).table, first.1, t.entries[first.1].request)
  {
  }

  lemma ExpireOneEndsOnce(t: Table, first: (nat, nat), timeouts: Timeouts, now: nat, id: nat, q: Request)
    requires first.1 in t.entries && !t.entries[first.1].state.Retired?
    requires EndsOnce(t, id, q) && Held(t, id, q) && q.mid == first.1
    ensures EndsOnce(ExpireOne(t, first, timeouts, now).table, id, q)
  {
    var e, t' := t.entries[first.1], ExpireOne(t, first, timeouts, now).table;
    if e.state.OnWire? {
      var ended := Ended(id, Err(Timeout), e.hook, e.state.reply);
      assert t'.log == t.log + [ended];
      TimesConcat(t.log, [ended], id);
      TimesOne(ended);
      NeverTimes(t.log, id);
    }
  }

  lemma ExpireOneKeepsAccounted(t: Table, first: (nat, nat), timeouts: Timeouts, now: nat, requests: map<nat, Request>)
    requires Accounted(t, requests) && first.1 in t.entries && !t.entries[first.1].state.Retired?
    ensures Accounted(ExpireOne(t, first, timeouts, now).table, requests)
  {
    var id := t.entries[first.1].request;
    assert EndsOnce(t, id, requests[id]);
    ExpireOneTouches(t, first, timeouts, now);
    ExpireOneEndsOnce(t, first, timeouts, now, id, requests[id]);
    AccountedByRow(t, ExpireOne(t, first, timeouts, now).table, first.1, id, requests);
  }

  lemma ExpireOneKeepsRouted(t: Table, first: (nat, nat), timeouts: Timeouts, now: nat,
                             requests: map<nat, Request>, received: map<nat, seq<Frame>>)
    requires RowsKnown(t, requests) && AllRouted(t, requests, received)
    requires first.1 in t.entries && !t.entries[first.1].state.Retired?
    ensures AllRouted(ExpireOne(t, first, timeouts, now).table, requests, received)
  {
    var id, t' := t.entries[first.1].request, ExpireOne(t, first, timeouts, now).table;
    assert Routed(t, id, requests[id], received[id]);
    ExpireOneTouches(t, first, timeouts, now);
    assert Routed(t', id, requests[id], received[id]);
    RoutedByRow(t, t', first.1, id, requests, received, received);
  }

  lemma {:induction false} ExpireKeepsAccounted(t: Table, timeouts: Timeouts, now: nat, requests: map<nat, Request>)
    requires Indexed(t) && Accounted(t, requests)
    ensures Accounted(E.Expire(t, timeouts, now).table, requests)
    decreases E.Remaining(t)
  {
    E.RemainingIsNat(t);
    if t.expiry != {} && E.First(t.expiry).0 <= now {
      E.ExpireTurns(t, timeouts, now);
      var m := ExpireOne(t, E.First(t.expiry), timeouts, now);
      ExpireOneKeepsAccounted(t, E.First(t.expiry), timeouts, now, requests);
      if m.failure.None? {
        ExpireKeepsAccounted(m.table, timeouts, now, requests);
      }
    }
  }

  lemma {:induction false} ExpireKeepsRouted(t: Table, timeouts: Timeouts, now: nat,
                                             requests: map<nat, Request>, received: map<nat, seq<Frame>>)
    requires Indexed(t) && Accounted(t, requests) && AllRouted(t, requests, received)
    ensures AllRouted(E.Expire(t, timeouts, now).table, requests, received)
    decreases E.Remaining(t)
  {
    E.RemainingIsNat(t);
    if t.expiry != {} && E.First(t.expiry).0 <= now {
      E.ExpireTurns(t, timeouts, now);
      var m := ExpireOne(t, E.First(t.expiry), timeouts, now);
      ExpireOneKeepsAccounted(t, E.First(t.expiry), timeouts, now, requests);
      ExpireOneKeepsRouted(t, E.First(t.expiry), timeouts, now, requests, received);
      if m.failure.None? {
        ExpireKeepsRouted(m.table, timeouts, now, requests, received);
      }
    }
  }

  // ---- Over whole runs ----

  /** **Every run keeps account of its ends**, whatever the server sends: every
      row is of a request that was dispatched on its id, and each request has
      ended exactly once, as it was arranged to, or is still waiting and has not. */
  lemma {:induction false} RunIsAccounted(es: seq<Event>, timeouts: Timeouts)
    requires Possible(es, timeouts)
    ensures var s := Run(es, timeouts); Accounted(s.table, s.requests)
  {
    if es != [] {
      var n := |es| - 1;
      RunIsAccounted(es[..n], timeouts);
      var s := Run(es[..n], timeouts);
      match es[n]
      case Dispatched(id, q, now) => DispatchKeepsAccounted(s.table, s.requests, id, q, timeouts, now);
      case Arrived(frame, _, now) => ArrivalKeepsAccounted(s.table, s.requests, frame, timeouts, now);
      case Ticked(now) => ExpireKeepsAccounted(s.table, timeouts, now, s.requests);
    }
  }

  /** **Where the server keeps its side, every row follows its reply**: the table
      holds a request until its reply is whole, and takes it for whole only then. */
  lemma {:induction false} RunIsRouted(es: seq<Event>, timeouts: Timeouts)
    requires Legal(es, timeouts)
    ensures var s := Run(es, timeouts); AllRouted(s.table, s.requests, s.received)
  {
    if es != [] {
      var n := |es| - 1;
      RunIsRouted(es[..n], timeouts);
      var s := Run(es[..n], timeouts);
      match es[n]
      case Dispatched(id, q, now) => DispatchKeepsRouted(s, id, q, timeouts, now);
      case Arrived(frame, answers, now) => ArrivalKeepsRouted(s, frame, answers, timeouts, now);
      case Ticked(now) =>
        RunIsAccounted(es[..n], timeouts);
        ExpireKeepsRouted(s.table, timeouts, now, s.requests, s.received);
    }
  }

  /** **No crosstalk**: in every run in which the server sends nothing on an id
      after it has made the reply on that id whole, whatever timed out, was
      corrupted or came back into use before, each message that arrives finds the
      very request it answers, waiting, lapsed or retired. It fails to be routed
      only for carrying another command. */
  lemma NoCrosstalk(es: seq<Event>, timeouts: Timeouts, k: nat)
    requires Legal(es, timeouts) && k < |es| && es[k].Arrived?
    ensures Legal(es[..k], timeouts)
    ensures var s := Run(es[..k], timeouts);
      && es[k].answers in s.requests
      && es[k].frame.mid in s.table.entries
      && s.table.entries[es[k].frame.mid].request == es[k].answers
      && (var failure := Accept(s.table, es[k].frame, timeouts, es[k].now).failure;
          failure.Some? && failure.value.Unroutable? ==>
            es[k].frame.command != s.requests[es[k].answers].command)
  {
    LegalPrefix(es, timeouts, k + 1);
    assert es[..k + 1][..k] == es[..k];
    RunIsRouted(es[..k], timeouts);
    ArrivalReachesItsRequest(Run(es[..k], timeouts), es[k].frame, es[k].answers, timeouts, es[k].now);
  }

  lemma {:induction false} LegalPrefix(es: seq<Event>, timeouts: Timeouts, k: nat)
    requires Legal(es, timeouts) && k <= |es|
    ensures Legal(es[..k], timeouts)
  {
    if k < |es| {
      LegalPrefix(es[..|es| - 1], timeouts, k);
      assert es[..|es| - 1][..k] == es[..k];
    } else {
      assert es[..k] == es;
    }
  }
}
