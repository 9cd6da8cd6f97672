/** What becomes of each request over whole runs, against any server: it ends
    exactly once, what it is given reached its own row, and nothing that is sent can
    postpone its deadlines. */
module TableOutcomes {
  import opened Wrappers
  import opened Table
  import opened TableIndex
  import opened TableRuns
  import E = TableExpiry
  import R = Reassembly
  import P = ReassemblyProofs

  // ---- Every request ends exactly once ----

  /** How often a loss ends request `id`: once, where the rows given up hold it
      on the wire. */
  lemma {:induction false} LostTimes(t: Table, requests: map<nat, Request>, order: seq<nat>, id: nat)
    requires RowsKnown(t, requests) && id in requests
    requires forall m :: m in order ==> m in t.entries
    requires forall i, j :: 0 <= i < j < |order| ==> order[i] != order[j]
    ensures Times(LostRows(t.entries, order), id)
         == Count(Waiting(t, id, requests[id]) && requests[id].mid in order)
    ensures forall i :: 0 <= i < |LostRows(t.entries, order)| && LostRows(t.entries, order)[i].request == id ==>
      Waiting(t, id, requests[id])
      && LostRows(t.entries, order)[i].hook == t.entries[requests[id].mid].hook
      && LostRows(t.entries, order)[i].reply == t.entries[requests[id].mid].state.reply
  {
    if order != [] {
      var n := |order| - 1;
      LostTimes(t, requests, order[..n], id);
      var e := t.entries[order[n]];
      TimesConcat(LostRows(t.entries, order[..n]), Deliver(e, Err(Lost)).1, id);
      if e.state.OnWire? {
        var ended := Ended(e.request, Err(Lost), e.hook, e.state.reply);
        assert Times([ended], id) == Count(e.request == id) by {
          assert [ended][..0] == [];
        }
      }
    }
  }

  /** Once the connection is over, whatever the server sent, every request that ever
      entered the table has ended exactly once: its hook, where it had one, was
      applied then, and its waiter, where it had one, was answered then. */
  lemma EveryRequestEndsOnce(es: seq<Event>, timeouts: Timeouts, order: seq<nat>, id: nat)
    requires Possible(es, timeouts) && id in Run(es, timeouts).requests
    requires Enumerates(order, Run(es, timeouts).table.entries.Keys)
    ensures var q, log := Run(es, timeouts).requests[id], FailAll(Run(es, timeouts).table, order).log;
      && Times(log, id) == 1
      && forall i :: 0 <= i < |log| && log[i].request == id ==> log[i].hook == q.hook && log[i].reply == q.reply
  {
    RunIsAccounted(es, timeouts);
    var s := Run(es, timeouts);
    assert EndsOnce(s.table, id, s.requests[id]);
    LostTimes(s.table, s.requests, order, id);
    TimesConcat(s.table.log, LostRows(s.table.entries, order), id);
    NeverTimes(s.table.log, id);
    NeverTimes(LostRows(s.table.entries, order), id);
  }

  /** While the connection lives, no request has ended more than once, and one
      has ended exactly where it is no longer waiting on the wire. */
  lemma EndsAtMostOnce(es: seq<Event>, timeouts: Timeouts, id: nat)
    requires Possible(es, timeouts) && id in Run(es, timeouts).requests
    ensures var s := Run(es, timeouts);
      Times(s.table.log, id) == if Waiting(s.table, id, s.requests[id]) then 0 else 1
  {
    RunIsAccounted(es, timeouts);
    assert EndsOnce(Run(es, timeouts).table, id, Run(es, timeouts).requests[id]);
  }

  // ---- What a request is given reached its row ----

  /** The fragments among the messages of one reply. */
  function FragmentsOf(fs: seq<Frame>): seq<R.Fragment> {
    if fs == [] then []
    else
      var rest, last := FragmentsOf(fs[..|fs| - 1]), fs[|fs| - 1];
      if last.status == Success && last.body.Decoded? then rest + [last.body.fragment] else rest
  }

  /** A reply that was delivered is the last of the messages that reached the row,
      and the body of a transaction is those messages reassembled. */
  ghost predicate Justified(q: Request, fs: seq<Frame>, reply: Reply) {
    && fs != [] && reply.frame == fs[|fs| - 1]
    && (q.bounds.Some? && reply.frame.status == Success ==> Reassembled(q, fs, reply))
  }

  ghost predicate Reassembled(q: Request, fs: seq<Frame>, reply: Reply)
    requires q.bounds.Some?
  {
    var r := R.Run(Fresh(q).value, FragmentsOf(fs));
    r.Ok? && r.value.Progress() == R.Complete && reply.transaction == Some(Finish(r.value))
  }

  /** A row on the wire has reassembled what reached it so far. */
  ghost predicate RowSourced(e: Entry, q: Request, fs: seq<Frame>) {
    && (e.assembly.Some? <==> q.bounds.Some?)
    && (e.assembly.Some? ==> R.Run(Fresh(q).value, FragmentsOf(fs)) == Ok(e.assembly.value))
  }

  /** A waiting row is sourced; and a request that has been given a reply is gone
      from the table, and the reply is justified. */
  ghost predicate Sourced(t: Table, id: nat, q: Request, fs: seq<Frame>) {
    && (Waiting(t, id, q) ==> RowSourced(t.entries[q.mid], q, fs))
    && forall i :: 0 <= i < |t.log| && t.log[i].request == id && t.log[i].outcome.Ok? ==>
         !Held(t, id, q) && Justified(q, fs, t.log[i].outcome.value)
  }

  ghost predicate AllSourced(t: Table, requests: map<nat, Request>, reached: map<nat, seq<Frame>>) {
    requests.Keys == reached.Keys
    && forall id :: id in requests ==> Sourced(t, id, requests[id], reached[id])
  }

  lemma OthersSourced(t: Table, t': Table, m: nat, id: nat, other: nat, q: Request, fs: seq<Frame>)
    requires OnlyTouches(t, t', m, id) && other != id && Sourced(t, other, q, fs)
    ensures Sourced(t', other, q, fs)
  {
    OthersHeld(t, t', m, id, other, q);
    forall i | 0 <= i < |t'.log| && t'.log[i].request == other && t'.log[i].outcome.Ok?
      ensures !Held(t', other, q) && Justified(q, fs, t'.log[i].outcome.value)
    {
      assert i < |t.log| && t.log[i] == t'.log[i];
    }
  }

  lemma SourcedByRow(t: Table, t': Table, m: nat, id: nat, requests: map<nat, Request>,
                     reached: map<nat, seq<Frame>>, reached': map<nat, seq<Frame>>)
    requires AllSourced(t, requests, reached) && OnlyTouches(t, t', m, id) && id in requests
    requires reached'.Keys == reached.Keys
    requires forall k :: k in reached && k != id ==> reached'[k] == reached[k]
    requires Sourced(t', id, requests[id], reached'[id])
    ensures AllSourced(t', requests, reached')
  {
    forall k | k in requests
      ensures Sourced(t', k, requests[k], reached'[k])
    {
      if k != id {
        OthersSourced(t, t', m, id, k, requests[k], reached[k]);
      }
    }
  }

  /** What one more message adds to the fragments of a reply. */
  lemma FragmentsNext(fs: seq<Frame>, frame: Frame)
    ensures FragmentsOf(fs + [frame]) == FragmentsOf(fs)
      + (if frame.status == Success && frame.body.Decoded? then [frame.body.fragment] else [])
  {
    assert (fs + [frame])[..|fs|] == fs;
  }

  /** The row of a waiting transaction, over one message that carries a fragment. */
  lemma FragmentSourced(e: Entry, q: Request, fs: seq<Frame>, frame: Frame)
    requires e.assembly.Some? && e.assembly.value.Valid() && q.bounds.Some?
    requires frame.status == Success && frame.body.Decoded?
    requires R.Run(Fresh(q).value, FragmentsOf(fs)) == Ok(e.assembly.value)
    ensures var r := AcceptFragment(e, frame, frame.body.fragment);
      && (r.step.Continuing? ==>
            && r.entry.assembly.Some?
            && R.Run(Fresh(q).value, FragmentsOf(fs + [frame])) == Ok(r.entry.assembly.value))
      && (forall i :: 0 <= i < |r.ended| && r.ended[i].outcome.Ok? ==>
            && r.step.Completed? && r.ended[i].outcome.value.frame == frame
            && Reassembled(q, fs + [frame], r.ended[i].outcome.value))
  {
    FragmentsNext(fs, frame);
    R.RunSnoc(Fresh(q).value, FragmentsOf(fs), frame.body.fragment);
    R.AcceptTakes(e.assembly.value, frame.body.fragment);
  }

  /** What one message leaves of the row of a waiting request, and what it
      delivers, is sourced. */
  ghost predicate StepSourced(r: RowStep, q: Request, fs: seq<Frame>) {
    && (r.step.Continuing? ==> RowSourced(r.entry, q, fs))
    && (forall i :: 0 <= i < |r.ended| && r.ended[i].outcome.Ok? ==>
          r.step.Completed? && Justified(q, fs, r.ended[i].outcome.value))
  }

  lemma InterimSourced(e: Entry, q: Request, fs: seq<Frame>, frame: Frame, now: nat, perRequest: nat)
    requires e.Valid() && e.state.OnWire? && Classify(frame, e.assembly.Some?) == Ok(Interim) && RowSourced(e, q, fs)
    ensures StepSourced(AcceptRow(e, frame, now, perRequest), q, fs + [frame])
  {
    FragmentsNext(fs, frame);
  }

  lemma WholeSourced(e: Entry, q: Request, fs: seq<Frame>, frame: Frame, now: nat, perRequest: nat)
    requires e.Valid() && e.state.OnWire? && RowSourced(e, q, fs)
    requires Classify(frame, e.assembly.Some?).Ok? && Classify(frame, e.assembly.Some?).value.Whole?
    ensures StepSourced(AcceptRow(e, frame, now, perRequest), q, fs + [frame])
  {
  }

  lemma CorruptSourced(e: Entry, q: Request, fs: seq<Frame>, frame: Frame, now: nat, perRequest: nat)
    requires e.Valid() && e.state.OnWire? && Classify(frame, e.assembly.Some?).Err?
    ensures StepSourced(AcceptRow(e, frame, now, perRequest), q, fs)
  {
  }

  lemma ReassembledIsJustified(r: RowStep, q: Request, fs: seq<Frame>, frame: Frame)
    requires q.bounds.Some?
    requires r.step.Continuing? ==>
      r.entry.assembly.Some? && R.Run(Fresh(q).value, FragmentsOf(fs + [frame])) == Ok(r.entry.assembly.value)
    requires forall i :: 0 <= i < |r.ended| && r.ended[i].outcome.Ok? ==>
      && r.step.Completed? && r.ended[i].outcome.value.frame == frame
      && Reassembled(q, fs + [frame], r.ended[i].outcome.value)
    ensures StepSourced(r, q, fs + [frame])
  {
  }

  /** The row of a waiting request, over one message that finds it. */
  lemma RowSourcedArrival(e: Entry, q: Request, fs: seq<Frame>, frame: Frame, now: nat, perRequest: nat)
    requires e.Valid() && e.state.OnWire? && RowSourced(e, q, fs)
    ensures StepSourced(AcceptRow(e, frame, now, perRequest), q, fs + [frame])
  {
    match Classify(frame, e.assembly.Some?)
    case Err(_) => CorruptSourced(e, q, fs + [frame], frame, now, perRequest);
    case Ok(Interim) => InterimSourced(e, q, fs, frame, now, perRequest);
    case Ok(Whole(_)) => WholeSourced(e, q, fs, frame, now, perRequest);
    case Ok(OneFragment(f)) =>
      RowTakesFragment(e, frame, now, perRequest);
      FragmentSourced(Touch(e, now, perRequest), q, fs, frame);
      ReassembledIsJustified(AcceptRow(e, frame, now, perRequest), q, fs, frame);
  }

  lemma RowTakesFragment(e: Entry, frame: Frame, now: nat, perRequest: nat)
    requires e.Valid()
    requires Classify(frame, e.assembly.Some?).Ok? && Classify(frame, e.assembly.Some?).value.OneFragment?
    ensures e.assembly.Some? && frame.status == Success && frame.body.Decoded?
    ensures AcceptRow(e, frame, now, perRequest) ==
      AcceptFragment(Touch(e, now, perRequest), frame, frame.body.fragment)
  {
  }

  lemma SettleSourced(t: Table, id: nat, q: Request, before: seq<Frame>, fs: seq<Frame>, e: Entry, r: RowStep)
    requires Held(t, id, q) && e == t.entries[q.mid] && Sourced(t, id, q, before)
    requires r.entry.request == id && (r.entry.Charges() <==> e.Charges())
    requires forall i :: 0 <= i < |r.ended| ==> r.ended[i].request == id
    requires if e.Charges() then StepSourced(r, q, fs) else r.ended == []
    ensures Sourced(Settle(t, q.mid, e, r).table, id, q, fs)
  {
    var t' := Settle(t, q.mid, e, r).table;
    assert forall i :: 0 <= i < |t.log| && t.log[i].request == id ==> t.log[i].outcome.Err?;
    forall i | |t.log| <= i < |t'.log| && t'.log[i].outcome.Ok?
      ensures !Held(t', id, q) && Justified(q, fs, t'.log[i].outcome.value)
    {
      assert t'.log[i] == r.ended[i - |t.log|];
    }
  }

  lemma AcceptedSourced(t: Table, id: nat, q: Request, fs: seq<Frame>, frame: Frame, timeouts: Timeouts, now: nat)
    requires Indexed(t) && Held(t, id, q) && Sourced(t, id, q, fs) && frame.mid == q.mid && Routes(t, frame)
    ensures Sourced(Accept(t, frame, timeouts, now).table, id, q, fs + [frame])
  {
    var e := t.entries[q.mid];
    var r := AcceptRow(e, frame, now, timeouts.perRequest);
    AcceptRowEnds(e, frame, now, timeouts.perRequest);
    AcceptRowKeepsValid(e, frame, now, timeouts.perRequest);
    if e.Charges() {
      RowSourcedArrival(e, q, fs, frame, now, timeouts.perRequest);
    }
    AcceptSettles(t, frame, timeouts, now);
    SettleSourced(t, id, q, fs, fs + [frame], e, r);
  }

  lemma ArrivalKeepsSourced(s: System, frame: Frame, timeouts: Timeouts, now: nat)
    requires Indexed(s.table) && RowsKnown(s.table, s.requests) && AllSourced(s.table, s.requests, s.reached)
    ensures AllSourced(Accept(s.table, frame, timeouts, now).table, s.requests, Reach(s, frame))
  {
    if Routes(s.table, frame) {
      var id := s.table.entries[frame.mid].request;
      ArrivalTouches(s.table, id, s.requests[id], frame, timeouts, now);
      AcceptedSourced(s.table, id, s.requests[id], s.reached[id], frame, timeouts, now);
      SourcedByRow(s.table, Accept(s.table, frame, timeouts, now).table, frame.mid, id, s.requests,
                   s.reached, Reach(s, frame));
    } else {
      AcceptElsewhere(s.table, frame, timeouts, now);
    }
  }

  lemma ExpireOneKeepsSourced(t: Table, first: (nat, nat), timeouts: Timeouts, now: nat,
                              requests: map<nat, Request>, reached: map<nat, seq<Frame>>)
    requires first.1 in t.entries && !t.entries[first.1].state.Retired?
    requires RowsKnown(t, requests) && AllSourced(t, requests, reached)
    ensures AllSourced(ExpireOne(t, first, timeouts, now).table, requests, reached)
  {
    var id, t' := t.entries[first.1].request, ExpireOne(t, first, timeouts, now).table;
    assert Sourced(t, id, requests[id], reached[id]);
    ExpireOneTouches(t, first, timeouts, now);
    forall i | 0 <= i < |t'.log| && t'.log[i].request == id
      ensures t'.log[i].outcome.Err?
    {
      assert i < |t.log| ==> t'.log[i] == t.log[i];
    }
    SourcedByRow(t, t', first.1, id, requests, reached, reached);
  }

  lemma {:induction false} ExpireKeepsSourced(t: Table, timeouts: Timeouts, now: nat,
                                              requests: map<nat, Request>, reached: map<nat, seq<Frame>>)
    requires Indexed(t) && Accounted(t, requests) && AllSourced(t, requests, reached)
    ensures AllSourced(E.Expire(t, timeouts, now).table, requests, reached)
    decreases E.Remaining(t)
  {
    E.RemainingIsNat(t);
    if t.expiry != {} && E.First(t.expiry).0 <= now {
      E.ExpireTurns(t, timeouts, now);
      var m := ExpireOne(t, E.First(t.expiry), timeouts, now);
      ExpireOneKeepsAccounted(t, E.First(t.expiry), timeouts, now, requests);
      ExpireOneKeepsSourced(t, E.First(t.expiry), timeouts, now, requests, reached);
      if m.failure.None? {
        ExpireKeepsSourced(m.table, timeouts, now, requests, reached);
      }
    }
  }

  lemma DispatchKeepsSourced(s: System, id: nat, q: Request, timeouts: Timeouts, now: nat)
    requires LogKnown(s.table.log, s.requests) && AllSourced(s.table, s.requests, s.reached)
    requires Can(s, Dispatched(id, q, now))
    ensures var t := Dispatch(s.table, q.mid, id, q.command, q.reply, Fresh(q), q.hook, timeouts, now);
      AllSourced(t, s.requests[id := q], s.reached[id := []])
  {
    var t := Dispatch(s.table, q.mid, id, q.command, q.reply, Fresh(q), q.hook, timeouts, now);
    DispatchTouches(s.table, id, q, timeouts, now);
    forall k | k in s.requests
      ensures Sourced(t, k, s.requests[k], s.reached[k])
    {
      OthersSourced(s.table, t, q.mid, id, k, s.requests[k], s.reached[k]);
    }
    assert Sourced(t, id, q, []);
  }

  lemma {:induction false} RunIsSourced(es: seq<Event>, timeouts: Timeouts)
    requires Possible(es, timeouts)
    ensures var s := Run(es, timeouts); AllSourced(s.table, s.requests, s.reached)
  {
    if es != [] {
      var n := |es| - 1;
      RunIsSourced(es[..n], timeouts);
      RunIsAccounted(es[..n], timeouts);
      var s := Run(es[..n], timeouts);
      match es[n]
      case Dispatched(id, q, now) => DispatchKeepsSourced(s, id, q, timeouts, now);
      case Arrived(frame, _, now) => ArrivalKeepsSourced(s, frame, timeouts, now);
      case Ticked(now) => ExpireKeepsSourced(s.table, timeouts, now, s.requests, s.reached);
    }
  }

  /** **No transaction is handed over in part**: in every run, against any
      server, a successful transaction reply that was given to its request carries,
      in each block, bytes every one of which was supplied by exactly one of the
      messages that reached that very row. */
  lemma DeliveredBytesReachedTheRow(es: seq<Event>, timeouts: Timeouts, i: nat)
    requires Possible(es, timeouts) && i < |Run(es, timeouts).table.log|
    requires Run(es, timeouts).table.log[i].outcome.Ok?
    requires Run(es, timeouts).table.log[i].outcome.value.frame.status == Success
    ensures Run(es, timeouts).table.log[i].request in Run(es, timeouts).requests
    ensures Run(es, timeouts).table.log[i].request in Run(es, timeouts).reached
    ensures var s := Run(es, timeouts);
      var q := s.requests[s.table.log[i].request];
      var fragments := FragmentsOf(s.reached[s.table.log[i].request]);
      var reply := s.table.log[i].outcome.value;
      q.bounds.Some? ==>
        && reply.transaction.Some?
        && |reply.transaction.value.parameters| <= q.bounds.value.0
        && |reply.transaction.value.data| <= q.bounds.value.1
        && (forall p :: 0 <= p < |reply.transaction.value.parameters| ==>
              P.SuppliedOnce(P.Pieces(fragments, R.Parameters), p, reply.transaction.value.parameters[p]))
        && (forall p :: 0 <= p < |reply.transaction.value.data| ==>
              P.SuppliedOnce(P.Pieces(fragments, R.Data), p, reply.transaction.value.data[p]))
  {
    RunIsAccounted(es, timeouts);
    RunIsSourced(es, timeouts);
    var s := Run(es, timeouts);
    var id := s.table.log[i].request;
    var q := s.requests[id];
    assert Sourced(s.table, id, q, s.reached[id]);
    assert Justified(q, s.reached[id], s.table.log[i].outcome.value);
    if q.bounds.Some? {
      var fragments := FragmentsOf(s.reached[id]);
      assert fragments != [];
      P.DeliversOnlySupplied(q.bounds.value.0, q.bounds.value.1, fragments, R.Parameters);
      P.DeliversOnlySupplied(q.bounds.value.0, q.bounds.value.1, fragments, R.Data);
    }
  }

  // ---- What reached a row was sent for it ----

  /** A live row has been reached by all that was sent for its request, and a
      retired one by the beginning of it. */
  ghost predicate Traced(t: Table, id: nat, q: Request, reached: seq<Frame>, received: seq<Frame>) {
    && reached <= received
    && (Held(t, id, q) && !t.entries[q.mid].state.Retired? ==> reached == received)
  }

  ghost predicate AllTraced(s: System) {
    && s.requests.Keys == s.reached.Keys == s.received.Keys
    && forall id :: id in s.requests ==> Traced(s.table, id, s.requests[id], s.reached[id], s.received[id])
  }

  lemma ArrivalKeepsTraced(s: System, frame: Frame, answers: nat, timeouts: Timeouts, now: nat)
    requires Indexed(s.table) && AllRouted(s.table, s.requests, s.received) && AllTraced(s)
    requires Keeps(s, Arrived(frame, answers, now))
    ensures AllTraced(After(s, Arrived(frame, answers, now), timeouts))
  {
    var t, s' := s.table, After(s, Arrived(frame, answers, now), timeouts);
    assert Routed(t, answers, s.requests[answers], s.received[answers]);
    assert Traced(t, answers, s.requests[answers], s.reached[answers], s.received[answers]);
    if Routes(t, frame) {
      ArrivalTouches(t, answers, s.requests[answers], frame, timeouts, now);
    } else {
      AcceptElsewhere(t, frame, timeouts, now);
    }
    forall k | k in s.requests
      ensures Traced(s'.table, k, s.requests[k], s'.reached[k], s'.received[k])
    {
      assert Traced(t, k, s.requests[k], s.reached[k], s.received[k]);
      if k != answers && Routes(t, frame) {
        OthersHeld(t, s'.table, frame.mid, answers, k, s.requests[k]);
      }
    }
  }

  lemma DispatchKeepsTraced(s: System, id: nat, q: Request, timeouts: Timeouts, now: nat)
    requires Indexed(s.table) && AllTraced(s) && Can(s, Dispatched(id, q, now))
    ensures AllTraced(After(s, Dispatched(id, q, now), timeouts))
  {
    var s' := After(s, Dispatched(id, q, now), timeouts);
    DispatchTouches(s.table, id, q, timeouts, now);
    forall k | k in s'.requests
      ensures Traced(s'.table, k, s'.requests[k], s'.reached[k], s'.received[k])
    {
      if k != id {
        assert Traced(s.table, k, s.requests[k], s.reached[k], s.received[k]);
        OthersHeld(s.table, s'.table, q.mid, id, k, s.requests[k]);
      }
    }
  }

  lemma TickKeepsTraced(s: System, timeouts: Timeouts, now: nat)
    requires Indexed(s.table) && AllTraced(s)
    ensures AllTraced(After(s, Ticked(now), timeouts))
  {
    var s' := After(s, Ticked(now), timeouts);
    forall k | k in s.requests
      ensures Traced(s'.table, k, s.requests[k], s.reached[k], s.received[k])
    {
      assert Traced(s.table, k, s.requests[k], s.reached[k], s.received[k]);
      ExpireMovesOn(s.table, timeouts, now, s.requests[k].mid);
    }
  }

  /** **Nor a foreign one**: where the server keeps its side, every message that
      reached the row of a request was sent for that request, and none of those
      before it was lost. */
  lemma {:induction false} WhatReachedWasSent(es: seq<Event>, timeouts: Timeouts)
    requires Legal(es, timeouts)
    ensures AllTraced(Run(es, timeouts))
  {
    if es != [] {
      var n := |es| - 1;
      WhatReachedWasSent(es[..n], timeouts);
      RunIsRouted(es[..n], timeouts);
      var s := Run(es[..n], timeouts);
      match es[n]
      case Dispatched(id, q, now) => DispatchKeepsTraced(s, id, q, timeouts, now);
      case Arrived(frame, answers, now) => ArrivalKeepsTraced(s, frame, answers, timeouts, now);
      case Ticked(now) => TickKeepsTraced(s, timeouts, now);
    }
  }

  // ---- Deadlines stand ----

  /** How a row may move on: a request on the wire keeps its overall deadline
      until it lapses, a lapsed one keeps its give-up time until it is retired,
      and a retired one stays retired. */
  ghost predicate MovesOn(e: Entry, e': Entry) {
    match e.state
    case OnWire(_, _, overallAt) => e'.state.OnWire? ==> e'.state.overallAt == overallAt
    case Lapsed(giveUpAt) => e'.state.Retired? || e'.state == Lapsed(giveUpAt)
    case Retired => e'.state.Retired?
  }

  lemma AcceptRowMovesOn(e: Entry, frame: Frame, now: nat, perRequest: nat)
    requires e.Valid() && !e.state.Retired?
    ensures MovesOn(e, AcceptRow(e, frame, now, perRequest).entry)
  {
  }

  lemma SettleMovesOn(t: Table, mid: nat, e: Entry, r: RowStep, m: nat)
    requires mid in t.entries && e == t.entries[mid] && m in t.entries
    requires MovesOn(e, r.entry) && r.entry.request == e.request
    ensures var t' := Settle(t, mid, e, r).table;
      && (m in t'.entries ==> MovesOn(t.entries[m], t'.entries[m]) && t'.entries[m].request == t.entries[m].request)
      && (forall k :: k in t'.entries ==> k in t.entries)
  {
  }

  lemma AcceptMovesOn(t: Table, frame: Frame, timeouts: Timeouts, now: nat, m: nat)
    requires Indexed(t) && m in t.entries
    ensures var t' := Accept(t, frame, timeouts, now).table;
      && (m in t'.entries ==> MovesOn(t.entries[m], t'.entries[m]) && t'.entries[m].request == t.entries[m].request)
      && (forall k :: k in t'.entries ==> k in t.entries)
  {
    if Routes(t, frame) {
      var e := t.entries[frame.mid];
      AcceptRowMovesOn(e, frame, now, timeouts.perRequest);
      AcceptRowKeepsValid(e, frame, now, timeouts.perRequest);
      AcceptSettles(t, frame, timeouts, now);
      SettleMovesOn(t, frame.mid, e, AcceptRow(e, frame, now, timeouts.perRequest), m);
    } else {
      AcceptElsewhere(t, frame, timeouts, now);
    }
  }

  lemma {:induction false} ExpireMovesOn(t: Table, timeouts: Timeouts, now: nat, m: nat)
    requires Indexed(t)
    ensures var t' := E.Expire(t, timeouts, now).table;
      && (m in t'.entries <==> m in t.entries)
      && (m in t.entries ==> MovesOn(t.entries[m], t'.entries[m]) && t'.entries[m].request == t.entries[m].request)
    decreases E.Remaining(t)
  {
    E.RemainingIsNat(t);
    if t.expiry != {} && E.First(t.expiry).0 <= now {
      var first := E.First(t.expiry);
      ExpireOneKeepsIndex(t, first, timeouts, now);
      E.ExpireOneShrinks(t, first, timeouts, now);
      var r := ExpireOne(t, first, timeouts, now);
      if r.failure.None? {
        ExpireMovesOn(r.table, timeouts, now, m);
      }
    }
  }

  /** **Deadlines stand**: between any two points of a run no message moves the
      overall deadline of a request or the give-up time of a lapsed one, so a
      server cannot hold an id past them. */
  lemma {:induction false} DeadlinesStand(es: seq<Event>, timeouts: Timeouts, k: nat, id: nat)
    requires Possible(es, timeouts) && k <= |es|
    ensures Possible(es[..k], timeouts)
    ensures var s, s' := Run(es[..k], timeouts), Run(es, timeouts);
      id in s.requests ==>
        && id in s'.requests && s'.requests[id] == s.requests[id]
        && (Held(s'.table, id, s.requests[id]) ==>
              && Held(s.table, id, s.requests[id])
              && MovesOn(s.table.entries[s.requests[id].mid], s'.table.entries[s.requests[id].mid]))
  {
    if k == |es| {
      assert es[..k] == es;
    } else {
      var n := |es| - 1;
      DeadlinesStand(es[..n], timeouts, k, id);
      assert es[..n][..k] == es[..k];
      if id in Run(es[..n], timeouts).requests {
        StepMovesOn(Run(es[..n], timeouts), es[n], timeouts, id);
      }
    }
  }

  /** What a step leaves of the row of request `id`, if it holds it still. */
  ghost predicate StillMovesOn(t: Table, t': Table, id: nat, q: Request) {
    Held(t', id, q) ==> Held(t, id, q) && MovesOn(t.entries[q.mid], t'.entries[q.mid])
  }

  lemma DispatchMovesOn(s: System, other: nat, q: Request, timeouts: Timeouts, now: nat, id: nat)
    requires Can(s, Dispatched(other, q, now)) && id in s.requests
    ensures StillMovesOn(s.table, Dispatch(s.table, q.mid, other, q.command, q.reply, Fresh(q), q.hook, timeouts, now),
                         id, s.requests[id])
  {
  }

  lemma ArrivalMovesOn(t: Table, frame: Frame, timeouts: Timeouts, now: nat, id: nat, q: Request)
    requires Indexed(t)
    ensures StillMovesOn(t, Accept(t, frame, timeouts, now).table, id, q)
  {
    if q.mid in t.entries {
      AcceptMovesOn(t, frame, timeouts, now, q.mid);
    } else if Routes(t, frame) {
      AcceptMovesOn(t, frame, timeouts, now, frame.mid);
    } else {
      AcceptElsewhere(t, frame, timeouts, now);
    }
  }

  lemma StepMovesOn(s: System, e: Event, timeouts: Timeouts, id: nat)
    requires Indexed(s.table) && Can(s, e) && id in s.requests
    ensures var s' := After(s, e, timeouts);
      && id in s'.requests && s'.requests[id] == s.requests[id]
      && StillMovesOn(s.table, s'.table, id, s.requests[id])
  {
    match e
    case Dispatched(other, q, now) => DispatchMovesOn(s, other, q, timeouts, now, id);
    case Arrived(frame, _, now) => ArrivalMovesOn(s.table, frame, timeouts, now, id, s.requests[id]);
    case Ticked(now) => ExpireMovesOn(s.table, timeouts, now, s.requests[id].mid);
  }

  /** Once the timers have run, no id is held by a request past its deadlines:
      what was on the wire past one has lapsed, and what had lapsed past its
      give-up time is retired. */
  lemma TickReleasesOverdue(s: System, timeouts: Timeouts, now: nat, id: nat)
    requires Indexed(s.table) && id in s.requests
    requires After(s, Ticked(now), timeouts).failure.None?
    ensures var s' := After(s, Ticked(now), timeouts);
      Held(s'.table, id, s.requests[id]) ==>
        match s'.table.entries[s.requests[id].mid].state
        case OnWire(_, silenceAt, overallAt) => now < silenceAt && now < overallAt
        case Lapsed(giveUpAt) => now < giveUpAt
        case Retired => true
  {
    E.ExpireIsPointwise(s.table, timeouts, now);
    var s' := After(s, Ticked(now), timeouts);
    if Held(s'.table, id, s.requests[id]) {
      assert !E.Overdue(s'.table.entries[s.requests[id].mid], now);
    }
  }
}
