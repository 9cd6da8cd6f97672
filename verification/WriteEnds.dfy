/** What becomes of a request from the moment a caller queues it, and of a write
    whose chunks are such requests: the connection, the table and the progress
    handle taken together, against any server. */
module WriteEnds {
  import opened Wrappers
  import opened Table
  import opened TableIndex
  import TR = TableRuns
  import TO = TableOutcomes
  import opened Actor
  import opened ActorRuns
  import P = Progress
  import C = Coverage

  // ---- From the queue to the table ----

  /** What taking a request from its queue came to: it was given an identity, it was
      refused with an error, as the `at`th that was, or there was no id left for it. */
  datatype Took = Given(id: nat) | Turned(at: nat, error: Error) | Unserved

  /** One of the two queues: that of closes, or that of requests. */
  function Queue(a: Actor, close: bool): seq<Dispatch> {
    if close then a.closes else a.requests
  }

  /** What an action puts in that queue. */
  function PutBy(x: Action, close: bool): seq<Dispatch> {
    if (close && x.QueueClose?) || (!close && x.QueueRequest?) then [x.dispatch] else []
  }

  predicate Takes(x: Action, close: bool) {
    if close then x.TakeClose? else x.TakeRequest?
  }

  /** The requests that were put in that queue. */
  function Asked(xs: seq<Action>, close: bool): seq<Dispatch> {
    if |xs| == 0 then [] else Asked(xs[..|xs| - 1], close) + PutBy(xs[|xs| - 1], close)
  }

  /** What an action came to for the request it took from that queue, if it took one. */
  function TookBy(a: Actor, x: Action, close: bool): seq<Took> {
    if !Takes(x, close) then []
    else if x.how.Abandoned? then [Turned(|a.refused|, Lost)]
    else if x.mid.None? then [Unserved]
    else if x.how.Unframed? then [Turned(|a.refused|, Error.Wire)]
    else [Given(a.serial)]
  }

  /** What taking each of them came to, for those that were taken: the queue gives
      them out in order. */
  ghost function Tooks(limit: nat, timeouts: Timeouts, xs: seq<Action>, close: bool): seq<Took>
    requires Possible(limit, timeouts, xs)
  {
    if |xs| == 0 then []
    else
      var before := xs[..|xs| - 1];
      Tooks(limit, timeouts, before, close) + TookBy(Reached(limit, timeouts, before), xs[|xs| - 1], close)
  }

  /** The dispatch is the one being written, and no byte of it has been. */
  predicate BeingWritten(a: Actor, id: nat, d: Dispatch) {
    && a.writing.Some? && a.writing.value.queued.Some?
    && a.writing.value.queued.value.id == id && a.writing.value.queued.value.dispatch == d
  }

  /** The dispatch has become request `id` of the table, arranged as it was. */
  ghost predicate Entered(s: TR.System, id: nat, d: Dispatch) {
    id in s.requests && s.requests[id].hook == d.hook && s.requests[id].reply == d.reply
  }

  ghost predicate Stands(s: TR.System, a: Actor, d: Dispatch, took: Took) {
    match took
    case Given(id) => id < a.serial && (BeingWritten(a, id, d) || Entered(s, id, d))
    case Turned(at, error) => at < |a.refused| && a.refused[at].dispatch == d && a.refused[at].error == error
    case Unserved => a.down == Some(PoolExhausted)
  }

  /** Those not taken are queued still, and each of the others stands where taking it
      has brought it, by itself. */
  ghost predicate Follows(s: TR.System, a: Actor, asked: seq<Dispatch>, tooks: seq<Took>, queue: seq<Dispatch>) {
    && |tooks| <= |asked| && asked[|tooks|..] == queue
    && (forall i :: 0 <= i < |tooks| ==> Stands(s, a, asked[i], tooks[i]))
    && (forall i, j :: 0 <= i < j < |tooks| && tooks[i] == tooks[j] ==> tooks[i].Unserved?)
  }

  /** Every request stands after a step where it stood before. */
  ghost predicate StandsOn(s: TR.System, a: Actor, s': TR.System, a': Actor) {
    forall d, took :: Stands(s, a, d, took) ==> Stands(s', a', d, took)
  }

  /** Steps about no request taken, and about no byte of one written. */
  lemma ElsewhereStands(s: TR.System, a: Actor, s': TR.System, a': Actor)
    requires a.down.None? && a'.serial == a.serial && a'.writing == a.writing && a'.refused == a.refused
    requires forall id :: id in s.requests ==> id in s'.requests && s'.requests[id] == s.requests[id]
    ensures StandsOn(s, a, s', a')
  {
  }

  /** The table's record after an action. */
  ghost function RecordAfter(s: TR.System, a: Actor, x: Action): TR.System
    requires Ready(a) && Enabled(a, x) && Agrees(s, a)
  {
    ActAgrees(s, a, x);
    if Events(a, x) == [] then s else TR.After(s, Events(a, x)[0], a.timeouts)
  }

  /** Nothing but dispatching adds to the requests of the table, and nothing takes
      from them. */
  lemma RequestsStay(s: TR.System, a: Actor, x: Action)
    requires Ready(a) && Enabled(a, x) && Agrees(s, a) && !x.BytesWritten?
    ensures RecordAfter(s, a, x).requests == s.requests
  {
  }

  lemma RouteKeepsWriting(a: Actor, frame: Frame, now: nat)
    requires RowsValid(a.table.entries)
    ensures Route(a, frame, now).writing == a.writing
  {
  }

  lemma WritingStays(a: Actor, x: Action)
    requires Ready(a) && Enabled(a, x) && !x.BytesWritten? && !x.TakeClose? && !x.TakeRequest?
    ensures Act(a, x).writing == a.writing
  {
    if x.FrameIn? {
      RouteKeepsWriting(a.(offer := None), x.frame, x.now);
    }
  }

  lemma OthersStand(s: TR.System, a: Actor, x: Action)
    requires Ready(a) && Enabled(a, x) && Agrees(s, a)
    requires !x.BytesWritten? && !x.TakeClose? && !x.TakeRequest?
    ensures StandsOn(s, a, RecordAfter(s, a, x), Act(a, x))
  {
    RequestsStay(s, a, x);
    WritingStays(a, x);
    ElsewhereAccounts(a, x);
    ElsewhereStands(s, a, RecordAfter(s, a, x), Act(a, x));
  }

  /** A dispatch whose first byte is written is a request of the table from then on. */
  lemma WrittenEnters(s: TR.System, a: Actor, x: Action)
    requires Ready(a) && Enabled(a, x) && Agrees(s, a) && x.BytesWritten? && Events(a, x) != []
    ensures var q, s' := a.writing.value.queued.value, RecordAfter(s, a, x);
      && Entered(s', q.id, q.dispatch)
      && (forall id :: id in s.requests ==> id in s'.requests && s'.requests[id] == s.requests[id])
  {
    DispatchIsPossible(s, a, x);
  }

  lemma WrittenLeaves(s: TR.System, a: Actor, x: Action)
    requires Ready(a) && Enabled(a, x) && Agrees(s, a) && x.BytesWritten?
    ensures Act(a, x).serial == a.serial && Act(a, x).refused == a.refused
    ensures Events(a, x) == [] ==>
      RecordAfter(s, a, x) == s && forall id, d :: BeingWritten(a, id, d) ==> BeingWritten(Act(a, x), id, d)
  {
  }

  lemma EnteringStands(s: TR.System, a: Actor, s': TR.System, a': Actor)
    requires a.down.None? && a'.serial == a.serial && a'.refused == a.refused
    requires a.writing.Some? && a.writing.value.queued.Some?
    requires Entered(s', a.writing.value.queued.value.id, a.writing.value.queued.value.dispatch)
    requires forall id :: id in s.requests ==> id in s'.requests && s'.requests[id] == s.requests[id]
    ensures StandsOn(s, a, s', a')
  {
  }

  lemma QuietStands(s: TR.System, a: Actor, a': Actor)
    requires a.down.None? && a'.serial == a.serial && a'.refused == a.refused
    requires forall id, d :: BeingWritten(a, id, d) ==> BeingWritten(a', id, d)
    ensures StandsOn(s, a, s, a')
  {
  }

  lemma WritesStand(s: TR.System, a: Actor, x: Action)
    requires Ready(a) && Enabled(a, x) && Agrees(s, a) && x.BytesWritten?
    ensures StandsOn(s, a, RecordAfter(s, a, x), Act(a, x))
  {
    WrittenLeaves(s, a, x);
    if Events(a, x) != [] {
      WrittenEnters(s, a, x);
      EnteringStands(s, a, RecordAfter(s, a, x), Act(a, x));
    } else {
      QuietStands(s, a, Act(a, x));
    }
  }

  /** Beginning a request, when none is being written. */
  lemma BeginStands(s: TR.System, a: Actor, d: Dispatch, how: Framing, mid: Option<nat>)
    requires a.down.None? && a.writing.None?
    ensures StandsOn(s, a, s, Begin(a, d, how, mid))
  {
    forall e, took | Stands(s, a, e, took)
      ensures Stands(s, Begin(a, d, how, mid), e, took)
    {
    }
  }

  lemma TakesStand(s: TR.System, a: Actor, x: Action)
    requires Ready(a) && Enabled(a, x) && Agrees(s, a) && (x.TakeClose? || x.TakeRequest?)
    ensures RecordAfter(s, a, x) == s && StandsOn(s, a, s, Act(a, x))
  {
    if x.TakeClose? {
      BeginStands(s, WithoutClose(a), a.closes[0], x.how, x.mid);
      assert StandsOn(s, a, s, WithoutClose(a));
    } else {
      BeginStands(s, WithoutRequest(a), a.requests[0], x.how, x.mid);
      assert StandsOn(s, a, s, WithoutRequest(a));
    }
  }

  lemma ActStands(s: TR.System, a: Actor, x: Action)
    requires Ready(a) && Enabled(a, x) && Agrees(s, a)
    ensures StandsOn(s, a, RecordAfter(s, a, x), Act(a, x))
  {
    if x.BytesWritten? {
      WritesStand(s, a, x);
    } else if x.TakeClose? || x.TakeRequest? {
      TakesStand(s, a, x);
    } else {
      OthersStand(s, a, x);
    }
  }

  /** The request taken stands where taking it brought it, where none stood before. */
  lemma TakenStands(s: TR.System, a: Actor, x: Action, close: bool)
    requires Ready(a) && Enabled(a, x) && Takes(x, close)
    ensures |TookBy(a, x, close)| == 1 && |Queue(a, close)| > 0
    ensures Stands(s, Act(a, x), Queue(a, close)[0], TookBy(a, x, close)[0])
    ensures forall d :: Stands(s, a, d, TookBy(a, x, close)[0]) ==> TookBy(a, x, close)[0].Unserved?
  {
    if close {
      BegunStands(s, WithoutClose(a), a.closes[0], x.how, x.mid);
    } else {
      BegunStands(s, WithoutRequest(a), a.requests[0], x.how, x.mid);
    }
  }

  lemma BegunStands(s: TR.System, a: Actor, d: Dispatch, how: Framing, mid: Option<nat>)
    requires a.down.None?
    ensures Stands(s, Begin(a, d, how, mid), d,
      if how.Abandoned? then Turned(|a.refused|, Lost)
      else if mid.None? then Unserved
      else if how.Unframed? then Turned(|a.refused|, Error.Wire)
      else Given(a.serial))
  {
  }

  predicate SameQueues(a: Actor, b: Actor) {
    b.requests == a.requests && b.closes == a.closes && b.requestsDone == a.requestsDone && b.closesDone == a.closesDone
  }

  lemma BeginKeepsQueues(a: Actor, d: Dispatch, how: Framing, mid: Option<nat>)
    ensures SameQueues(a, Begin(a, d, how, mid))
  {
  }

  lemma RouteKeepsQueues(a: Actor, frame: Frame, now: nat)
    requires RowsValid(a.table.entries)
    ensures SameQueues(a, Route(a, frame, now))
  {
  }

  /** What taking a request leaves of the queues. */
  lemma QueueAfterTake(a: Actor, x: Action, close: bool)
    requires Ready(a) && Enabled(a, x) && (x.TakeClose? || x.TakeRequest?)
    ensures Queue(Act(a, x), close) == if Takes(x, close) then Queue(a, close)[1..] else Queue(a, close)
    ensures Act(a, x).requestsDone == a.requestsDone && Act(a, x).closesDone == a.closesDone
  {
    if x.TakeClose? {
      BeginKeepsQueues(WithoutClose(a), a.closes[0], x.how, x.mid);
    } else {
      BeginKeepsQueues(WithoutRequest(a), a.requests[0], x.how, x.mid);
    }
  }

  /** What an action leaves in the queues. */
  lemma QueueAfter(a: Actor, x: Action, close: bool)
    requires Ready(a) && Enabled(a, x)
    ensures Queue(Act(a, x), close) ==
      if Takes(x, close) then Queue(a, close)[1..] else Queue(a, close) + PutBy(x, close)
    ensures Act(a, x).requestsDone <==> a.requestsDone || x.RequestsGone?
    ensures Act(a, x).closesDone <==> a.closesDone || x.ClosesGone?
  {
    if x.TakeClose? || x.TakeRequest? {
      QueueAfterTake(a, x, close);
    } else if x.FrameIn? {
      RouteKeepsQueues(a.(offer := None), x.frame, x.now);
    } else {
      QueueAfterOther(a, x, close);
    }
  }

  lemma QueueAfterOther(a: Actor, x: Action, close: bool)
    requires Indexed(a.table) && Enabled(a, x) && !x.TakeClose? && !x.TakeRequest? && !x.FrameIn?
    ensures Queue(Act(a, x), close) == Queue(a, close) + PutBy(x, close)
    ensures Act(a, x).requestsDone <==> a.requestsDone || x.RequestsGone?
    ensures Act(a, x).closesDone <==> a.closesDone || x.ClosesGone?
  {
    assert Queue(a, close) + [] == Queue(a, close);
  }

  lemma ActFollows(s: TR.System, a: Actor, x: Action, asked: seq<Dispatch>, tooks: seq<Took>, close: bool)
    requires Ready(a) && Enabled(a, x) && Agrees(s, a) && Follows(s, a, asked, tooks, Queue(a, close))
    ensures Follows(RecordAfter(s, a, x), Act(a, x), asked + PutBy(x, close), tooks + TookBy(a, x, close),
                    Queue(Act(a, x), close))
  {
    var s', a' := RecordAfter(s, a, x), Act(a, x);
    ActStands(s, a, x);
    QueueAfter(a, x, close);
    if Takes(x, close) {
      TakesStand(s, a, x);
      TakenStands(s, a, x, close);
      var took := TookBy(a, x, close)[0];
      assert asked[|tooks|] == Queue(a, close)[0] && asked[|tooks| + 1..] == Queue(a, close)[1..];
      FollowsTaken(s, a, a', asked, tooks, took, Queue(a', close));
      assert asked + [] == asked && tooks + TookBy(a, x, close) == tooks + [took];
    } else {
      FollowsQueued(s, a, s', a', asked, tooks, Queue(a, close), PutBy(x, close));
      assert tooks + [] == tooks;
    }
  }

  lemma FollowsQueued(s: TR.System, a: Actor, s': TR.System, a': Actor, asked: seq<Dispatch>, tooks: seq<Took>,
                      queue: seq<Dispatch>, more: seq<Dispatch>)
    requires Follows(s, a, asked, tooks, queue) && StandsOn(s, a, s', a')
    ensures Follows(s', a', asked + more, tooks, queue + more)
  {
    assert (asked + more)[|tooks|..] == asked[|tooks|..] + more;
  }

  lemma FollowsTaken(s: TR.System, a: Actor, a': Actor, asked: seq<Dispatch>, tooks: seq<Took>, took: Took,
                     queue: seq<Dispatch>)
    requires |tooks| < |asked| && Follows(s, a, asked, tooks, asked[|tooks|..]) && StandsOn(s, a, s, a')
    requires Stands(s, a', asked[|tooks|], took) && forall d :: Stands(s, a, d, took) ==> took.Unserved?
    requires asked[|tooks| + 1..] == queue
    ensures Follows(s, a', asked, tooks + [took], queue)
  {
    var tooks' := tooks + [took];
    forall i, j | 0 <= i < j < |tooks'| && tooks'[i] == tooks'[j]
      ensures tooks'[i].Unserved?
    {
      assert Stands(s, a, asked[i], tooks[i]);
    }
  }

  /** **Every request queued stands where the run has brought it**, in either queue: it
      is there still, was refused, is being written, is in the table under an identity of
      its own, or was taken when there was no id left. */
  lemma {:induction false} RunFollows(limit: nat, timeouts: Timeouts, xs: seq<Action>, close: bool)
    requires Possible(limit, timeouts, xs)
    ensures TR.Possible(TableEvents(limit, timeouts, xs), timeouts)
    ensures Follows(TR.Run(TableEvents(limit, timeouts, xs), timeouts), Reached(limit, timeouts, xs),
                    Asked(xs, close), Tooks(limit, timeouts, xs, close), Queue(Reached(limit, timeouts, xs), close))
  {
    ActorRunsAreTableRuns(limit, timeouts, xs);
    if |xs| > 0 {
      var n := |xs| - 1;
      var a, es := Reached(limit, timeouts, xs[..n]), TableEvents(limit, timeouts, xs[..n]);
      RunFollows(limit, timeouts, xs[..n], close);
      ActorRunsAreTableRuns(limit, timeouts, xs[..n]);
      ActFollows(TR.Run(es, timeouts), a, xs[n], Asked(xs[..n], close), Tooks(limit, timeouts, xs[..n], close), close);
      RecordRuns(limit, timeouts, xs);
    }
  }

  lemma RecordRuns(limit: nat, timeouts: Timeouts, xs: seq<Action>)
    requires Possible(limit, timeouts, xs) && |xs| > 0
    requires TR.Possible(TableEvents(limit, timeouts, xs), timeouts)
    ensures var n := |xs| - 1;
      var es, a := TableEvents(limit, timeouts, xs[..n]), Reached(limit, timeouts, xs[..n]);
      && TR.Possible(es, timeouts) && Agrees(TR.Run(es, timeouts), a)
      && TR.Run(TableEvents(limit, timeouts, xs), timeouts) == RecordAfter(TR.Run(es, timeouts), a, xs[n])
  {
    var n := |xs| - 1;
    var es, a := TableEvents(limit, timeouts, xs[..n]), Reached(limit, timeouts, xs[..n]);
    ActorRunsAreTableRuns(limit, timeouts, xs[..n]);
    ActAgrees(TR.Run(es, timeouts), a, xs[n]);
    var events := Events(a, xs[n]);
    if events == [] {
      assert es + events == es;
    } else {
      assert events == [events[0]];
      assert (es + events)[..|es|] == es;
    }
  }

  // ---- Every request queued ends once ----

  /** How a request has ended once the connection is over: dropped with what held it,
      refused before the wire, or from the table. */
  datatype Fate = Dropped | RefusedAs(at: nat) | EndedAs(id: nat)

  function FateOf(a: Actor, asked: seq<Dispatch>, tooks: seq<Took>, i: nat): Fate
    requires i < |asked|
  {
    if i >= |tooks| || tooks[i].Unserved? then Dropped
    else if tooks[i].Turned? then RefusedAs(tooks[i].at)
    else if BeingWritten(a, tooks[i].id, asked[i]) then Dropped
    else EndedAs(tooks[i].id)
  }

  /** A connection that is over: the requests queued on it and the fate of each, the
      refusals, and the ends of the requests of its table, those still held having
      been ended in the order given. */
  datatype Ending = Ending(asked: seq<Dispatch>, fates: seq<Fate>, refused: seq<Refused>, log: seq<Ended>)

  ghost function EndingOf(limit: nat, timeouts: Timeouts, xs: seq<Action>, order: seq<nat>, close: bool): Ending
    requires Possible(limit, timeouts, xs) && Enumerates(order, Reached(limit, timeouts, xs).table.entries.Keys)
  {
    var a, asked, tooks := Reached(limit, timeouts, xs), Asked(xs, close), Tooks(limit, timeouts, xs, close);
    Ending(asked, seq(|asked|, i requires 0 <= i < |asked| => FateOf(a, asked, tooks, i)), a.refused,
           FailAll(a.table, order).log)
  }

  /** The log has one end of request `id`, which went where it was arranged to. */
  ghost predicate EndedOnce(log: seq<Ended>, id: nat, d: Dispatch) {
    && TR.Times(log, id) == 1
    && forall k :: 0 <= k < |log| && log[k].request == id ==> log[k].hook == d.hook && log[k].reply == d.reply
  }

  /** Nothing but what drops it ends the request: it is in the queue still, no byte of
      it has been written, or there was no id for it. */
  ghost predicate NeverSent(a: Actor, d: Dispatch) {
    || d in a.requests || d in a.closes
    || (exists id :: BeingWritten(a, id, d)) || a.down == Some(PoolExhausted)
  }

  /** **Every request ends once, from the queue on**: over any run of the actor, against
      any server, and the failure that ends it, each request a caller queued has one
      fate of its own. It was never sent, and goes with what holds it; it was refused,
      and told; or it ended in the table, once, as it was arranged to. */
  lemma QueuedRequestEndsOnce(limit: nat, timeouts: Timeouts, xs: seq<Action>, order: seq<nat>, close: bool, i: nat)
    requires Possible(limit, timeouts, xs) && Enumerates(order, Reached(limit, timeouts, xs).table.entries.Keys)
    requires i < |Asked(xs, close)|
    ensures var a, e := Reached(limit, timeouts, xs), EndingOf(limit, timeouts, xs, order, close);
      && |e.fates| == |e.asked|
      && (match e.fates[i]
          case Dropped => NeverSent(a, e.asked[i])
          case RefusedAs(at) => at < |e.refused| && e.refused[at].dispatch == e.asked[i] && Told(e.refused[at])
          case EndedAs(id) => EndedOnce(e.log, id, e.asked[i]))
      && (forall j :: 0 <= j < |e.fates| && j != i && e.fates[j] == e.fates[i] ==> e.fates[i].Dropped?)
  {
    var a, asked, tooks := Reached(limit, timeouts, xs), Asked(xs, close), Tooks(limit, timeouts, xs, close);
    var es := TableEvents(limit, timeouts, xs);
    RunFollows(limit, timeouts, xs, close);
    ActorRunsAreTableRuns(limit, timeouts, xs);
    RefusedWereTold(limit, timeouts, xs);
    FateHolds(TR.Run(es, timeouts), a, asked, tooks, close, i);
    var fate := FateOf(a, asked, tooks, i);
    if fate.EndedAs? {
      TO.EveryRequestEndsOnce(es, timeouts, order, fate.id);
    }
    forall j | 0 <= j < |asked| && j != i && FateOf(a, asked, tooks, j) == fate
      ensures fate.Dropped?
    {
      OwnFate(TR.Run(es, timeouts), a, asked, tooks, close, i, j);
    }
  }

  /** What the fate of a request says of where it stands. */
  lemma FateHolds(s: TR.System, a: Actor, asked: seq<Dispatch>, tooks: seq<Took>, close: bool, i: nat)
    requires Follows(s, a, asked, tooks, Queue(a, close)) && i < |asked|
    ensures match FateOf(a, asked, tooks, i)
      case Dropped => NeverSent(a, asked[i])
      case RefusedAs(at) => at < |a.refused| && a.refused[at].dispatch == asked[i]
      case EndedAs(id) => Entered(s, id, asked[i])
  {
    if i >= |tooks| {
      assert Queue(a, close)[i - |tooks|] == asked[i];
    } else {
      assert Stands(s, a, asked[i], tooks[i]);
    }
  }

  lemma OwnFate(s: TR.System, a: Actor, asked: seq<Dispatch>, tooks: seq<Took>, close: bool, i: nat, j: nat)
    requires Follows(s, a, asked, tooks, Queue(a, close)) && i < |asked| && j < |asked| && i != j
    requires FateOf(a, asked, tooks, i) == FateOf(a, asked, tooks, j)
    ensures FateOf(a, asked, tooks, i).Dropped?
  {
    if i < |tooks| && j < |tooks| && tooks[i] == tooks[j] {
      assert i < j || j < i;
    }
  }

  // ---- A write whose chunks are such requests ----

  /** What an end acknowledges; `count` reads it off a reply. */
  function AcknowledgedBy(outcome: Result<Reply, Error>, count: Reply -> Option<nat>): Option<nat> {
    if outcome.Ok? && outcome.value.frame.status == Success then count(outcome.value) else None
  }

  /** A hook was called: what was acknowledged is recorded, and then the ticket is
      marked, whatever falls between. */
  ghost predicate Applied(steps: seq<P.Step>, ticket: nat, acknowledged: Option<nat>) {
    exists j, k :: 0 <= j < k < |steps| && steps[j] == P.Record(ticket, acknowledged) && steps[k] == P.Mark(ticket)
  }

  /** The `k`th end of the log is of request `id`, and its hook was called. */
  ghost predicate Calls(log: seq<Ended>, k: int, id: nat) {
    0 <= k < |log| && log[k].request == id && log[k].hook
  }

  /** What becomes of the `i`th request reaches the handle under its ticket: the hook
      is called at every end that says so, and dropping the request drops the ticket. */
  ghost predicate Reaches(e: Ending, i: nat, ticket: nat, count: Reply -> Option<nat>, steps: seq<P.Step>)
    requires i < |e.fates|
  {
    match e.fates[i]
    case Dropped => P.Mark(ticket) in steps
    case RefusedAs(at) => at < |e.refused| && e.refused[at].hook ==> Applied(steps, ticket, None)
    case EndedAs(id) =>
      forall k :: Calls(e.log, k, id) ==> Applied(steps, ticket, AcknowledgedBy(e.log[k].outcome, count))
  }

  /** The requests at `tickets` are chunks of one write, with those tickets of its
      handle, whose steps are `steps`. */
  ghost predicate CarriesWrite(e: Ending, tickets: map<nat, nat>, count: Reply -> Option<nat>, steps: seq<P.Step>) {
    forall i :: i in tickets ==>
      i < |e.asked| && i < |e.fates| && e.asked[i].hook && Reaches(e, i, tickets[i], count, steps)
  }

  lemma EndedOnceCalls(log: seq<Ended>, id: nat, d: Dispatch) returns (k: nat)
    requires EndedOnce(log, id, d) && d.hook
    ensures Calls(log, k, id)
  {
    if forall k :: 0 <= k < |log| ==> log[k].request != id {
      TR.TimesNone(log, id);
    }
    k :| 0 <= k < |log| && log[k].request == id;
  }

  /** Whatever the fate of a chunk's request, its ticket is marked. */
  lemma ChunkLeaves(limit: nat, timeouts: Timeouts, xs: seq<Action>, order: seq<nat>, i: nat, ticket: nat,
                    count: Reply -> Option<nat>, steps: seq<P.Step>)
    requires Possible(limit, timeouts, xs) && Enumerates(order, Reached(limit, timeouts, xs).table.entries.Keys)
    requires i < |Asked(xs, false)| && Asked(xs, false)[i].hook
    requires Reaches(EndingOf(limit, timeouts, xs, order, false), i, ticket, count, steps)
    ensures P.Mark(ticket) in steps
  {
    var e := EndingOf(limit, timeouts, xs, order, false);
    QueuedRequestEndsOnce(limit, timeouts, xs, order, false, i);
    if e.fates[i].EndedAs? {
      var k := EndedOnceCalls(e.log, e.fates[i].id, e.asked[i]);
      assert Applied(steps, ticket, AcknowledgedBy(e.log[k].outcome, count));
    }
  }

  /** **A write is never left waiting**: once the connection that carried its chunks is
      over, whatever the server sent and however the handle's steps fell, and the write
      has dropped its guard and the chunks it never queued, every ticket has left, and
      those at work on the handle need only finish for the prefix to be final and the
      signal to go out. */
  lemma WriteSettles(limit: nat, timeouts: Timeouts, xs: seq<Action>, order: seq<nat>, tickets: map<nat, nat>,
                     count: Reply -> Option<nat>, steps: seq<P.Step>)
    returns (rest: seq<P.Step>)
    requires Possible(limit, timeouts, xs) && Enumerates(order, Reached(limit, timeouts, xs).table.entries.Keys)
    requires P.Possible(P.NEW, steps) && P.ClearIssuing in steps
    requires CarriesWrite(EndingOf(limit, timeouts, xs, order, false), tickets, count, steps)
    requires forall t :: t in P.After(P.NEW, steps).tickets ==> t in tickets.Values || P.Mark(t) in steps
    ensures P.Live(P.After(P.NEW, steps).tickets) == {}
    ensures P.Possible(P.After(P.NEW, steps), rest)
    ensures forall j :: 0 <= j < |rest| ==> rest[j] in {P.CountOut, P.Settle, P.Signal}
    ensures var s := P.After(P.After(P.NEW, steps), rest); s.signalled && s.finalPrefix.Some?
  {
    var s := P.After(P.NEW, steps);
    P.NewIsSound();
    P.ProgressOnlyMovesOn(P.NEW, steps);
    P.ClearingStops(P.NEW, steps);
    forall t | t in s.tickets
      ensures s.tickets[t].applied
    {
      if t in tickets.Values {
        var i :| i in tickets && tickets[i] == t;
        ChunkLeaves(limit, timeouts, xs, order, i, t, count, steps);
      }
      P.MarkingMarks(P.NEW, steps, t);
    }
    rest := P.FinishingSignals(s);
    P.ProgressOnlyMovesOn(s, rest);
  }

  /** The handle records nothing but what the hooks of those requests were called with. */
  ghost predicate RecordsCalls(e: Ending, tickets: map<nat, nat>, count: Reply -> Option<nat>, steps: seq<P.Step>) {
    forall j :: 0 <= j < |steps| && steps[j].Record? ==>
      exists i :: Says(e, tickets, count, i, steps[j].id, steps[j].acknowledged)
  }

  ghost predicate Says(e: Ending, tickets: map<nat, nat>, count: Reply -> Option<nat>, i: nat, ticket: nat,
                       acknowledged: Option<nat>) {
    && i in tickets && tickets[i] == ticket && i < |e.fates|
    && match e.fates[i]
       case Dropped => false
       case RefusedAs(_) => acknowledged == None
       case EndedAs(id) =>
         exists k :: Calls(e.log, k, id) && acknowledged == AcknowledgedBy(e.log[k].outcome, count)
  }

  /** Byte `q` of the handle is one that the reply to the `i`th request, the end at `k`,
      acknowledged, of those its chunk offered. */
  ghost predicate RepliedTo(e: Ending, tickets: map<nat, nat>, count: Reply -> Option<nat>, s: P.State,
                            i: nat, k: nat, q: int) {
    && i in tickets && tickets[i] in s.tickets && i < |e.fates| && e.fates[i].EndedAs?
    && Calls(e.log, k, e.fates[i].id)
    && e.log[k].outcome.Ok? && e.log[k].outcome.value.frame.status == Success
    && q in P.Acknowledged(s, s.tickets[tickets[i]], count(e.log[k].outcome.value))
  }

  /** **The prefix is of bytes the server acknowledged**, from the socket to the handle:
      each byte of it was acknowledged by a successful reply with which the table ended
      the request of a chunk that offered the byte there. */
  lemma PrefixIsOfReplies(e: Ending, tickets: map<nat, nat>, count: Reply -> Option<nat>, steps: seq<P.Step>, q: int)
    returns (i: nat, k: nat)
    requires P.Possible(P.NEW, steps) && RecordsCalls(e, tickets, count, steps)
    requires 0 <= q < P.Written(P.After(P.NEW, steps))
    ensures RepliedTo(e, tickets, count, P.After(P.NEW, steps), i, k, q)
  {
    P.NewIsSound();
    P.WrittenIsAcknowledged(steps);
    assert q in C.Span(0, P.Written(P.After(P.NEW, steps)));
    var j := P.RecordedSomewhere(P.NEW, steps, q);
    i :| Says(e, tickets, count, i, steps[j].id, steps[j].acknowledged);
    k :| Calls(e.log, k, e.fates[i].id) && steps[j].acknowledged == AcknowledgedBy(e.log[k].outcome, count);
  }
}
