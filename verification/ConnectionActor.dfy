/** The actor as the connection task runs it: one object that owns the request
    table, updated in place by each arm of its loop. Every method is proved to
    take the step of `Actor` it stands for. */
module InPlaceActor {
  import opened Wrappers
  import opened Table
  import A = Actor
  import Runs = ActorRuns
  import T = InPlaceTable

  class ConnectionActor {
    const table: T.RequestTable
    var writing: Option<A.Writing>
    var requests: seq<A.Dispatch>
    var closes: seq<A.Dispatch>
    var requestsDone: bool
    var closesDone: bool
    var silentFor: nat
    var waitingSince: Option<nat>
    var consecutiveCloses: nat
    var offer: Option<A.Offer>
    /** The identities given out so far. */
    var serial: nat
    /** The last reading of the clock. */
    var clock: nat
    /** The requests that ended before they reached the wire. */
    ghost var refused: seq<A.Refused>
    /** What each reading of the clock found. */
    ghost var history: seq<A.Beat>

    ghost function State(down: Option<Error>): A.Actor
      reads this, table
    {
      A.Actor(table.State(), table.limit, table.timeouts, writing, requests, closes, requestsDone, closesDone,
              silentFor, waitingSince, consecutiveCloses, serial, refused, offer, clock, history, down)
    }

    ghost predicate Valid()
      reads this, table
    {
      table.Valid()
    }

    constructor (limit: nat, timeouts: Timeouts)
      ensures Valid() && fresh(table)
      ensures State(None) == A.Start(limit, timeouts, 0)
    {
      table := new T.RequestTable(limit, timeouts);
      writing, requests, closes, requestsDone, closesDone := None, [], [], false, false;
      silentFor, waitingSince, consecutiveCloses, offer := 0, None, 0, None;
      serial, clock, refused, history := 0, 0, [], [];
    }

    method SilentFor(now: nat) returns (silent: nat)
      requires Valid()
      ensures silent == A.SilentFor(State(None), now)
    {
      silent := silentFor;
      if waitingSince.Some? && waitingSince.value <= now {
        silent := silent + (now - waitingSince.value);
      }
    }

    /** When the loop next has a timer to fire. */
    method NextWake() returns (wake: Option<nat>)
      requires Valid()
      ensures wake == A.NextWake(State(None))
    {
      var silence := None;
      if waitingSince.Some? {
        var left := if silentFor <= table.timeouts.overall then table.timeouts.overall - silentFor else 0;
        silence := Some(waitingSince.value + left);
      }
      var expiry := table.NextExpiry();
      match (expiry, silence)
      case (Some(x), Some(y)) => return Some(if x <= y then x else y);
      case (Some(_), None) => return expiry;
      case (None, _) => return silence;
    }

    /** The silence clock moves on to `now`, as the step says. */
    method NoteWaiting(now: nat, ghost answered: bool)
      requires Valid()
      modifies this`silentFor, this`waitingSince, this`clock, this`history
      ensures Valid()
      ensures forall down :: State(down) == A.Noted(old(State(down)), now, answered)
    {
      if waitingSince.None? && table.charging > 0 {
        waitingSince := Some(now);
      } else if waitingSince.Some? && table.charging == 0 {
        if waitingSince.value <= now {
          silentFor := silentFor + (now - waitingSince.value);
        }
        waitingSince := None;
      }
      clock, history := now, history + [A.Beat(now, answered, table.charging > 0)];
    }

    /** The head of the loop: decides what this pass is prepared to take. */
    method Arm()
      requires Valid()
      modifies this`consecutiveCloses, this`offer
      ensures Valid() && State(None) == A.Arm(old(State(None)))
    {
      if |requests| == 0 || |closes| == 0 {
        consecutiveCloses := 0;
      }
      var canAdmit := writing.None? && table.charging < table.limit;
      var takeClose := canAdmit && !closesDone && consecutiveCloses < A.CLOSE_RUN;
      var takeRequest := canAdmit && !requestsDone && (consecutiveCloses >= A.CLOSE_RUN || |closes| == 0);
      var wake := NextWake();
      offer := Some(A.Offer(takeClose, takeRequest, wake));
    }

    /** A request leaves its queue, to be refused or written: the step, with the id
        the pool of the table gave. */
    method Begin(d: A.Dispatch, how: A.Framing) returns (failure: Option<Error>, ghost mid: Option<nat>)
      requires Valid() && (how.Abandoned? ==> d.reply)
      modifies this`writing, this`serial, this`refused, table`cursor
      ensures Valid() && A.Framable(table.State(), d, how, mid)
      ensures State(failure) == A.Begin(old(State(None)), d, how, mid)
    {
      mid := None;
      if how.Abandoned? {
        refused := refused + [A.Refused(d, Lost, d.hook, false)];
        return None, mid;
      }
      ghost var a := State(None);
      var given := table.Allocate();
      mid := given;
      assert State(None) == a;
      if given.None? {
        return Some(PoolExhausted), mid;
      }
      if how.Unframed? {
        refused := refused + [A.Refused(d, Error.Wire, d.hook, d.reply)];
        return None, mid;
      }
      writing := Some(A.Writing(how.length, 0, Some(A.Queued(serial, given.value, d))));
      serial := serial + 1;
      return None, mid;
    }

    /** The arm that takes a close. */
    method TakeClose(how: A.Framing) returns (failure: Option<Error>, ghost x: A.Action)
      requires Valid() && offer.Some? && offer.value.close && closes != [] && (how.Abandoned? ==> closes[0].reply)
      modifies this`offer, this`closes, this`consecutiveCloses, this`writing, this`serial, this`refused, table`cursor
      ensures Valid() && x.TakeClose? && x.how == how && A.Enabled(old(State(None)), x)
      ensures State(failure) == A.Act(old(State(None)), x)
    {
      var d := closes[0];
      closes, offer, consecutiveCloses := closes[1..], None, consecutiveCloses + 1;
      assert State(None) == A.WithoutClose(old(State(None)));
      ghost var mid;
      failure, mid := Begin(d, how);
      x := A.TakeClose(how, mid);
    }

    /** The arm that takes a request. */
    method TakeRequest(how: A.Framing) returns (failure: Option<Error>, ghost x: A.Action)
      requires Valid() && offer.Some? && offer.value.request && requests != []
      requires how.Abandoned? ==> requests[0].reply
      modifies this`offer, this`requests, this`consecutiveCloses, this`writing, this`serial, this`refused, table`cursor
      ensures Valid() && x.TakeRequest? && x.how == how && A.Enabled(old(State(None)), x)
      ensures State(failure) == A.Act(old(State(None)), x)
    {
      var d := requests[0];
      requests, offer, consecutiveCloses := requests[1..], None, 0;
      assert State(None) == A.WithoutRequest(old(State(None)));
      ghost var mid;
      failure, mid := Begin(d, how);
      x := A.TakeRequest(how, mid);
    }

    /** The write step, on the one queue slot that holds the frame. */
    method Wrote(written: nat, now: nat) returns (failure: Option<Error>)
      requires Valid() && Runs.Ready(State(None)) && writing.Some?
      modifies this`writing, this`silentFor, this`waitingSince, this`clock, this`history,
               table`entries, table`expiry, table`charging
      ensures Valid()
      ensures State(failure) == A.Wrote(old(State(None)), written, now)
    {
      if written == 0 {
        return Some(Io);
      }
      var w := writing.value;
      var done := w.cursor + written >= w.length;
      if w.queued.Some? {
        var q := w.queued.value;
        table.Dispatch(q.mid, q.id, q.dispatch.command, q.dispatch.reply, A.Bounded(q.dispatch.bounds),
                       q.dispatch.hook, now);
      }
      writing := if done then None else Some(A.Writing(w.length, w.cursor + written, None));
      NoteWaiting(now, false);
      return None;
    }

    /** Gives one inbound message its outcome. */
    method Route(frame: Frame, now: nat) returns (failure: Option<Error>)
      requires Valid()
      modifies this`silentFor, this`waitingSince, this`clock, this`history,
               table`entries, table`expiry, table`charging, table`retired, table`log
      ensures Valid()
      ensures State(failure) == A.Route(old(State(None)), frame, now)
    {
      if frame.chains.Some? {
        return Some(ChainedResponse(frame.chains.value));
      }
      silentFor, waitingSince := 0, None;
      failure := table.Accept(frame, now);
      if failure.Some? {
        return;
      }
      NoteWaiting(now, true);
      return if frame.status.UserSessionDeleted? then Some(SessionDeleted) else None;
    }

    /** The timer step, in place. */
    method Tick(now: nat) returns (failure: Option<Error>)
      requires Valid()
      modifies this`silentFor, this`waitingSince, this`clock, this`history,
               table`entries, table`expiry, table`charging, table`retired, table`log
      ensures Valid()
      ensures State(failure) == A.Tick(old(State(None)), now)
    {
      var silent := SilentFor(now);
      if waitingSince.Some? && silent >= table.timeouts.overall {
        return Some(Silent);
      }
      failure := table.Expire(now);
      NoteWaiting(now, false);
    }

    /** A handle of the connection queues a dispatch. */
    method Queue(d: A.Dispatch, close: bool) returns (ghost x: A.Action)
      requires Valid() && (if close then !closesDone else !requestsDone)
      modifies this`closes, this`requests
      ensures Valid() && x == if close then A.QueueClose(d) else A.QueueRequest(d)
      ensures A.Enabled(old(State(None)), x) && State(None) == A.Act(old(State(None)), x)
    {
      if close {
        closes, x := closes + [d], A.QueueClose(d);
      } else {
        requests, x := requests + [d], A.QueueRequest(d);
      }
    }

    /** One arm of the loop: what `source` yields, if this pass offered to take it
        from there. `x` is the step of `Actor` that was taken, in which a message
        bears the label `answers`. */
    method Fire(source: Source, ghost answers: nat) returns (failure: Option<Error>, ghost x: A.Action)
      requires Valid() && Runs.Ready(State(None)) && offer.Some?
      modifies this, table
      ensures Valid()
      ensures A.Enabled(old(State(None)), x) && State(failure) == A.Act(old(State(None)), x)
      ensures Yields(old(State(None)), source, answers, x)
    {
      if source.CloseCame? || source.RequestCame? {
        failure, x := FireTaken(source, answers);
      } else if source.Message? {
        failure, x := FireMessage(source, answers);
      } else if source.Accepted? {
        failure, x := FireAccepted(source, answers);
      } else if source.Timer? {
        failure, x := FireTimer(source, answers);
      } else if source.Handle? {
        failure, x := FireHandle(source, answers);
      } else if source.Broken? {
        var error := if source.decoding then Error.Wire else Io;
        failure, offer, x := Some(error), None, A.SocketFailed(error);
      } else {
        failure, x := FireOther(source, answers);
      }
    }

    /** A handle that is still there has queued something. */
    method FireHandle(source: Source, ghost answers: nat) returns (failure: Option<Error>, ghost x: A.Action)
      requires Valid() && Runs.Ready(State(None)) && offer.Some? && source.Handle?
      modifies this`offer, this`closes, this`requests
      ensures Valid()
      ensures A.Enabled(old(State(None)), x) && State(failure) == A.Act(old(State(None)), x)
      ensures Yields(old(State(None)), source, answers, x)
    {
      failure := None;
      if if source.close then closesDone else requestsDone {
        offer, x := None, A.NothingIn;
      } else {
        x := Queue(source.dispatch, source.close);
      }
    }

    /** The arms in which the handles are gone, and the one in which nothing came whole. */
    method FireOther(source: Source, ghost answers: nat) returns (failure: Option<Error>, ghost x: A.Action)
      requires Valid() && Runs.Ready(State(None)) && offer.Some?
      requires source.ClosesHungUp? || source.RequestsHungUp? || source.Nothing?
      modifies this`offer, this`closesDone, this`requestsDone
      ensures Valid()
      ensures A.Enabled(old(State(None)), x) && State(failure) == A.Act(old(State(None)), x)
      ensures Yields(old(State(None)), source, answers, x)
    {
      failure := None;
      match source {
      case ClosesHungUp =>
        if offer.value.close && closes == [] {
          offer, closesDone, x := None, true, A.ClosesGone;
          return;
        }
      case RequestsHungUp =>
        if offer.value.request && requests == [] {
          offer, requestsDone, x := None, true, A.RequestsGone;
          return;
        }
      case _ =>
      }
      offer, x := None, A.NothingIn;
    }

    /** The arms that take from a queue. */
    method FireTaken(source: Source, ghost answers: nat) returns (failure: Option<Error>, ghost x: A.Action)
      requires Valid() && Runs.Ready(State(None)) && offer.Some? && (source.CloseCame? || source.RequestCame?)
      modifies this, table`cursor
      ensures Valid()
      ensures A.Enabled(old(State(None)), x) && State(failure) == A.Act(old(State(None)), x)
      ensures Yields(old(State(None)), source, answers, x)
    {
      var how := source.how;
      if source.CloseCame? && offer.value.close && closes != [] && (how.Abandoned? ==> closes[0].reply) {
        failure, x := TakeClose(how);
      } else if source.RequestCame? && offer.value.request && requests != [] && (how.Abandoned? ==> requests[0].reply) {
        failure, x := TakeRequest(how);
      } else {
        failure, offer, x := None, None, A.NothingIn;
      }
    }

    /** The arm in which something came in. */
    method FireMessage(source: Source, ghost answers: nat) returns (failure: Option<Error>, ghost x: A.Action)
      requires Valid() && Runs.Ready(State(None)) && offer.Some? && source.Message?
      modifies this, table
      ensures Valid()
      ensures A.Enabled(old(State(None)), x) && State(failure) == A.Act(old(State(None)), x)
      ensures Yields(old(State(None)), source, answers, x)
    {
      if clock > source.now {
        failure, offer, x := None, None, A.NothingIn;
        return;
      }
      offer, x := None, A.FrameIn(source.frame, answers, source.now);
      failure := Route(source.frame, source.now);
    }

    /** The arm in which the socket took something. */
    method FireAccepted(source: Source, ghost answers: nat) returns (failure: Option<Error>, ghost x: A.Action)
      requires Valid() && Runs.Ready(State(None)) && offer.Some? && source.Accepted?
      modifies this, table
      ensures Valid()
      ensures A.Enabled(old(State(None)), x) && State(failure) == A.Act(old(State(None)), x)
      ensures Yields(old(State(None)), source, answers, x)
    {
      if clock > source.now || writing.None? {
        failure, offer, x := None, None, A.NothingIn;
        return;
      }
      offer, x := None, A.BytesWritten(source.written, source.now);
      Runs.WithoutOffer(old(State(None)));
      failure := Wrote(source.written, source.now);
    }

    /** The arm of the timer. */
    method FireTimer(source: Source, ghost answers: nat) returns (failure: Option<Error>, ghost x: A.Action)
      requires Valid() && Runs.Ready(State(None)) && offer.Some? && source.Timer?
      modifies this, table
      ensures Valid()
      ensures A.Enabled(old(State(None)), x) && State(failure) == A.Act(old(State(None)), x)
      ensures Yields(old(State(None)), source, answers, x)
    {
      if clock > source.now || offer.value.wake.None? || offer.value.wake.value > source.now {
        failure, offer, x := None, None, A.NothingIn;
        return;
      }
      offer, x := None, A.TimerFired(source.now);
      failure := Tick(source.now);
    }

    /** The loop arms itself, unless it has an offer out. */
    method Prepare(ghost before: seq<A.Action>) returns (ghost armed: seq<A.Action>)
      requires Valid() && Runs.Possible(table.limit, table.timeouts, before)
      requires State(None) == Runs.Reached(table.limit, table.timeouts, before)
      modifies this`consecutiveCloses, this`offer
      ensures Valid() && offer.Some? && armed == Armed(table.limit, table.timeouts, before)
      ensures Runs.Possible(table.limit, table.timeouts, armed)
      ensures State(None) == Runs.Reached(table.limit, table.timeouts, armed)
    {
      armed := before;
      if offer.None? {
        Arm();
        Runs.Next(table.limit, table.timeouts, before, A.ArmLoop);
        armed := before + [A.ArmLoop];
      }
    }

    /** One pass of the loop. */
    method OnePass(source: Source, ghost answers: nat, ghost before: seq<A.Action>)
      returns (failure: Option<Error>, ghost after: seq<A.Action>)
      requires Valid() && Runs.Possible(table.limit, table.timeouts, before)
      requires State(None) == Runs.Reached(table.limit, table.timeouts, before) && !Idle(State(None))
      modifies this, table
      ensures Valid() && Runs.Possible(table.limit, table.timeouts, after)
      ensures State(failure) == Runs.Reached(table.limit, table.timeouts, after)
      ensures Pass(table.limit, table.timeouts, before, after, source, answers)
    {
      ghost var limit, timeouts := table.limit, table.timeouts;
      ghost var armed, x;
      armed := Prepare(before);
      failure, x := Fire(source, answers);
      PassTaken(limit, timeouts, before, source, answers, x);
      after := armed + [x];
    }

    /** The next pass of a script. */
    method NextPass(source: Source, ghost script: seq<Source>, ghost labels: seq<nat>, ghost runs: seq<seq<A.Action>>)
      returns (failure: Option<Error>, done: bool, ghost runs': seq<seq<A.Action>>)
      requires Valid() && Plays(table.limit, table.timeouts, script, labels, runs)
      requires |runs| <= |script| && source == script[|runs| - 1] && !Idle(State(None))
      requires Runs.Possible(table.limit, table.timeouts, runs[|runs| - 1])
      requires State(None) == Runs.Reached(table.limit, table.timeouts, runs[|runs| - 1])
      modifies this, table
      ensures Valid() && Plays(table.limit, table.timeouts, script, labels, runs')
      ensures |runs'| == |runs| + 1 && runs'[0] == runs[0] && Runs.Possible(table.limit, table.timeouts, runs'[|runs|])
      ensures State(failure) == Runs.Reached(table.limit, table.timeouts, runs'[|runs|])
      ensures done <==> Idle(State(None))
    {
      ghost var after;
      failure, after := OnePass(source, labels[|runs| - 1], runs[|runs| - 1]);
      PlaysMore(table.limit, table.timeouts, script, labels, runs, after);
      runs' := runs + [after];
      done := requestsDone && closesDone && writing.None? && table.charging == 0;
    }

    /** The loop, over whatever the sources yield, until they have nothing more, the
        connection fails or, and not before, nothing is left to do. Every pass arms itself, if the last
        one took its arm, and takes the one arm that `script` says; `passes` is how many
        there were, and what comes of them is a run of `ActorRuns`, in which the message
        of `script[i]` bears the label `labels[i]`. Those are no input of the program:
        for each labelling there is such a run, and no-crosstalk holds of the object
        where there is one in which the server keeps its side. */
    method Pump(script: seq<Source>, ghost labels: seq<nat>, ghost past: seq<A.Action>)
      returns (failure: Option<Error>, passes: nat, ghost runs: seq<seq<A.Action>>)
      requires Valid() && Runs.Possible(table.limit, table.timeouts, past) && |labels| == |script|
      requires State(None) == Runs.Reached(table.limit, table.timeouts, past)
      modifies this, table
      ensures passes <= |script| && |runs| == passes + 1 && runs[0] == past
      ensures Plays(table.limit, table.timeouts, script, labels, runs)
      ensures Valid() && Runs.Possible(table.limit, table.timeouts, runs[passes])
      ensures State(failure) == Runs.Reached(table.limit, table.timeouts, runs[passes])
      ensures passes == |script| || failure.Some? || Idle(State(None))
    {
      failure, passes, runs := None, 0, [past];
      var done := requestsDone && closesDone && writing.None? && table.charging == 0;
      while passes < |script| && failure.None? && !done
        invariant passes <= |script| && |runs| == passes + 1 && runs[0] == past
        invariant Plays(table.limit, table.timeouts, script, labels, runs)
        invariant Valid() && Runs.Possible(table.limit, table.timeouts, runs[passes])
        invariant State(failure) == Runs.Reached(table.limit, table.timeouts, runs[passes])
        invariant done <==> Idle(State(None))
      {
        failure, done, runs := NextPass(script[passes], script, labels, runs);
        passes := passes + 1;
      }
    }
  }

  /** Nothing more can be asked of the connection, and it owes nobody anything. */
  ghost predicate Idle(a: A.Actor) {
    a.requestsDone && a.closesDone && a.writing.None? && a.Charging() == 0
  }

  /** What comes of a source, in a pass that offered what `a` says: `x`, or nothing, where
      the pass did not offer to take it or there is nothing to take. */
  ghost predicate Yields(a: A.Actor, source: Source, answers: nat, x: A.Action) {
    a.offer.Some? &&
    match source
    case Handle(d, true) => x == if a.closesDone then A.NothingIn else A.QueueClose(d)
    case Handle(d, false) => x == if a.requestsDone then A.NothingIn else A.QueueRequest(d)
    case CloseCame(how) =>
      if a.offer.value.close && a.closes != [] && (how.Abandoned? ==> a.closes[0].reply) then
        x.TakeClose? && x.how == how
      else x == A.NothingIn
    case RequestCame(how) =>
      if a.offer.value.request && a.requests != [] && (how.Abandoned? ==> a.requests[0].reply) then
        x.TakeRequest? && x.how == how
      else x == A.NothingIn
    case ClosesHungUp => x == if a.offer.value.close && a.closes == [] then A.ClosesGone else A.NothingIn
    case RequestsHungUp => x == if a.offer.value.request && a.requests == [] then A.RequestsGone else A.NothingIn
    case Message(frame, now) => x == if a.clock <= now then A.FrameIn(frame, answers, now) else A.NothingIn
    case Accepted(written, now) =>
      x == if a.clock <= now && a.writing.Some? then A.BytesWritten(written, now) else A.NothingIn
    case Broken(decoding) => x == A.SocketFailed(if decoding then Error.Wire else Io)
    case Timer(now) =>
      x == if a.clock <= now && a.offer.value.wake.Some? && a.offer.value.wake.value <= now then A.TimerFired(now)
           else A.NothingIn
    case Nothing => x == A.NothingIn
  }

  /** The run as it stands when an arm is taken: the loop has armed itself, unless it
      still has an offer out. */
  ghost function Armed(limit: nat, timeouts: Timeouts, before: seq<A.Action>): seq<A.Action>
    requires Runs.Possible(limit, timeouts, before)
  {
    if Runs.Reached(limit, timeouts, before).offer.None? then before + [A.ArmLoop] else before
  }

  /** One pass of a connection that is not idle takes one arm, as the source yields. */
  ghost predicate Pass(limit: nat, timeouts: Timeouts, before: seq<A.Action>, after: seq<A.Action>,
                       source: Source, answers: nat) {
    && Runs.Possible(limit, timeouts, before) && !Idle(Runs.Reached(limit, timeouts, before))
    && (var armed := Armed(limit, timeouts, before);
        && Runs.Possible(limit, timeouts, armed)
        && |after| == |armed| + 1 && after[..|armed|] == armed
        && Yields(Runs.Reached(limit, timeouts, armed), source, answers, after[|armed|]))
  }

  lemma PassTaken(limit: nat, timeouts: Timeouts, before: seq<A.Action>, source: Source, answers: nat, x: A.Action)
    requires Runs.Possible(limit, timeouts, before) && !Idle(Runs.Reached(limit, timeouts, before))
    requires var armed := Armed(limit, timeouts, before);
      && Runs.Possible(limit, timeouts, armed) && A.Enabled(Runs.Reached(limit, timeouts, armed), x)
      && Yields(Runs.Reached(limit, timeouts, armed), source, answers, x)
    ensures var armed := Armed(limit, timeouts, before);
      && Pass(limit, timeouts, before, armed + [x], source, answers)
      && Runs.Possible(limit, timeouts, armed + [x])
      && Runs.Reached(limit, timeouts, armed + [x]) == A.Act(Runs.Reached(limit, timeouts, armed), x)
  {
    var armed := Armed(limit, timeouts, before);
    Runs.Next(limit, timeouts, armed, x);
    assert (armed + [x])[..|armed|] == armed;
  }

  /** Each run goes on from the one before with a pass that takes the next of the
      script's sources. */
  ghost predicate Plays(limit: nat, timeouts: Timeouts, script: seq<Source>, labels: seq<nat>,
                        runs: seq<seq<A.Action>>) {
    && 0 < |runs| <= |script| + 1 && |labels| == |script|
    && forall i :: 0 <= i < |runs| - 1 ==> Pass(limit, timeouts, runs[i], runs[i + 1], script[i], labels[i])
  }

  lemma PlaysMore(limit: nat, timeouts: Timeouts, script: seq<Source>, labels: seq<nat>,
                  runs: seq<seq<A.Action>>, after: seq<A.Action>)
    requires Plays(limit, timeouts, script, labels, runs) && |runs| <= |script|
    requires Pass(limit, timeouts, runs[|runs| - 1], after, script[|runs| - 1], labels[|runs| - 1])
    ensures Plays(limit, timeouts, script, labels, runs + [after])
  {
  }

  /** What the loop's sources may yield, and when the clock then stands. */
  datatype Source =
    | Handle(dispatch: A.Dispatch, close: bool)
    | CloseCame(how: A.Framing)
    | RequestCame(how: A.Framing)
    | ClosesHungUp
    | RequestsHungUp
    | Message(frame: Frame, now: nat)
    | Accepted(written: nat, now: nat)
    | Broken(decoding: bool)
    | Timer(now: nat)
    | Nothing
}
