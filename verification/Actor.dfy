/** The connection actor, as steps over values: one loop over the two queues, the
    socket and the timer, with every arrival a step of the request table.

    `InPlaceActor` runs the same steps in place; `ActorRuns` proves what every run
    of them keeps. */
module Actor {
  import opened Wrappers
  import opened Table
  import opened TableIndex
  import E = TableExpiry
  import R = Reassembly
  import T = Table

  const CLOSE_RUN := 8
  const ADMISSION_CEILING := 50

  /** `min(MaxMpxCount, 50)`, with 0 and 1 both meaning a serial connection. */
  function AdmissionLimit(maxMpxCount: nat): (limit: nat)
    ensures limit == if maxMpxCount == 0 then 1 else if maxMpxCount < 50 then maxMpxCount else 50
  {
    if maxMpxCount <= 1 then 1 else Min(maxMpxCount, ADMISSION_CEILING)
  }

  /** What a handle sends the actor. */
  datatype Dispatch = Dispatch(command: nat, bounds: Option<(nat, nat)>, hook: bool, reply: bool)

  const FRAME_HEADER := 4

  /** The length of a frame, which is never less than its header's. */
  type FrameLength = n: nat | n >= FRAME_HEADER witness FRAME_HEADER

  /** What putting a request into a frame comes to: its caller has already gone,
      it cannot be framed, or a frame of some bytes. */
  datatype Framing = Abandoned | Unframed | Framed(length: FrameLength)

  /** A request that ended before it reached the wire: what it failed with, and
      whether a hook and a waiter heard of it. */
  datatype Refused = Refused(dispatch: Dispatch, error: Error, hook: bool, reply: bool)

  /** A dispatch being written, under the id and the identity it will have as a row. */
  datatype Queued = Queued(id: nat, mid: nat, dispatch: Dispatch)

  /** The frame on the socket. */
  datatype Writing = Writing(length: nat, cursor: nat, queued: Option<Queued>)

  /** What one pass of the loop is prepared to take. */
  datatype Offer = Offer(close: bool, request: bool, wake: Option<nat>)

  /** A moment the clock was read: whether a message was answered then, and
      whether requests charged capacity from then on. */
  datatype Beat = Beat(at: nat, answered: bool, charging: bool)

  datatype Actor = Actor(
    table: Table,
    limit: nat,
    timeouts: Timeouts,
    writing: Option<Writing>,
    requests: seq<Dispatch>,
    closes: seq<Dispatch>,
    requestsDone: bool,
    closesDone: bool,
    silentFor: nat,
    waitingSince: Option<nat>,
    consecutiveCloses: nat,
    serial: nat,
    refused: seq<Refused>,
    offer: Option<Offer>,
    clock: nat,
    history: seq<Beat>,
    down: Option<Error>)
  {
    function Charging(): int { table.charging }
  }

  function Start(limit: nat, timeouts: Timeouts, now: nat): Actor {
    Actor(EMPTY, limit, timeouts, None, [], [], false, false, 0, None, 0, 0, [], None, now, [], None)
  }

  // ---- The silence clock ----

  function Since(at: nat, now: nat): (stretch: nat)
    ensures at <= now ==> at + stretch == now
    ensures at > now ==> stretch == 0
  {
    if at <= now then now - at else 0
  }

  /** Starts the stretch of waiting when some row charges and none was running, and
      banks it when none charges any more. */
  function NoteWaiting(a: Actor, now: nat): Actor {
    if a.waitingSince.None? && a.Charging() > 0 then a.(waitingSince := Some(now))
    else if a.waitingSince.Some? && a.Charging() <= 0 then
      a.(silentFor := a.silentFor + Since(a.waitingSince.value, now), waitingSince := None)
    else a
  }

  /** The waiting banked so far and the stretch that is running. */
  function SilentFor(a: Actor, now: nat): nat {
    a.silentFor + (if a.waitingSince.Some? then Since(a.waitingSince.value, now) else 0)
  }

  /** When the loop next has a timer to fire. */
  ghost function NextWake(a: Actor): Option<nat> {
    var silence := if a.waitingSince.Some?
      then Some(a.waitingSince.value + Since(a.silentFor, a.timeouts.overall)) else None;
    if a.table.expiry == {} then silence
    else
      var expiry := E.First(a.table.expiry).0;
      if silence.Some? then Some(Min(expiry, silence.value)) else Some(expiry)
  }

  function Noted(a: Actor, now: nat, answered: bool): Actor {
    var b := NoteWaiting(a, now);
    b.(clock := now, history := b.history + [Beat(now, answered, b.Charging() > 0)])
  }

  // ---- The steps ----

  /** The head of the loop: what this pass may take. */
  ghost function Arm(a: Actor): Actor {
    var b := if a.requests == [] || a.closes == [] then a.(consecutiveCloses := 0) else a;
    var canAdmit := b.writing.None? && b.Charging() < b.limit;
    b.(offer := Some(Offer(
      canAdmit && !b.closesDone && b.consecutiveCloses < CLOSE_RUN,
      canAdmit && !b.requestsDone && (b.consecutiveCloses >= CLOSE_RUN || b.closes == []),
      NextWake(b))))
  }

  /** A request leaves its queue: it is refused without having reached the wire,
      or becomes the frame on the socket under a fresh identity and the id `mid`
      of the pool. */
  function Begin(a: Actor, d: Dispatch, how: Framing, mid: Option<nat>): Actor {
    if how.Abandoned? then a.(refused := a.refused + [Refused(d, Lost, d.hook, false)])
    else if mid.None? then a.(down := Some(PoolExhausted))
    else if how.Unframed? then a.(refused := a.refused + [Refused(d, Error.Wire, d.hook, d.reply)])
    else a.(
      writing := Some(Writing(how.length, 0, Some(Queued(a.serial, mid.value, d)))),
      serial := a.serial + 1)
  }

  /** Some bytes of the frame in progress were written: the first of them makes its
      dispatch a row, and none at all ends the connection. */
  function Wrote(a: Actor, written: nat, now: nat): Actor
    requires a.writing.Some?
  {
    if written == 0 then a.(down := Some(Io))
    else Noted(a.(table := WroteTable(a, now), writing := Rest(a.writing.value, written)), now, false)
  }

  function WroteTable(a: Actor, now: nat): Table
    requires a.writing.Some?
  {
    if a.writing.value.queued.Some? then
      var q := a.writing.value.queued.value;
      T.Dispatch(a.table, q.mid, q.id, q.dispatch.command, q.dispatch.reply, Bounded(q.dispatch.bounds),
                 q.dispatch.hook, a.timeouts, now)
    else a.table
  }

  /** The reassembly of a transaction, bounded by what it asked for. */
  function Bounded(bounds: Option<(nat, nat)>): Option<R.Assembly> {
    if bounds.Some? then Some(R.New(bounds.value.0, bounds.value.1)) else None
  }

  /** The write after `written` more bytes of it. */
  function Rest(w: Writing, written: nat): Option<Writing> {
    if w.cursor + written >= w.length then None else Some(Writing(w.length, w.cursor + written, None))
  }

  /** Gives one inbound message its outcome. */
  function Route(a: Actor, frame: Frame, now: nat): Actor
    requires RowsValid(a.table.entries)
  {
    if frame.chains.Some? then a.(down := Some(ChainedResponse(frame.chains.value)))
    else
      var m := Accept(a.table, frame, a.timeouts, now);
      var b := a.(silentFor := 0, waitingSince := None, table := m.table);
      if m.failure.Some? then b.(down := m.failure)
      else
        var c := Noted(b, now, true);
        if frame.status.UserSessionDeleted? then c.(down := Some(SessionDeleted)) else c
  }

  /** Silence past the overall deadline ends the connection; otherwise the table
      expires what is due. */
  ghost function Tick(a: Actor, now: nat): Actor
    requires Indexed(a.table)
  {
    if a.waitingSince.Some? && SilentFor(a, now) >= a.timeouts.overall then a.(down := Some(Silent))
    else
      var m := E.Expire(a.table, a.timeouts, now);
      Noted(a.(table := m.table), now, false).(down := m.failure)
  }

  // ---- Runs ----

  datatype Action =
    | QueueRequest(dispatch: Dispatch)
    | QueueClose(dispatch: Dispatch)
    | ArmLoop
    | TakeClose(how: Framing, mid: Option<nat>)
    | TakeRequest(how: Framing, mid: Option<nat>)
    | ClosesGone
    | RequestsGone
    | FrameIn(frame: Frame, answers: nat, now: nat)
    | NothingIn
    | SocketFailed(error: Error)
    | BytesWritten(written: nat, now: nat)
    | TimerFired(now: nat)

  /** What the pool may give: an id nothing holds, or none where all are held. */
  predicate Allocated(t: Table, mid: Option<nat>) {
    if mid.Some? then mid.value <= LAST_MID && mid.value !in t.entries else |t.entries| >= POOL
  }

  /** How a request may be framed: only one that has a waiter can be abandoned, and
      only then is the pool not asked for an id. */
  predicate Framable(t: Table, d: Dispatch, how: Framing, mid: Option<nat>) {
    if how.Abandoned? then d.reply else Allocated(t, mid)
  }

  /** What may happen next: handles queue at any time until the last of them is
      gone, the loop arms itself, and then exactly one of the sources it offered to
      take yields, or the socket fails. Any message may come in, and `answers` is
      only its label. */
  ghost predicate Enabled(a: Actor, x: Action) {
    a.down.None? &&
    match x
    case QueueRequest(_) => !a.requestsDone
    case QueueClose(_) => !a.closesDone
    case ArmLoop => a.offer.None?
    case TakeClose(how, mid) =>
      a.offer.Some? && a.offer.value.close && a.closes != [] && Framable(a.table, a.closes[0], how, mid)
    case TakeRequest(how, mid) =>
      a.offer.Some? && a.offer.value.request && a.requests != [] && Framable(a.table, a.requests[0], how, mid)
    case ClosesGone => a.offer.Some? && a.offer.value.close && a.closes == []
    case RequestsGone => a.offer.Some? && a.offer.value.request && a.requests == []
    case FrameIn(_, _, now) => a.offer.Some? && a.clock <= now
    case NothingIn => a.offer.Some?
    case SocketFailed(error) => a.offer.Some? && (error.Io? || error.Wire?)
    case BytesWritten(_, now) => a.offer.Some? && a.clock <= now && a.writing.Some?
    case TimerFired(now) =>
      a.offer.Some? && a.clock <= now && a.offer.value.wake.Some? && a.offer.value.wake.value <= now
  }

  /** The first close is off its queue, and counted. */
  function WithoutClose(a: Actor): Actor
    requires a.closes != []
  {
    a.(offer := None, closes := a.closes[1..], consecutiveCloses := a.consecutiveCloses + 1)
  }

  /** The first request is off its queue, which ends a run of closes. */
  function WithoutRequest(a: Actor): Actor
    requires a.requests != []
  {
    a.(offer := None, requests := a.requests[1..], consecutiveCloses := 0)
  }

  /** One action. */
  ghost function Act(a: Actor, x: Action): Actor
    requires Indexed(a.table) && Enabled(a, x)
  {
    match x
    case QueueRequest(d) => a.(requests := a.requests + [d])
    case QueueClose(d) => a.(closes := a.closes + [d])
    case ArmLoop => Arm(a)
    case TakeClose(how, mid) => Begin(WithoutClose(a), a.closes[0], how, mid)
    case TakeRequest(how, mid) => Begin(WithoutRequest(a), a.requests[0], how, mid)
    case ClosesGone => a.(offer := None, closesDone := true)
    case RequestsGone => a.(offer := None, requestsDone := true)
    case FrameIn(frame, _, now) => Route(a.(offer := None), frame, now)
    case NothingIn => a.(offer := None)
    case SocketFailed(error) => a.(offer := None, down := Some(error))
    case BytesWritten(written, now) => Wrote(a.(offer := None), written, now)
    case TimerFired(now) => Tick(a.(offer := None), now)
  }
}
