/** The request table, as steps over values: a row for each request on the wire or
    lapsed, by its multiplex id, from which the capacity in use, the ids that are
    free and the deadlines all derive.

    `RequestTable.dfy` runs the same steps in place; `TableIndex.dfy` and
    `TableRuns.dfy` prove what every run of them keeps. */
module Table {
  import opened Wrappers
  import R = Reassembly

  const POOL := 65_535
  const LAST_MID := 0xFFFE
  const RETIREMENT_BUDGET := 1_024
  const GIVE_UP_DEADLINES := 8

  datatype Timeouts = Timeouts(perRequest: nat, overall: nat)

  /** The statuses the connection tells apart. */
  datatype Status = PendingStatus | Success | UserSessionDeleted | OtherStatus(code: nat)

  /** What decoding a message as a transaction response gives. */
  datatype Decoded = Decoded(fragment: R.Fragment) | Undecodable

  /** One message from the server. */
  datatype Frame = Frame(mid: nat, command: nat, status: Status, body: Decoded, chains: Option<nat>)

  datatype TransactionBody = TransactionBody(setup: seq<nat>, parameters: seq<byte>, data: seq<byte>)

  datatype Reply = Reply(frame: Frame, transaction: Option<TransactionBody>)

  datatype Error =
    | Timeout
    | ReassemblyFailed(error: R.ReassemblyError)
    | Wire
    | Lost
    | Io
    | Unroutable(mid: nat, command: nat)
    | RetirementBudget(retired: int)
    | PoolExhausted
    | ChainedResponse(command: nat)
    | SessionDeleted
    | Silent

  /** The end of one request, as the outside sees it: the outcome, and whether
      it went to the hook arranged to outlive the request and to a waiter. */
  datatype Ended = Ended(request: nat, outcome: Result<Reply, Error>, hook: bool, reply: bool)

  datatype State =
    | OnWire(reply: bool, silenceAt: nat, overallAt: nat)
    | Lapsed(giveUpAt: nat)
    | Retired

  /** One row. `request` is the identity of the request it was dispatched for. */
  datatype Entry = Entry(
    request: nat, command: nat, assembly: Option<R.Assembly>, hook: bool, state: State)
  {
    function DueAt(): Option<nat> {
      match state
      case OnWire(_, silenceAt, overallAt) => Some(Min(silenceAt, overallAt))
      case Lapsed(giveUpAt) => Some(giveUpAt)
      case Retired => None
    }

    predicate Charges() { state.OnWire? }

    /** A buffer is held exactly while on the wire; a retired row holds nothing. */
    ghost predicate Valid() {
      && (assembly.Some? ==> assembly.value.Valid() && (assembly.value.buffered <==> state.OnWire?))
      && (state.Retired? ==> assembly.None?)
      && (!state.OnWire? ==> !hook)
    }
  }

  function Min(a: nat, b: nat): (m: nat)
    ensures m <= a && m <= b && (m == a || m == b)
  {
    if a <= b then a else b
  }

  // ---- One row ----

  datatype Arrival = Interim | OneFragment(fragment: R.Fragment) | Whole(transaction: Option<TransactionBody>)

  /** What kind of message a frame is, for a row that does or does not reassemble. */
  function Classify(frame: Frame, reassembles: bool): Result<Arrival, Error> {
    if frame.status == PendingStatus then Ok(Interim)
    else if !reassembles then Ok(Whole(None))
    else if frame.status == Success then
      match frame.body
      case Decoded(f) => Ok(OneFragment(f))
      case Undecodable => Err(Wire)
    else
      match frame.body
      case Decoded(f) => Ok(Whole(Some(TransactionBody(f.setup, f.parameters.payload, f.data.payload))))
      case Undecodable => Ok(Whole(None))
  }

  /** How a row's reply stands after a message of it. */
  datatype Step = Continuing | Completed | Corrupted

  datatype RowStep = RowStep(entry: Entry, step: Step, ended: seq<Ended>)

  /** A message resets the silence clock of a request that still charges. */
  function Touch(e: Entry, now: nat, perRequest: nat): Entry {
    if e.state.OnWire? then e.(state := e.state.(silenceAt := now + perRequest)) else e
  }

  /** Hands the outcome to the hook and the waiter, each at most once, and to
      nobody once the request is off the wire. */
  function Deliver(e: Entry, outcome: Result<Reply, Error>): (Entry, seq<Ended>) {
    if e.state.OnWire? then
      (e.(hook := false, state := e.state.(reply := false)), [Ended(e.request, outcome, e.hook, e.state.reply)])
    else (e, [])
  }

  function EndRow(e: Entry, outcome: Result<Reply, Error>, step: Step): RowStep {
    var (e', ended) := Deliver(e, outcome);
    RowStep(e', step, ended)
  }

  function Finish(a: R.Assembly): TransactionBody {
    TransactionBody(
      a.setup,
      if a.parameters.bytes.Some? then a.parameters.bytes.value else [],
      if a.data.bytes.Some? then a.data.bytes.value else [])
  }

  function AcceptFragment(e: Entry, frame: Frame, f: R.Fragment): RowStep
    requires e.assembly.Some? && e.assembly.value.Valid()
  {
    var r := R.Accept(e.assembly.value, f);
    match r.outcome
    case Err(error) => EndRow(e.(assembly := Some(r.next)), Err(ReassemblyFailed(error)), Corrupted)
    case Ok(progress) =>
      if progress.Continuing? then RowStep(e.(assembly := Some(r.next)), Continuing, [])
      else EndRow(e.(assembly := None), Ok(Reply(frame, Some(Finish(r.next)))), Completed)
  }

  function AcceptRow(e: Entry, frame: Frame, now: nat, perRequest: nat): RowStep
    requires e.Valid()
  {
    var touched := Touch(e, now, perRequest);
    match Classify(frame, e.assembly.Some?)
    case Err(error) => EndRow(touched, Err(error), Corrupted)
    case Ok(Interim) => RowStep(touched, Continuing, [])
    case Ok(Whole(transaction)) => EndRow(touched, Ok(Reply(frame, transaction)), Completed)
    case Ok(OneFragment(f)) => AcceptFragment(touched, frame, f)
  }

  // ---- The table ----

  datatype Table = Table(
    entries: map<nat, Entry>, expiry: set<(nat, nat)>, charging: int, retired: int, log: seq<Ended>)

  const EMPTY := Table(map[], {}, 0, 0, [])

  /** The deadline a row keeps in the index. */
  function Due(mid: nat, e: Entry): set<(nat, nat)> {
    if e.DueAt().Some? then {(e.DueAt().value, mid)} else {}
  }

  function Charge(e: Entry): nat { if e.Charges() then 1 else 0 }

  /** Adds the row of a request, under an id that no row holds. */
  function Dispatch(t: Table, mid: nat, request: nat, command: nat, reply: bool,
                    assembly: Option<R.Assembly>, hook: bool, timeouts: Timeouts, now: nat): Table
  {
    var e := Entry(request, command, assembly, hook,
                   OnWire(reply, now + timeouts.perRequest, now + timeouts.overall));
    t.(entries := t.entries[mid := e], expiry := t.expiry + Due(mid, e), charging := t.charging + 1)
  }

  datatype Moved = Moved(table: Table, failure: Option<Error>)

  /** Takes an id out of the pool for good, and fails at the budget. */
  function Retire(t: Table, mid: nat): Moved
    requires mid in t.entries
  {
    var e := t.entries[mid].(state := Retired, assembly := None);
    var t' := t.(entries := t.entries[mid := e], retired := t.retired + 1);
    Moved(t', if t'.retired >= RETIREMENT_BUDGET then Some(RetirementBudget(t'.retired)) else None)
  }

  /** The arrival step: the frame goes to the row its id names, or fails the
      connection if it has none to go to. */
  function Accept(t: Table, frame: Frame, timeouts: Timeouts, now: nat): Moved
    requires frame.mid in t.entries ==> t.entries[frame.mid].Valid()
  {
    if frame.mid !in t.entries then Moved(t, Some(Unroutable(frame.mid, frame.command)))
    else
      var e := t.entries[frame.mid];
      if e.state.Retired? then Moved(t, None)
      else if e.command != frame.command then Moved(t, Some(Unroutable(frame.mid, frame.command)))
      else Settle(t, frame.mid, e, AcceptRow(e, frame, now, timeouts.perRequest))
  }

  /** The index, the count and the log in line with what a row did. */
  function Counted(t: Table, mid: nat, e: Entry, r: RowStep): Table {
    t.(expiry := t.expiry - Due(mid, e) + (if r.step.Continuing? then Due(mid, r.entry) else {}),
       charging := if e.Charges() && !r.step.Continuing? then t.charging - 1 else t.charging,
       log := t.log + r.ended)
  }

  /** What an arrival does to the table, given what it did to its row. */
  function Settle(t: Table, mid: nat, e: Entry, r: RowStep): Moved
    requires mid in t.entries
  {
    var t1 := Counted(t, mid, e, r);
    match r.step
    case Continuing => Moved(t1.(entries := t.entries[mid := r.entry]), None)
    case Completed => Moved(t1.(entries := t.entries - {mid}), None)
    case Corrupted => Retire(t1.(entries := t.entries[mid := r.entry]), mid)
  }

  /** The order the deadline index is kept in. */
  predicate Before(a: (nat, nat), b: (nat, nat)) {
    a.0 < b.0 || (a.0 == b.0 && a.1 <= b.1)
  }

  predicate IsFirst(p: (nat, nat), s: set<(nat, nat)>) {
    p in s && forall q :: q in s ==> Before(p, q)
  }

  /** What a lapse leaves of a row: the reassembly buffer goes, its coverage stays. */
  function LapsedRow(e: Entry, giveUpAt: nat): Entry {
    e.(hook := false,
       assembly := if e.assembly.Some? then Some(R.Release(e.assembly.value)) else None,
       state := Lapsed(giveUpAt))
  }

  /** Fires the one deadline `first`. */
  function ExpireOne(t: Table, first: (nat, nat), timeouts: Timeouts, now: nat): Moved
    requires first.1 in t.entries && !t.entries[first.1].state.Retired?
  {
    var mid := first.1;
    var e := t.entries[mid];
    var giveUpAt := now + timeouts.overall * GIVE_UP_DEADLINES;
    var popped := t.(expiry := t.expiry - {first});
    if e.state.OnWire? then
      var e' := LapsedRow(e, giveUpAt);
      Moved(popped.(
        entries := t.entries[mid := e'],
        expiry := popped.expiry + {(giveUpAt, mid)},
        charging := t.charging - 1,
        log := t.log + Deliver(e, Err(Timeout)).1), None)
    else Retire(popped, mid)
  }

  /** `order` lists every id of `ids` once. */
  ghost predicate Enumerates(order: seq<nat>, ids: set<nat>) {
    && (forall m :: m in order <==> m in ids)
    && (forall i, j :: 0 <= i < j < |order| ==> order[i] != order[j])
  }

  /** Ends the rows named, in that order, and leaves no row. */
  function FailAll(t: Table, order: seq<nat>): Table
    requires forall m :: m in order ==> m in t.entries
  {
    t.(entries := map[], expiry := {}, charging := 0, log := t.log + LostRows(t.entries, order))
  }

  function LostRows(entries: map<nat, Entry>, order: seq<nat>): seq<Ended>
    requires forall m :: m in order ==> m in entries
  {
    if order == [] then []
    else LostRows(entries, order[..|order| - 1]) + Deliver(entries[order[|order| - 1]], Err(Lost)).1
  }
}
