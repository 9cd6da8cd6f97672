/** What the two transfer loops share: the connection's chunk size, the server
    they face, and the accounts that bound how often they ask. */
module Transfer {
  import opened Chunks

  const LARGE_IO_CHUNK := 130_048
  const SMALL_IO_CHUNK := 65_520
  const PROTOCOL_OVERHEAD := 1_024
  const MIN_BUFFER_SIZE := 4_356
  const PIPELINE_DEPTH := 4
  const READ_PIPELINE_THRESHOLD := 128 * 1024
  const WRITE_PIPELINE_THRESHOLD := 256 * 1024

  datatype IoStatus =
    | Success
    | EndOfFile
    | InvalidSmb
    | InvalidParameter
    | InsufficientResources
    | OtherIo(code: nat)

  /** The statuses on which a loop asks again in smaller pieces. */
  predicate RefusesTheSize(status: IoStatus): (refuses: bool)
    ensures refuses <==> status in {InvalidSmb, InvalidParameter, InsufficientResources}
  {
    status.InvalidSmb? || status.InvalidParameter? || status.InsufficientResources?
  }

  /** What a call can fail with. */
  datatype IoError =
    | Transport(code: nat)
    | Refused(status: IoStatus)
    | Undecodable
    | Overlapping(at: nat, length: nat)
    | NoProgress(at: nat, length: nat)
    | UnfilledSpan(at: nat, length: nat)
    | WritePartial(written: nat, source: IoError)
    | ProgressInUse

  /** The negotiated limits, and whether anything on the connection was refused for
      its size since. */
  class Connection {
    const maxBufferSize: nat
    const largeReads: bool
    const largeWrites: bool
    var downgraded: bool

    ghost predicate Valid() {
      MIN_BUFFER_SIZE <= maxBufferSize
    }

    constructor (maxBufferSize: nat, largeReads: bool, largeWrites: bool)
      requires MIN_BUFFER_SIZE <= maxBufferSize
      ensures Valid() && !downgraded
    {
      this.maxBufferSize, this.largeReads, this.largeWrites := maxBufferSize, largeReads, largeWrites;
      downgraded := false;
    }

    /** How long the chunks of a transfer are: never nothing, whatever was negotiated. */
    function ChunkSize(large: bool): (size: nat)
      requires Valid()
      reads this
      ensures size > 0
      ensures downgraded ==> size == maxBufferSize - 1_024
      ensures !downgraded && large ==> size == 130_048
      ensures !downgraded && !large ==>
        size == if maxBufferSize - 1_024 <= 65_520 then maxBufferSize - 1_024 else 65_520
    {
      var buffered := maxBufferSize - PROTOCOL_OVERHEAD;
      if downgraded then buffered
      else if large then LARGE_IO_CHUNK
      else Least(buffered, SMALL_IO_CHUNK)
    }

    /** The connection is small-buffer from here on, and nothing undoes that. */
    method RecordSmallBuffer()
      modifies this
      ensures downgraded
    {
      downgraded := true;
    }

    /** Other traffic on the connection may have had it recorded small-buffer. */
    method Hear(small: bool)
      modifies this
      ensures downgraded == (old(downgraded) || small)
    {
      if small {
        RecordSmallBuffer();
      }
    }
  }

  /** The accounts of a loop that has been answered `answers` times, `refused` of
      them for size: every other answer settled a byte for good, and only chunks
      issued large, of which no more than `depth` were ever out at the first
      refusal, can be refused. */
  ghost predicate Accounts(d: Division, answers: nat, refused: nat, downgraded: bool, depth: nat) {
    && refused <= answers
    && Owed(d) + (answers - refused) <= d.length
    && |d.flight| <= depth
    && (if downgraded then refused + Large(d.flight) <= depth else refused == 0)
  }

  lemma StartHasAccounts(length: nat, downgraded: bool, depth: nat)
    ensures Partition(Start(length)) && Accounts(Start(length), 0, 0, downgraded, depth)
  {
    StartIsPartition(length);
  }

  /** How a loop's answer may move the accounts on: it settles a byte, or it sends
      one large chunk back. */
  ghost predicate Settles(d: Division, d': Division) {
    && Partition(d') && d'.length == d.length && Owed(d') < Owed(d)
    && |d'.flight| + 1 == |d.flight| && Large(d'.flight) <= Large(d.flight)
  }

  ghost predicate SendsBack(d: Division, d': Division) {
    && Partition(d') && d'.length == d.length && Owed(d') == Owed(d)
    && |d'.flight| + 1 == |d.flight| && Large(d'.flight) + 1 == Large(d.flight)
  }

  lemma FilledSettles(d: Division, i: nat, got: nat)
    requires Partition(d) && i < |d.flight| && 0 < got <= d.flight[i].piece.length
    ensures Settles(d, Filled(d, i, got))
  {
    FilledIsPartition(d, i, got);
    FlightLessTotals(d.flight, i);
  }

  lemma DroppedSettles(d: Division, i: nat)
    requires Partition(d) && i < |d.flight|
    ensures Settles(d, Dropped(d, i))
  {
    DroppedIsPartition(d, i);
    FlightLessTotals(d.flight, i);
  }

  lemma RequeuedSendsBack(d: Division, i: nat)
    requires Partition(d) && i < |d.flight| && d.flight[i].large
    ensures SendsBack(d, Requeued(d, i))
  {
    RequeuedIsPartition(d, i);
    FlightLessTotals(d.flight, i);
  }

  lemma SettlingKeepsAccounts(d: Division, d': Division, answers: nat, refused: nat,
                              was: bool, downgraded: bool, depth: nat)
    requires Accounts(d, answers, refused, was, depth) && Settles(d, d') && (was ==> downgraded)
    ensures Accounts(d', answers + 1, refused, downgraded, depth)
  {
    LargeFew(d.flight);
  }

  lemma SendingBackKeepsAccounts(d: Division, d': Division, answers: nat, refused: nat, was: bool, depth: nat)
    requires Accounts(d, answers, refused, was, depth) && SendsBack(d, d')
    ensures Accounts(d', answers + 1, refused + 1, true, depth)
  {
    LargeFew(d.flight);
  }

  lemma HearingKeepsAccounts(d: Division, answers: nat, refused: nat, was: bool, downgraded: bool, depth: nat)
    requires Accounts(d, answers, refused, was, depth) && (was ==> downgraded)
    ensures Accounts(d, answers, refused, downgraded, depth)
  {
    LargeFew(d.flight);
  }

  /** Bounds on the chunks of a transfer: `cap` on any, and `small` on one that is not
      large, where it is `quiet`: no other traffic has the connection recorded
      small-buffer. */
  datatype Limits = Limits(cap: nat, small: nat, quiet: bool)

  predicate Sized(length: nat, large: bool, limits: Limits) {
    length <= limits.cap && (limits.quiet && !large ==> length <= limits.small)
  }

  ghost predicate AllSized(flight: seq<Chunk>, limits: Limits) {
    forall i :: 0 <= i < |flight| ==> Sized(flight[i].piece.length, flight[i].large, limits)
  }

  /** Whether other traffic has had the connection recorded small-buffer, of what the
      loop has heard of it. */
  ghost predicate Small(others: nat -> bool, heard: nat) {
    exists n :: 0 <= n < heard && others(n)
  }

  /** The bounds on the chunks of a transfer that begins. */
  ghost function Bounds(conn: Connection, large: bool, others: nat -> bool): Limits
    reads conn
  {
    var small := if conn.maxBufferSize >= 1_024 then conn.maxBufferSize - 1_024 else 0;
    Limits(if large && !conn.downgraded && small < 130_048 then 130_048 else small, small, forall n: nat :: !others(n))
  }

  /** The bounds are those of the connection. */
  ghost predicate Limiting(conn: Connection, large: bool, others: nat -> bool, limits: Limits)
    reads conn
  {
    && limits.small == conn.maxBufferSize - 1_024 <= limits.cap
    && (large && !conn.downgraded ==> 130_048 <= limits.cap)
    && (limits.quiet ==> forall n: nat :: !others(n))
  }

  lemma SizedMore(d: Division, size: nat, tail: bool, large: bool, ticket: nat, limits: Limits)
    requires AllSized(d.flight, limits) && Pick(d, size, tail).Some?
    requires size <= limits.cap && (limits.quiet && !large ==> size <= limits.small)
    ensures AllSized(Issued(d, size, tail, large, ticket).flight, limits)
    ensures Issued(d, size, tail, large, ticket).next >= d.next
  {
  }

  /** Both loops' inner loop: tops the chunks in flight up to `depth`. `others`
      says when other traffic on the connection has just had it recorded
      small-buffer, which may fall between the reading of a chunk's size and the
      reading of whether it is a large one. */
  method TopUp(conn: Connection, large: bool, d: Division, depth: nat, tail: bool, others: nat -> bool,
               issues: nat, ghost answers: nat, ghost refused: nat, ghost limits: Limits, ghost heard: nat)
    returns (d': Division, issues': nat, ghost heard': nat)
    requires conn.Valid() && Partition(d)
    requires Accounts(d, answers, refused, conn.downgraded, depth) && issues == answers + |d.flight|
    requires Limiting(conn, large, others, limits) && AllSized(d.flight, limits)
    requires 2 * issues <= heard <= 2 * issues + 2 && (Small(others, heard) ==> conn.downgraded)
    modifies conn
    ensures conn.downgraded <==> old(conn.downgraded) || Small(others, heard')
    ensures 2 * issues' <= heard' <= 2 * issues' + 2 && heard <= heard'
    ensures Partition(d') && d'.length == d.length && Owed(d') == Owed(d) && d.next <= d'.next
    ensures d'.covered == d.covered && d'.dropped == d.dropped
    ensures Accounts(d', answers, refused, conn.downgraded, depth) && issues' == answers + |d'.flight|
    ensures AllSized(d'.flight, limits)
    ensures old(conn.downgraded) ==> Large(d'.flight) == Large(d.flight)
    ensures |d'.flight| == depth || (d'.queue == [] && (tail ==> d'.next == d'.length))
  {
    d', issues', heard' := d, issues, heard;
    while |d'.flight| < depth
      invariant conn.downgraded <==> old(conn.downgraded) || Small(others, heard')
      invariant 2 * issues' <= heard' <= 2 * issues' + 2 && heard <= heard'
      invariant Partition(d') && d'.length == d.length && Owed(d') == Owed(d) && d.next <= d'.next
      invariant d'.covered == d.covered && d'.dropped == d.dropped
      invariant Accounts(d', answers, refused, conn.downgraded, depth) && issues' == answers + |d'.flight|
      invariant AllSized(d'.flight, limits)
      invariant old(conn.downgraded) ==> Large(d'.flight) == Large(d.flight)
      decreases depth - |d'.flight|
    {
      ghost var was, next := conn.downgraded, 2 * issues' + 2;
      conn.Hear(others(2 * issues'));
      var size := conn.ChunkSize(large);
      conn.Hear(others(2 * issues' + 1));
      HeardMore(others, heard', next, was, conn.downgraded);
      heard' := next;
      HearingKeepsAccounts(d', answers, refused, was, conn.downgraded, depth);
      if Pick(d', size, tail).None? {
        break;
      }
      IssuedKeepsAccounts(d', size, tail, !conn.downgraded, issues', answers, refused, conn.downgraded, depth);
      SizedMore(d', size, tail, !conn.downgraded, issues', limits);
      d' := Issued(d', size, tail, !conn.downgraded, issues');
      issues' := issues' + 1;
    }
  }

  /** Hearing of two more moments of the other traffic. */
  lemma HeardMore(others: nat -> bool, heard: nat, next: nat, was: bool, downgraded: bool)
    requires heard <= next && next >= 2 && heard >= next - 2
    requires Small(others, heard) ==> was
    requires downgraded == (was || others(next - 2) || others(next - 1))
    ensures Small(others, next) ==> downgraded
    ensures downgraded ==> was || Small(others, next)
    ensures Small(others, heard) ==> Small(others, next)
  {
    if others(next - 2) || others(next - 1) {
      assert Small(others, next);
    }
    if n :| 0 <= n < next && others(n) {
      assert n < heard || n == next - 2 || n == next - 1;
    }
  }

  lemma IssuedKeepsAccounts(d: Division, size: nat, tail: bool, large: bool, ticket: nat,
                            answers: nat, refused: nat, downgraded: bool, depth: nat)
    requires Partition(d) && size > 0 && Pick(d, size, tail).Some? && |d.flight| < depth
    requires Accounts(d, answers, refused, downgraded, depth) && (downgraded ==> !large)
    ensures var d' := Issued(d, size, tail, large, ticket);
      && Partition(d') && Owed(d') == Owed(d)
      && Accounts(d', answers, refused, downgraded, depth)
      && (downgraded ==> Large(d'.flight) == Large(d.flight))
  {
    FlightMoreTotals(d.flight, Chunk(Pick(d, size, tail).value, large, ticket));
    if d.queue != [] {
      IssuedFromQueue(d, size, tail, large, ticket);
    } else {
      IssuedFromTail(d, size, large, ticket);
    }
  }
}
