/** The pipelined write: chunks of a span are sent, acknowledged in any order,
    short, empty or refused, and sent again for what was not acknowledged, while
    the write's progress handle hears of every one. */
module WriteLoop {
  import opened Wrappers
  import opened Chunks
  import opened Transfer
  import C = Coverage
  import I = InPlaceProgress
  import P = Progress

  /** How a write chunk ended: without a reply, or with one. `count` is the
      acknowledged count, where the reply decodes. */
  datatype WriteAnswer =
    | Unanswered(code: nat)
    | Wrote(status: IoStatus, count: Option<nat>)

  /** Which chunk in flight ends next, and how. */
  datatype Turn = Turn(pick: nat, answer: WriteAnswer)

  /** One request the loop made, and its answer: `data` for the file's bytes from
      `at`, which are the span's from `start`. */
  datatype Exchange = Exchange(at: nat, start: nat, data: seq<byte>, large: bool, answer: WriteAnswer) {

    /** The count the progress handle hears. */
    function Count(): (count: Option<nat>)
      ensures answer.Wrote? && answer.status == Success ==> count == answer.count
      ensures !(answer.Wrote? && answer.status == Success) ==> count.None?
    {
      if answer.Wrote? && answer.status == Success then answer.count else None
    }

    /** The bytes the answer acknowledged, no more than were offered. */
    function Taken(): (taken: nat)
      ensures Count().Some? ==> taken == if Count().value <= |data| then Count().value else |data|
      ensures Count().None? ==> taken == 0
    {
      if Count().Some? then Least(Count().value, |data|) else 0
    }

    predicate Acknowledges(p: int) { start <= p < start + Taken() }

    /** Whether the request carried the byte at `p` of the span. */
    predicate Carries(p: int) { start <= p < start + |data| }

    /** A large chunk refused for its size, which is sent again smaller. */
    predicate SentBack() {
      answer.Wrote? && RefusesTheSize(answer.status) && large
    }

    /** What the answer fails the write with, if it does. */
    function Error(): Option<IoError> {
      match answer
      case Unanswered(code) => Some(Transport(code))
      case Wrote(status, count) =>
        if SentBack() then None
        else if status != Success then Some(Refused(status))
        else if count.None? then Some(Undecodable)
        else if Taken() == 0 then Some(NoProgress(start, |data|))
        else None
    }
  }

  /** The chunk in flight that an exchange carried. */
  predicate Carried(chunk: Chunk, x: Exchange) {
    x.start == chunk.piece.start && |x.data| == chunk.piece.length && x.large == chunk.large
  }

  /** What one answer does to the division of the span. The bytes of a chunk that
      failed are given up. */
  function Answered(d: Division, i: nat, x: Exchange): Division
    requires i < |d.flight| && Carried(d.flight[i], x)
  {
    if x.SentBack() then Requeued(d, i)
    else if x.Error().Some? then Dropped(d, i)
    else Filled(d, i, x.Taken())
  }

  /** What an answer means, status by status. A chunk sent back goes to the queue whole;
      one that fails is given up; and of any other what was taken is covered and the
      rest goes to the queue. */
  lemma AnswersMean(d: Division, i: nat, x: Exchange)
    requires i < |d.flight| && Carried(d.flight[i], x) && |x.data| > 0
    ensures x.answer.Unanswered? ==> x.Error() == Some(Transport(x.answer.code))
    ensures x.answer.Wrote? && x.answer.status in {InvalidSmb, InvalidParameter, InsufficientResources} ==>
      && x.Error() == (if x.large then None else Some(Refused(x.answer.status)))
      && (x.large ==> Answered(d, i, x) == d.(flight := Without(d.flight, i), queue := d.queue + [d.flight[i].piece]))
    ensures x.answer.Wrote? && (x.answer.status.EndOfFile? || x.answer.status.OtherIo?) ==>
      x.Error() == Some(Refused(x.answer.status))
    ensures x.answer.Wrote? && x.answer.status == Success && x.answer.count.None? ==> x.Error() == Some(Undecodable)
    ensures x.answer.Wrote? && x.answer.status == Success && x.answer.count == Some(0) ==>
      x.Error() == Some(NoProgress(x.start, |x.data|))
    ensures x.answer.Wrote? && x.answer.status == Success && x.answer.count.Some? && x.answer.count.value > 0 ==>
      && x.Error().None?
      && (var taken, d' := x.Taken(), Answered(d, i, x);
          && d' == d.(flight := d'.flight, queue := d'.queue, covered := d'.covered)
          && d'.flight == Without(d.flight, i) && d'.covered == d.covered + C.Span(x.start, x.start + taken)
          && d'.queue == if taken == |x.data| then d.queue
                         else d.queue + [Piece(x.start + taken, |x.data| - taken)])
    ensures x.Error().Some? ==>
      Answered(d, i, x) == d.(flight := Without(d.flight, i), dropped := d.dropped + d.flight[i].piece.Positions())
  {
  }

  /** Some answer refused a chunk for its size. */
  ghost predicate SomeSizeRefused(log: seq<Exchange>) {
    exists k :: SizeRefusedAt(log, k)
  }

  ghost predicate SizeRefusedAt(log: seq<Exchange>, k: int) {
    && 0 <= k < |log| && log[k].answer.Wrote?
    && log[k].answer.status in {InvalidSmb, InvalidParameter, InsufficientResources}
  }

  lemma SomeSizeRefusedMore(log: seq<Exchange>, x: Exchange)
    ensures SomeSizeRefused(log + [x]) <==> SomeSizeRefused(log) || SizeRefusedAt([x], 0)
  {
    if k :| SizeRefusedAt(log, k) {
      assert SizeRefusedAt(log + [x], k);
    }
    if SizeRefusedAt([x], 0) {
      assert SizeRefusedAt(log + [x], |log|);
    }
    if k :| SizeRefusedAt(log + [x], k) {
      assert k < |log| ==> SizeRefusedAt(log, k);
    }
  }

  /** What a write fails with, status by status. */
  ghost predicate FailsWith(x: Exchange, error: IoError) {
    match x.answer
    case Unanswered(code) => error == Transport(code)
    case Wrote(status, count) =>
      if status == Success then
        || (count.None? && error == Undecodable)
        || (count == Some(0) && error == NoProgress(x.start, |x.data|))
      else
        && error == Refused(status)
        && (status in {InvalidSmb, InvalidParameter, InsufficientResources} ==> !x.large)
  }

  lemma FailsAsItSays(x: Exchange)
    requires |x.data| > 0
    ensures forall error :: FailsWith(x, error) <==> x.Error() == Some(error)
  {
  }

  ghost predicate FailsFirstAt(log: seq<Exchange>, k: int, error: IoError) {
    && 0 <= k < |log| && FailsWith(log[k], error)
    && (forall j, e :: 0 <= j < k ==> !FailsWith(log[j], e))
  }

  /** A write fails with what the earliest answer to fail it fails it with; and after that
      answer come only those to what was on the wire with it. */
  ghost predicate FailsAsAnswered(log: seq<Exchange>, failure: Option<IoError>, depth: nat) {
    if failure.None? then forall k, e :: 0 <= k < |log| ==> !FailsWith(log[k], e)
    else exists k :: FailsFirstAt(log, k, failure.value) && |log| <= k + depth
  }

  /** A large chunk that was refused for its size was sent again: every byte of it was,
      later, or is still to be. */
  ghost predicate SentAgain(log: seq<Exchange>, d: Division) {
    forall k, p :: SizeRefusedAt(log, k) && log[k].large && log[k].Carries(p) ==> Later(log, k, p) || ToBeAsked(d, p)
  }

  /** Every byte of it was. */
  ghost predicate AllSentAgain(log: seq<Exchange>) {
    forall k, p :: SizeRefusedAt(log, k) && log[k].large && log[k].Carries(p) ==> Later(log, k, p)
  }

  ghost predicate Later(log: seq<Exchange>, k: int, p: int) {
    exists l :: 0 <= k < l < |log| && log[l].Carries(p)
  }

  /** Every request is within bounds, and the answer to each is what the server gave
      for its turn. */
  ghost predicate Fair(log: seq<Exchange>, server: nat -> Turn, limits: Limits) {
    forall k :: 0 <= k < |log| ==>
      log[k].answer == server(k).answer && Sized(|log[k].data|, log[k].large, limits)
  }

  /** From the first failure on, no more are sent than were on the wire with it. */
  ghost predicate Drains(log: seq<Exchange>, flight: nat, depth: nat) {
    forall k :: 0 <= k < |log| && log[k].Error().Some? ==> |log| + flight <= k + depth
  }

  /** What holds beside the division: how the requests were made. */
  ghost predicate Sends(d: Division, log: seq<Exchange>, server: nat -> Turn, limits: Limits, depth: nat) {
    && SentAgain(log, d) && Fair(log, server, limits) && AllSized(d.flight, limits)
    && Drains(log, |d.flight|, depth)
  }

  lemma LaterMore(log: seq<Exchange>, x: Exchange, k: int, p: int)
    requires 0 <= k < |log|
    ensures Later(log, k, p) || x.Carries(p) ==> Later(log + [x], k, p)
  {
    if Later(log, k, p) {
      var l :| 0 <= k < l < |log| && log[l].Carries(p);
      assert (log + [x])[l] == log[l];
    } else if x.Carries(p) {
      assert (log + [x])[|log|] == x;
    }
  }

  /** What is still to be sent, and is not in the chunk that was answered, is still to be
      sent; and so is all of that, if it is sent back. */
  lemma AnsweredSends(d: Division, i: nat, x: Exchange, p: int)
    requires Partition(d) && i < |d.flight| && Carried(d.flight[i], x) && |x.data| > 0
    ensures ToBeAsked(d, p) && !x.Carries(p) ==> ToBeAsked(Answered(d, i, x), p)
    ensures SizeRefusedAt([x], 0) && x.large && x.Carries(p) ==> ToBeAsked(Answered(d, i, x), p)
  {
    AnswersMean(d, i, x);
    if x.Carries(p) {
      FlightIsToBeAsked(d, i, p);
    }
  }

  lemma AnsweredKeepsSends(d: Division, i: nat, x: Exchange, log: seq<Exchange>,
                           server: nat -> Turn, limits: Limits, depth: nat)
    requires Partition(d) && i < |d.flight| <= depth && Sends(d, log, server, limits, depth)
    requires Carried(d.flight[i], x) && |x.data| > 0 && x.answer == server(|log|).answer
    ensures Sends(Answered(d, i, x), log + [x], server, limits, depth)
  {
    var d', log' := Answered(d, i, x), log + [x];
    forall k, p | SizeRefusedAt(log', k) && log'[k].large && log'[k].Carries(p)
      ensures Later(log', k, p) || ToBeAsked(d', p)
    {
      AnsweredSends(d, i, x, p);
      if k < |log| {
        assert SizeRefusedAt(log, k) && log[k].Carries(p);
        LaterMore(log, x, k, p);
      }
    }
    WithoutIsIn(d.flight, i);
    forall j | 0 <= j < |d'.flight|
      ensures Sized(d'.flight[j].piece.length, d'.flight[j].large, limits)
    {
      assert d'.flight[j] in d.flight;
    }
  }

  lemma SendingKeepsSends(d: Division, d': Division, log: seq<Exchange>, server: nat -> Turn, limits: Limits,
                          depth: nat)
    requires Sends(d, log, server, limits, depth) && AllSized(d'.flight, limits)
    requires FirstFailure(log, None) && Sent(d, d')
    ensures Sends(d', log, server, limits, depth)
  {
  }

  lemma FailsAsItSaid(d: Division, log: seq<Exchange>, failure: Option<IoError>, server: nat -> Turn, limits: Limits,
                      depth: nat, offset: nat, data: seq<byte>)
    requires FirstFailure(log, failure) && SentRight(log, offset, data)
    requires Sends(d, log, server, limits, depth) && |d.flight| == 0
    ensures FailsAsAnswered(log, failure, depth)
  {
    forall k | 0 <= k < |log|
      ensures forall error :: FailsWith(log[k], error) <==> log[k].Error() == Some(error)
    {
      FailsAsItSays(log[k]);
    }
    if failure.Some? {
      var k :| FirstAt(log, k, failure);
      assert FailsFirstAt(log, k, failure.value);
    }
  }

  /** With nothing more to be sent, what was refused for its size was sent again. */
  lemma Settled(d: Division, log: seq<Exchange>)
    requires Partition(d) && SentAgain(log, d) && |d.flight| == 0 && |d.queue| == 0
    ensures AllSentAgain(log)
  {
    forall k, p | SizeRefusedAt(log, k) && log[k].large && log[k].Carries(p)
      ensures Later(log, k, p)
    {
      NoneToBeAsked(d, p);
    }
  }

  /** The failure a write reports: that of its earliest failing answer, and none
      when no answer failed. */
  ghost predicate FirstFailure(log: seq<Exchange>, failure: Option<IoError>) {
    if failure.None? then forall k :: 0 <= k < |log| ==> log[k].Error().None?
    else exists k :: FirstAt(log, k, failure)
  }

  ghost predicate FirstAt(log: seq<Exchange>, k: int, failure: Option<IoError>) {
    && 0 <= k < |log| && log[k].Error() == failure
    && (forall j :: 0 <= j < k ==> log[j].Error().None?)
  }

  lemma FailureMore(log: seq<Exchange>, failure: Option<IoError>, x: Exchange)
    requires FirstFailure(log, failure)
    ensures FirstFailure(log + [x], if failure.Some? then failure else x.Error())
  {
    if failure.Some? {
      var k :| FirstAt(log, k, failure);
      assert FirstAt(log + [x], k, failure);
    } else if x.Error().Some? {
      assert FirstAt(log + [x], |log|, x.Error());
    }
  }

  // ---- Which bytes were acknowledged ----

  ghost predicate AckedBy(log: seq<Exchange>, k: int, p: int) {
    0 <= k < |log| && log[k].Acknowledges(p)
  }

  ghost predicate Acked(log: seq<Exchange>, p: int) {
    exists k :: AckedBy(log, k, p)
  }

  /** The covered bytes are those some answer acknowledged, and none was
      acknowledged twice. */
  ghost predicate Taken(log: seq<Exchange>, covered: set<int>) {
    && (forall p :: p in covered ==> Acked(log, p))
    && (forall k, p :: AckedBy(log, k, p) ==> p in covered)
    && (forall k, l, p :: AckedBy(log, k, p) && AckedBy(log, l, p) ==> k == l)
  }

  /** Every request carried the caller's bytes for the place it wrote them to. */
  ghost predicate SentRight(log: seq<Exchange>, offset: nat, data: seq<byte>) {
    forall k :: 0 <= k < |log| ==>
      && log[k].start + |log[k].data| <= |data| && |log[k].data| > 0
      && log[k].at == offset + log[k].start
      && log[k].data == data[log[k].start..log[k].start + |log[k].data|]
  }

  lemma TakenMore(log: seq<Exchange>, x: Exchange, covered: set<int>)
    requires Taken(log, covered) && covered !! C.Span(x.start, x.start + x.Taken())
    ensures Taken(log + [x], covered + C.Span(x.start, x.start + x.Taken()))
  {
    var log', covered' := log + [x], covered + C.Span(x.start, x.start + x.Taken());
    forall p | p in covered'
      ensures Acked(log', p)
    {
      if p in covered {
        assert Acked(log, p);
        var k :| AckedBy(log, k, p);
        assert AckedBy(log', k, p);
      } else {
        assert AckedBy(log', |log|, p);
      }
    }
    forall k, p | AckedBy(log', k, p)
      ensures k < |log| ==> AckedBy(log, k, p) && p in covered
      ensures k == |log| ==> p in C.Span(x.start, x.start + x.Taken())
    {
      if k < |log| {
        assert AckedBy(log, k, p);
      }
    }
  }

  lemma AnsweredKeepsTaken(d: Division, i: nat, x: Exchange, log: seq<Exchange>)
    requires Partition(d) && i < |d.flight| && Carried(d.flight[i], x) && Taken(log, d.covered)
    ensures Taken(log + [x], Answered(d, i, x).covered)
  {
    InFlightIsUncovered(d, i);
    TakenMore(log, x, d.covered);
    assert x.Taken() == 0 ==> d.covered + C.Span(x.start, x.start + x.Taken()) == d.covered;
  }

  lemma AnsweredKeepsAccounts(d: Division, i: nat, x: Exchange, answers: nat, refused: nat,
                              was: bool, downgraded: bool, depth: nat)
    requires Partition(d) && i < |d.flight| && Accounts(d, answers, refused, was, depth) && Carried(d.flight[i], x)
    requires downgraded == (was || (x.answer.Wrote? && RefusesTheSize(x.answer.status)))
    ensures var d' := Answered(d, i, x);
      && Partition(d') && d'.length == d.length && |d'.flight| + 1 == |d.flight|
      && Accounts(d', answers + 1, refused + One(x.SentBack()), downgraded, depth)
      && (if x.SentBack() then Owed(d') == Owed(d) && Large(d'.flight) < Large(d.flight) else Owed(d') < Owed(d))
      && (x.Error().None? ==> d'.dropped == d.dropped)
  {
    var d' := Answered(d, i, x);
    if x.SentBack() {
      RequeuedSendsBack(d, i);
      SendingBackKeepsAccounts(d, d', answers, refused, was, depth);
    } else {
      if x.Error().Some? {
        DroppedSettles(d, i);
      } else {
        FilledSettles(d, i, x.Taken());
      }
      SettlingKeepsAccounts(d, d', answers, refused, was, downgraded, depth);
    }
  }

  // ---- The progress handle beside the loop ----

  /** A chunk's ticket is in the group and says where in the file it went. */
  ghost predicate Ticketed(s: P.State, chunk: Chunk, offset: nat) {
    && chunk.ticket in s.tickets
    && s.tickets[chunk.ticket] == P.Ticket(offset + chunk.piece.start, chunk.piece.length, false)
  }

  /** The chunks in flight, and no others, have joined the group since the write
      began at state `was`. */
  ghost predicate Joined(was: P.State, s: P.State, flight: seq<Chunk>, offset: nat) {
    && s.issuing && s.base == was.base
    && s.outstanding == was.outstanding + |flight|
    && (forall i :: 0 <= i < |flight| ==> Ticketed(s, flight[i], offset))
    && (forall i, j :: 0 <= i < j < |flight| ==> flight[i].ticket != flight[j].ticket)
  }

  /** What an answer claims of the handle, which counts from `base` and takes what
      lies before that to be at it. */
  function Claimed(x: Exchange, base: nat): set<int> {
    C.Span(P.Below(base, x.at), P.Below(base, x.at) + x.Taken())
  }

  /** What the handle covers once it has heard of every answer in turn: a claim to
      a byte covered already is not recorded. */
  function Heard(was: set<int>, log: seq<Exchange>, base: nat): (now: set<int>)
    ensures was <= now
  {
    if |log| == 0 then was
    else
      var before, claimed := Heard(was, log[..|log| - 1], base), Claimed(log[|log| - 1], base);
      if before !! claimed then before + claimed else before
  }

  ghost predicate Synced(was: P.State, s: P.State, flight: seq<Chunk>, log: seq<Exchange>, offset: nat) {
    Joined(was, s, flight, offset) && s.covered == Heard(was.covered, log, s.base)
  }

  lemma IssuedKeepsSynced(was: P.State, s: P.State, d: Division, log: seq<Exchange>, offset: nat,
                          size: nat, large: bool, ticket: nat)
    requires Synced(was, s, d.flight, log, offset) && Pick(d, size, true).Some?
    requires ticket !in s.tickets
    ensures var piece := Pick(d, size, true).value;
      Synced(was, P.Next(s, P.Issue(ticket, offset + piece.start, piece.length)),
             Issued(d, size, true, large, ticket).flight, log, offset)
  {
    forall i | 0 <= i < |d.flight|
      ensures d.flight[i].ticket != ticket
    {
      assert Ticketed(s, d.flight[i], offset);
    }
  }

  lemma WithoutAt(flight: seq<Chunk>, i: nat, k: nat)
    requires i < |flight| && k < |flight| - 1
    ensures Without(flight, i)[k] == if k < i then flight[k] else flight[k + 1]
  {
  }

  /** What the end of a chunk does to the handle while its write issues. */
  lemma EndedWhileIssuing(s: P.State, id: nat, count: Option<nat>)
    requires P.Sound(s) && s.issuing && id in s.tickets && !s.tickets[id].applied
    ensures var s' := P.Ended(s, id, count);
      && s'.tickets == s.tickets[id := s.tickets[id].(applied := true)]
      && s'.outstanding == s.outstanding - 1
      && s'.issuing && s'.base == s.base && s'.covered == P.Recorded(s, id, count).covered
  {
    P.RecordKeepsSound(s, id, count);
    P.MarkKeepsSound(P.Recorded(s, id, count), id);
    P.NextKeepsSound(P.Marked(P.Recorded(s, id, count), id), P.CountOut);
  }

  lemma EndKeepsJoined(was: P.State, s: P.State, flight: seq<Chunk>, offset: nat, i: nat, s': P.State)
    requires Joined(was, s, flight, offset) && i < |flight| && Ticketed(s, flight[i], offset)
    requires s'.tickets == s.tickets[flight[i].ticket := s.tickets[flight[i].ticket].(applied := true)]
    requires s'.outstanding == s.outstanding - 1 && s'.issuing && s'.base == s.base
    ensures Joined(was, s', Without(flight, i), offset)
  {
    var rest := Without(flight, i);
    forall k | 0 <= k < |rest|
      ensures Ticketed(s', rest[k], offset)
    {
      WithoutAt(flight, i, k);
      assert Ticketed(s, flight[if k < i then k else k + 1], offset);
    }
    forall k, l | 0 <= k < l < |rest|
      ensures rest[k].ticket != rest[l].ticket
    {
      WithoutAt(flight, i, k);
      WithoutAt(flight, i, l);
    }
  }

  lemma AcknowledgedIsClaimed(x: Exchange, s: P.State, t: P.Ticket)
    requires t.offset == x.at && t.offered == |x.data|
    ensures P.Acknowledged(s, t, x.Count()) == Claimed(x, s.base)
  {
  }

  lemma HeardMore(was: set<int>, log: seq<Exchange>, x: Exchange, base: nat)
    ensures var before, claimed := Heard(was, log, base), Claimed(x, base);
      Heard(was, log + [x], base) == if before !! claimed then before + claimed else before
  {
    assert (log + [x])[..|log|] == log;
  }

  lemma RecordedIsHeard(was: set<int>, log: seq<Exchange>, x: Exchange, s: P.State, id: nat)
    requires id in s.tickets && s.tickets[id].offset == x.at && s.tickets[id].offered == |x.data|
    requires s.covered == Heard(was, log, s.base)
    ensures P.Recorded(s, id, x.Count()).covered == Heard(was, log + [x], s.base)
  {
    AcknowledgedIsClaimed(x, s, s.tickets[id]);
    HeardMore(was, log, x, s.base);
  }

  lemma AnsweredKeepsSynced(was: P.State, s: P.State, d: Division, log: seq<Exchange>, offset: nat, i: nat, x: Exchange)
    requires Synced(was, s, d.flight, log, offset) && i < |d.flight| && Carried(d.flight[i], x) && P.Sound(s)
    requires Ticketed(s, d.flight[i], offset) && x.at == offset + x.start
    ensures Synced(was, P.Ended(s, d.flight[i].ticket, x.Count()), Answered(d, i, x).flight, log + [x], offset)
  {
    EndedWhileIssuing(s, d.flight[i].ticket, x.Count());
    EndKeepsJoined(was, s, d.flight, offset, i, P.Ended(s, d.flight[i].ticket, x.Count()));
    RecordedIsHeard(was.covered, log, x, s, d.flight[i].ticket);
  }

  // ---- What the handle has heard, against what was acknowledged ----

  ghost predicate ClaimedBy(log: seq<Exchange>, k: int, q: int, base: nat) {
    0 <= k < |log| && q in Claimed(log[k], base)
  }

  /** **The handle claims only what was acknowledged**, wherever it was registered:
      what it covers it covered before, or some answer claims it. */
  lemma {:induction false} HeardIsClaimed(was: set<int>, log: seq<Exchange>, base: nat, q: int)
    ensures q in Heard(was, log, base) ==> q in was || exists k :: ClaimedBy(log, k, q, base)
    decreases |log|
  {
    if |log| > 0 {
      var rest := log[..|log| - 1];
      HeardIsClaimed(was, rest, base, q);
      assert forall k :: ClaimedBy(rest, k, q, base) ==> ClaimedBy(log, k, q, base);
      assert q in Claimed(log[|log| - 1], base) ==> ClaimedBy(log, |log| - 1, q, base);
    }
  }

  /** Claims that meet neither each other nor what was covered are all recorded. */
  lemma {:induction false} ClaimedIsHeard(was: set<int>, log: seq<Exchange>, base: nat)
    requires forall k, q :: ClaimedBy(log, k, q, base) ==> q !in was
    requires forall k, l, q :: ClaimedBy(log, k, q, base) && ClaimedBy(log, l, q, base) ==> k == l
    ensures forall k, q :: ClaimedBy(log, k, q, base) ==> q in Heard(was, log, base)
    decreases |log|
  {
    if |log| > 0 {
      var n := |log| - 1;
      var rest := log[..n];
      assert forall k, q :: ClaimedBy(rest, k, q, base) ==> ClaimedBy(log, k, q, base);
      ClaimedIsHeard(was, rest, base);
      forall q | q in Claimed(log[n], base)
        ensures q !in Heard(was, rest, base)
      {
        assert ClaimedBy(log, n, q, base);
        HeardIsClaimed(was, rest, base, q);
      }
      HeardMore(was, rest, log[n], base);
      assert log == rest + [log[n]];
      forall k, q | ClaimedBy(log, k, q, base)
        ensures q in Heard(was, log, base)
      {
        if k < n {
          assert ClaimedBy(rest, k, q, base);
        }
      }
    }
  }

  /** The positions of `s`, `shift` further on. */
  function Shifted(s: set<int>, shift: int): (r: set<int>)
    ensures forall q :: q in r <==> q - shift in s
  {
    var r := set p | p in s :: p + shift;
    assert forall q {:trigger q in r} :: q - shift in s ==> (q - shift) + shift in r;
    r
  }

  lemma ClaimedIsAcked(log: seq<Exchange>, base: nat, offset: nat, data: seq<byte>, k: int, q: int)
    requires SentRight(log, offset, data) && base <= offset
    ensures ClaimedBy(log, k, q, base) <==> AckedBy(log, k, q - (offset - base))
  {
  }

  /** What is newly covered are bytes of `taken`, `shift` further on, and all of them
      where nothing of the span was covered before. */
  ghost predicate Adds(was: set<int>, now: set<int>, taken: set<int>, shift: nat, length: nat) {
    && was <= now && (forall q :: q in now && q !in was ==> q - shift in taken)
    && (was !! C.Span(shift, shift + length) ==> Shifted(taken, shift) <= now)
  }

  /** Where nothing of the place written was covered, all that was acknowledged is heard. */
  lemma AckedIsHeard(was: set<int>, log: seq<Exchange>, base: nat, offset: nat, data: seq<byte>, taken: set<int>)
    requires SentRight(log, offset, data) && Taken(log, taken) && taken <= C.Span(0, |data|) && base <= offset
    requires was !! C.Span(offset - base, offset - base + |data|)
    ensures Shifted(taken, offset - base) <= Heard(was, log, base)
  {
    var shift := offset - base;
    forall k, q | ClaimedBy(log, k, q, base)
      ensures q !in was && AckedBy(log, k, q - shift)
    {
      ClaimedIsAcked(log, base, offset, data, k, q);
      assert q - shift in C.Span(0, |data|) && q in C.Span(shift, shift + |data|);
    }
    ClaimedIsHeard(was, log, base);
    forall q | q in Shifted(taken, shift)
      ensures q in Heard(was, log, base)
    {
      assert Acked(log, q - shift);
      var k :| AckedBy(log, k, q - shift);
      ClaimedIsAcked(log, base, offset, data, k, q);
    }
  }

  /** **The prefix is the data's**: of a handle registered at or before the place
      written, with none of that place covered, what is newly covered is what was
      acknowledged, at its place. */
  lemma HeardIsAcked(was: set<int>, log: seq<Exchange>, base: nat, offset: nat, data: seq<byte>, taken: set<int>)
    requires SentRight(log, offset, data) && Taken(log, taken) && taken <= C.Span(0, |data|) && base <= offset
    ensures Adds(was, Heard(was, log, base), taken, offset - base, |data|)
  {
    var shift := offset - base;
    forall q | q in Heard(was, log, base) && q !in was
      ensures q - shift in taken
    {
      HeardIsClaimed(was, log, base, q);
      var k :| ClaimedBy(log, k, q, base);
      ClaimedIsAcked(log, base, offset, data, k, q);
    }
    if was !! C.Span(shift, shift + |data|) {
      AckedIsHeard(was, log, base, offset, data, taken);
    }
  }

  // ---- The loop ----

  /** What holds of the loop between answers. */
  ghost predicate Going(d: Division, log: seq<Exchange>, failure: Option<IoError>, offset: nat, data: seq<byte>,
                        refused: nat, downgraded: bool, depth: nat) {
    && Partition(d) && d.length == |data|
    && Accounts(d, |log|, refused, downgraded, depth)
    && Taken(log, d.covered) && SentRight(log, offset, data)
    && FirstFailure(log, failure) && (failure.None? ==> d.dropped == {})
  }

  /** The request that a chunk in flight is. */
  function Request(chunk: Chunk, offset: nat, data: seq<byte>, answer: WriteAnswer): Exchange
    requires Inside(chunk.piece, |data|)
  {
    var piece := chunk.piece;
    Exchange(offset + piece.start, piece.start, data[piece.start..piece.start + piece.length], chunk.large, answer)
  }

  lemma SentRightMore(log: seq<Exchange>, chunk: Chunk, offset: nat, data: seq<byte>, answer: WriteAnswer)
    requires SentRight(log, offset, data) && Inside(chunk.piece, |data|)
    ensures SentRight(log + [Request(chunk, offset, data, answer)], offset, data)
  {
  }

  lemma AnsweredKeepsGoing(d: Division, i: nat, x: Exchange, log: seq<Exchange>, failure: Option<IoError>,
                           offset: nat, data: seq<byte>, refused: nat, was: bool, downgraded: bool, depth: nat)
    requires Going(d, log, failure, offset, data, refused, was, depth)
    requires i < |d.flight| && x == Request(d.flight[i], offset, data, x.answer)
    requires downgraded == (was || (x.answer.Wrote? && RefusesTheSize(x.answer.status)))
    ensures var d' := Answered(d, i, x);
      && Going(d', log + [x], if failure.Some? then failure else x.Error(), offset, data,
               refused + One(x.SentBack()), downgraded, depth)
      && |d'.flight| + 1 == |d.flight|
      && (if x.SentBack() then Owed(d') == Owed(d) && Large(d'.flight) < Large(d.flight) else Owed(d') < Owed(d))
  {
    AnsweredKeepsAccounts(d, i, x, |log|, refused, was, downgraded, depth);
    AnsweredKeepsTaken(d, i, x, log);
    SentRightMore(log, d.flight[i], offset, data, x.answer);
    FailureMore(log, failure, x);
  }

  /** Sends the piece picked, with a ticket of its own from the handle. */
  method SendPiece(progress: I.WriteProgress, d: Division, size: nat, large: bool, offset: nat, ghost was: P.State,
                   ghost log: seq<Exchange>, ghost refused: nat, ghost downgraded: bool, ghost depth: nat,
                   ghost limits: Limits)
    returns (d': Division)
    requires progress.Valid() && Partition(d) && Synced(was, progress.State(), d.flight, log, offset)
    requires size > 0 && Pick(d, size, true).Some? && |d.flight| < depth
    requires Accounts(d, |log|, refused, downgraded, depth) && (downgraded ==> !large)
    requires AllSized(d.flight, limits) && size <= limits.cap && (limits.quiet && !large ==> size <= limits.small)
    modifies progress`outstanding, progress`tickets, progress`serial
    ensures progress.Valid() && Synced(was, progress.State(), d'.flight, log, offset)
    ensures Sent(d, d') && |d'.flight| == |d.flight| + 1
    ensures Accounts(d', |log|, refused, downgraded, depth) && AllSized(d'.flight, limits)
    ensures downgraded ==> Large(d'.flight) == Large(d.flight)
  {
    var piece := Pick(d, size, true).value;
    ghost var before := progress.State();
    var ticket := progress.Chunk(offset + piece.start, piece.length);
    IssuedKeepsSynced(was, before, d, log, offset, size, large, ticket);
    IssuedKeepsAccounts(d, size, true, large, ticket, |log|, refused, downgraded, depth);
    SizedMore(d, size, true, large, ticket, limits);
    d' := Issued(d, size, true, large, ticket);
  }

  /** Sends the next chunk, if there is one. `others` says when other traffic on the
      connection has just had it recorded small-buffer, which may fall between the
      reading of the chunk's size and the reading of whether it is a large one. */
  method SendChunk(conn: Connection, progress: I.WriteProgress, d: Division, depth: nat, offset: nat,
                   others: nat -> bool, issues: nat, ghost was: P.State, ghost log: seq<Exchange>, ghost refused: nat,
                   ghost limits: Limits, ghost heard: nat)
    returns (d': Division, sent: bool, ghost heard': nat)
    requires conn.Valid() && progress.Valid() && Partition(d) && Synced(was, progress.State(), d.flight, log, offset)
    requires Accounts(d, |log|, refused, conn.downgraded, depth) && |d.flight| < depth
    requires Limiting(conn, conn.largeWrites, others, limits) && AllSized(d.flight, limits)
    requires 2 * issues <= heard <= 2 * issues + 2 && (Small(others, heard) ==> conn.downgraded)
    modifies conn, progress`outstanding, progress`tickets, progress`serial
    ensures conn.downgraded <==> old(conn.downgraded) || Small(others, heard')
    ensures heard <= heard' == 2 * issues + 2 && AllSized(d'.flight, limits)
    ensures progress.Valid() && Synced(was, progress.State(), d'.flight, log, offset)
    ensures Sent(d, d') && |d'.flight| == |d.flight| + One(sent)
    ensures !sent ==> d'.queue == [] && d'.next == d'.length
    ensures Accounts(d', |log|, refused, conn.downgraded, depth)
    ensures old(conn.downgraded) ==> Large(d'.flight) == Large(d.flight)
  {
    ghost var before := progress.State();
    conn.Hear(others(2 * issues));
    var size := conn.ChunkSize(conn.largeWrites);
    conn.Hear(others(2 * issues + 1));
    heard' := 2 * issues + 2;
    Transfer.HeardMore(others, heard, heard', old(conn.downgraded), conn.downgraded);
    assert progress.Valid() && progress.State() == before;
    HearingKeepsAccounts(d, |log|, refused, old(conn.downgraded), conn.downgraded, depth);
    if Pick(d, size, true).None? {
      return d, false, heard';
    }
    d' := SendPiece(progress, d, size, !conn.downgraded, offset, was, log, refused, conn.downgraded, depth, limits);
    return d', true, heard';
  }

  /** The loop's inner loop: sends chunks until `depth` are in flight. */
  method SendChunks(conn: Connection, progress: I.WriteProgress, d: Division, depth: nat, offset: nat,
                    others: nat -> bool, issues: nat, ghost was: P.State, ghost log: seq<Exchange>, ghost refused: nat,
                    ghost limits: Limits, ghost heard: nat)
    returns (d': Division, issues': nat, ghost heard': nat)
    requires conn.Valid() && progress.Valid() && Partition(d) && Synced(was, progress.State(), d.flight, log, offset)
    requires Accounts(d, |log|, refused, conn.downgraded, depth) && issues == |log| + |d.flight|
    requires Limiting(conn, conn.largeWrites, others, limits) && AllSized(d.flight, limits)
    requires 2 * issues <= heard <= 2 * issues + 2 && (Small(others, heard) ==> conn.downgraded)
    modifies conn, progress`outstanding, progress`tickets, progress`serial
    ensures conn.downgraded <==> old(conn.downgraded) || Small(others, heard')
    ensures 2 * issues' <= heard' <= 2 * issues' + 2 && heard <= heard' && AllSized(d'.flight, limits)
    ensures progress.Valid() && Synced(was, progress.State(), d'.flight, log, offset)
    ensures Sent(d, d') && issues' == |log| + |d'.flight|
    ensures Accounts(d', |log|, refused, conn.downgraded, depth)
    ensures old(conn.downgraded) ==> Large(d'.flight) == Large(d.flight)
    ensures |d'.flight| >= depth || (d'.queue == [] && d'.next == d'.length)
  {
    d', issues', heard' := d, issues, heard;
    var sent := true;
    while sent && |d'.flight| < depth
      invariant conn.downgraded <==> old(conn.downgraded) || Small(others, heard')
      invariant 2 * issues' <= heard' <= 2 * issues' + 2 && heard <= heard' && AllSized(d'.flight, limits)
      invariant progress.Valid() && Synced(was, progress.State(), d'.flight, log, offset)
      invariant Sent(d, d') && issues' == |log| + |d'.flight|
      invariant Accounts(d', |log|, refused, conn.downgraded, depth)
      invariant old(conn.downgraded) ==> Large(d'.flight) == Large(d.flight)
      invariant !sent ==> d'.queue == [] && d'.next == d'.length
      decreases depth - |d'.flight|, sent
    {
      d', sent, heard' :=
        SendChunk(conn, progress, d', depth, offset, others, issues', was, log, refused, limits, heard');
      issues' := issues' + One(sent);
    }
  }

  /** Sending settles nothing. */
  ghost predicate Sent(d: Division, d': Division) {
    && Partition(d') && d'.length == d.length && Owed(d') == Owed(d) && d.next <= d'.next
    && d'.covered == d.covered && d'.dropped == d.dropped
  }

  lemma SentKeepsGoing(d: Division, d': Division, log: seq<Exchange>, offset: nat, data: seq<byte>,
                       refused: nat, was: bool, downgraded: bool, depth: nat)
    requires Going(d, log, None, offset, data, refused, was, depth) && Sent(d, d')
    requires Accounts(d', |log|, refused, downgraded, depth)
    ensures Going(d', log, None, offset, data, refused, downgraded, depth)
    ensures d'.flight == [] && d'.queue == [] && d'.next == d'.length ==> d'.covered == C.Span(0, |data|)
  {
    if d'.flight == [] && d'.queue == [] && d'.next == d'.length {
      NothingOwed(d');
    }
  }

  /** The same, over the whole of what holds of the loop. */
  method SendMore(conn: Connection, progress: I.WriteProgress, d: Division, depth: nat, offset: nat, data: seq<byte>,
                  others: nat -> bool, issues: nat, ghost was: P.State, ghost log: seq<Exchange>, ghost refused: nat,
                  ghost server: nat -> Turn, ghost limits: Limits, ghost heard: nat)
    returns (d': Division, issues': nat, ghost heard': nat)
    requires conn.Valid() && progress.Valid() && Synced(was, progress.State(), d.flight, log, offset)
    requires Going(d, log, None, offset, data, refused, conn.downgraded, depth) && issues == |log| + |d.flight|
    requires Sends(d, log, server, limits, depth) && Limiting(conn, conn.largeWrites, others, limits)
    requires 2 * issues <= heard <= 2 * issues + 2 && (Small(others, heard) ==> conn.downgraded)
    modifies conn, progress`outstanding, progress`tickets, progress`serial
    ensures conn.downgraded <==> old(conn.downgraded) || Small(others, heard')
    ensures 2 * issues' <= heard' <= 2 * issues' + 2 && heard <= heard' && Sends(d', log, server, limits, depth)
    ensures progress.Valid() && Synced(was, progress.State(), d'.flight, log, offset)
    ensures Going(d', log, None, offset, data, refused, conn.downgraded, depth) && issues' == |log| + |d'.flight|
    ensures Owed(d') == Owed(d) && (old(conn.downgraded) ==> Large(d'.flight) == Large(d.flight))
    ensures depth > 0 && |d'.flight| == 0 ==> |d'.queue| == 0 && d'.covered == C.Span(0, |data|)
  {
    d', issues', heard' :=
      SendChunks(conn, progress, d, depth, offset, others, issues, was, log, refused, limits, heard);
    SendingKeepsSends(d, d', log, server, limits, depth);
    SentKeepsGoing(d, d', log, offset, data, refused, old(conn.downgraded), conn.downgraded, depth);
  }

  /** Acts on one answer: the division moves on as `Answered` says, and the write
      fails with what `Error` says, if anything. */
  method Acknowledge(conn: Connection, d: Division, i: nat, x: Exchange) returns (d': Division, failed: Option<IoError>)
    requires i < |d.flight| && Carried(d.flight[i], x)
    modifies conn
    ensures d' == Answered(d, i, x) && failed == x.Error()
    ensures conn.downgraded == (old(conn.downgraded) || (x.answer.Wrote? && RefusesTheSize(x.answer.status)))
  {
    if x.answer.Unanswered? {
      return Dropped(d, i), Some(Transport(x.answer.code));
    }
    var status := x.answer.status;
    if RefusesTheSize(status) {
      conn.RecordSmallBuffer();
      if x.large {
        return Requeued(d, i), None;
      }
    }
    if status != Success {
      return Dropped(d, i), Some(Refused(status));
    }
    if x.answer.count.None? {
      return Dropped(d, i), Some(Undecodable);
    }
    var acknowledged := Least(x.answer.count.value, |x.data|);
    if acknowledged == 0 {
      return Dropped(d, i), Some(NoProgress(x.start, |x.data|));
    }
    return Filled(d, i, acknowledged), None;
  }

  /** One chunk ends: the handle hears of it and the loop acts on it. */
  method EndChunk(conn: Connection, progress: I.WriteProgress, d: Division, turn: Turn, failure: Option<IoError>,
                  offset: nat, data: seq<byte>,
                  ghost depth: nat, ghost was: P.State, ghost log: seq<Exchange>, ghost refused: nat,
                  ghost server: nat -> Turn, ghost limits: Limits)
    returns (d': Division, failure': Option<IoError>, ghost log': seq<Exchange>, ghost refused': nat)
    requires progress.Valid() && Synced(was, progress.State(), d.flight, log, offset) && |d.flight| > 0
    requires Going(d, log, failure, offset, data, refused, conn.downgraded, depth)
    requires Sends(d, log, server, limits, depth) && turn == server(|log|)
    modifies conn, progress`outstanding, progress`tickets, progress`finalPrefix, progress`signalled, progress`leaving,
             progress`settling, progress`signalling, progress.covered
    ensures progress.Valid() && Synced(was, progress.State(), d'.flight, log', offset)
    ensures Going(d', log', failure', offset, data, refused', conn.downgraded, depth)
    ensures |log'| == |log| + 1 && |d'.flight| + 1 == |d.flight| && Sends(d', log', server, limits, depth)
    ensures Owed(d') < Owed(d) || (Owed(d') == Owed(d) && conn.downgraded && Large(d'.flight) < Large(d.flight))
    ensures conn.downgraded <==> old(conn.downgraded) || SizeRefusedAt(log', |log|)
    ensures SomeSizeRefused(log') <==> SomeSizeRefused(log) || SizeRefusedAt(log', |log|)
  {
    var i := turn.pick % |d.flight|;
    var x := Request(d.flight[i], offset, data, turn.answer);
    assert Ticketed(progress.State(), d.flight[i], offset);
    AnsweredKeepsSynced(was, progress.State(), d, log, offset, i, x);
    progress.Ended(d.flight[i].ticket, x.Count());
    log', refused' := log + [x], refused + One(x.SentBack());
    var failed;
    d', failed := Acknowledge(conn, d, i, x);
    failure' := if failure.Some? then failure else failed;
    AnsweredKeepsGoing(d, i, x, log, failure, offset, data, refused, old(conn.downgraded), conn.downgraded, depth);
    AnsweredKeepsSends(d, i, x, log, server, limits, depth);
    SomeSizeRefusedMore(log, x);
  }

  lemma NothingTaken(offset: nat, data: seq<byte>)
    ensures Taken([], {}) && SentRight([], offset, data) && FirstFailure([], None)
  {
  }

  /** The whole of the data still to be sent. */
  method Begin(offset: nat, data: seq<byte>, ghost was: P.State, ghost downgraded: bool, ghost depth: nat,
               ghost server: nat -> Turn, ghost limits: Limits)
    returns (d: Division, ghost log: seq<Exchange>)
    requires was.issuing
    ensures |log| == 0 && Synced(was, was, d.flight, log, offset)
    ensures Going(d, log, None, offset, data, 0, downgraded, depth)
    ensures |d.flight| == 0 && |d.queue| == 0 && (|data| == 0 ==> d.covered == C.Span(0, |data|))
    ensures Sends(d, log, server, limits, depth)
  {
    d, log := Start(|data|), [];
    NothingTaken(offset, data);
    StartHasAccounts(|data|, downgraded, depth);
  }

  /** The loop of a write: it runs until nothing is on the wire and, unless a
      chunk has failed, nothing is left to send. */
  method SendAll(conn: Connection, data: seq<byte>, offset: nat, depth: nat, progress: I.WriteProgress,
                 server: nat -> Turn, others: nat -> bool, ghost limits: Limits)
    returns (failure: Option<IoError>, ghost log: seq<Exchange>, ghost heard: nat, ghost d: Division,
             ghost refused: nat)
    requires conn.Valid() && progress.Valid() && progress.issuing
    requires Limiting(conn, conn.largeWrites, others, limits)
    modifies conn, progress`outstanding, progress`tickets, progress`serial, progress`finalPrefix, progress`signalled,
             progress`leaving, progress`settling, progress`signalling, progress.covered
    ensures conn.downgraded <==> old(conn.downgraded) || Small(others, heard) || SomeSizeRefused(log)
    ensures Sends(d, log, server, limits, depth)
    ensures progress.Valid() && Synced(old(progress.State()), progress.State(), d.flight, log, offset)
    ensures Going(d, log, failure, offset, data, refused, conn.downgraded, depth)
    ensures |d.flight| == 0 && (depth > 0 && failure.None? ==> |d.queue| == 0 && d.covered == C.Span(0, |data|))
  {
    ghost var was := progress.State();
    var now;
    now, log := Begin(offset, data, was, conn.downgraded, depth, server, limits);
    var issues: nat, answered: nat := 0, 0;
    failure, heard, refused := None, 0, 0;
    if |data| == 0 {
      d := now;
      return;
    }
    while true
      invariant conn.downgraded <==> old(conn.downgraded) || Small(others, heard) || SomeSizeRefused(log)
      invariant progress.Valid() && Synced(was, progress.State(), now.flight, log, offset)
      invariant answered == |log| && issues == answered + |now.flight|
      invariant 2 * issues <= heard <= 2 * issues + 2 && Sends(now, log, server, limits, depth)
      invariant Limiting(conn, conn.largeWrites, others, limits)
      invariant Going(now, log, failure, offset, data, refused, conn.downgraded, depth)
      decreases Owed(now), One(!conn.downgraded), Large(now.flight)
    {
      if failure.None? {
        now, issues, heard := SendMore(conn, progress, now, depth, offset, data, others, issues, was, log, refused,
                                       server, limits, heard);
      }
      if |now.flight| == 0 {
        d := now;
        return;
      }
      var turn := server(answered);
      now, failure, log, refused :=
        EndChunk(conn, progress, now, turn, failure, offset, data, depth, was, log, refused, server, limits);
      answered := answered + 1;
    }
  }

  /** What a write leaves the handle with, `acked` being the bytes of its data that
      were acknowledged. */
  ghost predicate Leaves(was: P.State, s: P.State, log: seq<Exchange>, acked: set<int>, offset: nat, length: nat) {
    && s.outstanding == was.outstanding && s.base == was.base && s.issuing
    && s.covered == Heard(was.covered, log, was.base)
    && (was.base <= offset ==> Adds(was.covered, s.covered, acked, offset - was.base, length))
  }

  lemma EmptiedBounds(d: Division, log: seq<Exchange>, failure: Option<IoError>, offset: nat, data: seq<byte>,
                      refused: nat, downgraded: bool, depth: nat)
    requires Going(d, log, failure, offset, data, refused, downgraded, depth) && |d.flight| == 0
    ensures |log| <= |data| + depth && d.covered <= C.Span(0, |data|)
  {
  }

  lemma NothingJoined(was: P.State, s: P.State, flight: seq<Chunk>, log: seq<Exchange>, offset: nat)
    requires Synced(was, s, flight, log, offset) && |flight| == 0
    ensures s.outstanding == was.outstanding && s.base == was.base && s.issuing
    ensures s.covered == Heard(was.covered, log, was.base)
  {
  }

  /** A write that failed carries the prefix the handle has by then. */
  method Report(progress: I.WriteProgress, failure: Option<IoError>) returns (r: Result<(), IoError>)
    requires progress.Valid()
    ensures progress.Valid() && progress.State() == old(progress.State())
    ensures failure.None? ==> r == Ok(())
    ensures failure.Some? ==> r == Err(WritePartial(P.Written(progress.State()), failure.value))
  {
    if failure.None? {
      return Ok(());
    }
    var written := progress.Written();
    return Err(WritePartial(written, failure.value));
  }

  lemma LeavesHeard(log: seq<Exchange>, taken: set<int>, offset: nat, data: seq<byte>, was: P.State, s: P.State)
    requires s.outstanding == was.outstanding && s.base == was.base && s.issuing
    requires s.covered == Heard(was.covered, log, was.base)
    requires SentRight(log, offset, data) && Taken(log, taken) && taken <= C.Span(0, |data|)
    ensures Leaves(was, s, log, taken, offset, |data|)
  {
    if was.base <= offset {
      HeardIsAcked(was.covered, log, was.base, offset, data, taken);
    }
  }

  lemma Concludes(d: Division, log: seq<Exchange>, failure: Option<IoError>, offset: nat, data: seq<byte>,
                  depth: nat, server: nat -> Turn, limits: Limits)
    requires FirstFailure(log, failure) && SentRight(log, offset, data) && Partition(d)
    requires Sends(d, log, server, limits, depth) && |d.flight| == 0
    requires depth > 0 && failure.None? ==> |d.queue| == 0
    ensures Fair(log, server, limits) && FailsAsAnswered(log, failure, depth)
    ensures failure.None? && depth > 0 ==> AllSentAgain(log)
  {
    FailsAsItSaid(d, log, failure, server, limits, depth, offset, data);
    if depth > 0 && failure.None? {
      Settled(d, log);
    }
  }

  /** All of a write but its report: what was sent, and what became of it. */
  method SendWhole(conn: Connection, data: seq<byte>, offset: nat, depth: nat, progress: I.WriteProgress,
                   server: nat -> Turn, others: nat -> bool)
    returns (failure: Option<IoError>, ghost log: seq<Exchange>, ghost acked: set<int>, ghost heard: nat)
    requires conn.Valid() && progress.Valid() && progress.issuing
    modifies conn, progress`outstanding, progress`tickets, progress`serial, progress`finalPrefix, progress`signalled,
             progress`leaving, progress`settling, progress`signalling, progress.covered
    ensures conn.downgraded <==> old(conn.downgraded) || Small(others, heard) || SomeSizeRefused(log)
    ensures SentRight(log, offset, data) && Fair(log, server, old(Bounds(conn, conn.largeWrites, others)))
    ensures |log| <= |data| + depth
    ensures Taken(log, acked) && acked <= C.Span(0, |data|)
    ensures progress.Valid() && Leaves(old(progress.State()), progress.State(), log, acked, offset, |data|)
    ensures FailsAsAnswered(log, failure, depth)
    ensures failure.None? && depth > 0 ==> acked == C.Span(0, |data|) && AllSentAgain(log)
  {
    ghost var d, refused;
    ghost var limits := Bounds(conn, conn.largeWrites, others);
    failure, log, heard, d, refused := SendAll(conn, data, offset, depth, progress, server, others, limits);
    acked := d.covered;
    EmptiedBounds(d, log, failure, offset, data, refused, conn.downgraded, depth);
    NothingJoined(old(progress.State()), progress.State(), d.flight, log, offset);
    LeavesHeard(log, acked, offset, data, old(progress.State()), progress.State());
    Concludes(d, log, failure, offset, data, depth, server, limits);
  }

  /** Writes the data with up to `depth` chunks on the wire, against whatever `server`
      answers. It ends against every server, having been answered at most
      length + depth times.

      - It succeeds exactly when no answer failed, and then every byte of the data
        has been acknowledged, once, by the answer to a request that carried it, and
        a large chunk that was refused for its size was sent again, all of it.
      - It fails with the first failure, after all that was sent has been answered,
        and with the handle's prefix. Nothing is sent after that failure.
      - Either way the handle has heard of every answer in turn, and of nothing
        else; where it was registered no later in the file than the data is
        written, what it newly covers is bytes of the data that were acknowledged,
        each at its place, and all of those if it covered none of that place.

      No request is longer than the connection allows, and the connection is
      small-buffer afterwards exactly if it was before, other traffic made it so
      (`heard` is how much of that was heard), or an answer refused a chunk for its
      size. */
  method WriteSpan(conn: Connection, data: seq<byte>, offset: nat, depth: nat, progress: I.WriteProgress,
                   server: nat -> Turn, others: nat -> bool)
    returns (r: Result<(), IoError>, ghost log: seq<Exchange>, ghost acked: set<int>, ghost heard: nat)
    requires conn.Valid() && progress.Valid() && progress.issuing
    modifies conn, progress`outstanding, progress`tickets, progress`serial, progress`finalPrefix, progress`signalled,
             progress`leaving, progress`settling, progress`signalling, progress.covered
    ensures conn.downgraded <==> old(conn.downgraded) || Small(others, heard) || SomeSizeRefused(log)
    ensures SentRight(log, offset, data) && Fair(log, server, old(Bounds(conn, conn.largeWrites, others)))
    ensures |log| <= |data| + depth
    ensures Taken(log, acked) && acked <= C.Span(0, |data|)
    ensures progress.Valid() && Leaves(old(progress.State()), progress.State(), log, acked, offset, |data|)
    ensures r.Ok? || r.error.WritePartial?
    ensures FailsAsAnswered(log, if r.Ok? then None else Some(r.error.source), depth)
    ensures r.Ok? && depth > 0 ==> acked == C.Span(0, |data|) && AllSentAgain(log)
    ensures r.Err? ==>
      C.Span(0, r.error.written) <= progress.State().covered && r.error.written !in progress.State().covered
  {
    var failure;
    failure, log, acked, heard := SendWhole(conn, data, offset, depth, progress, server, others);
    r := Report(progress, failure);
    assert failure == if r.Ok? then None else Some(r.error.source);
  }
}
