/** The pipelined read: chunks of a span are asked for, answered in any order,
    short, empty or refused, and asked for again, until every byte of the span is
    in the buffer or past the end of the file. */
module ReadLoop {
  import opened Wrappers
  import opened Chunks
  import opened Transfer
  import C = Coverage

  datatype ReadAnswer =
    | Unanswered(code: nat)
    | Read(status: IoStatus, data: Option<seq<byte>>)

  /** Which chunk in flight is answered next, and how. */
  datatype Turn = Turn(pick: nat, answer: ReadAnswer)

  /** One request the loop made, and its answer: `length` bytes of the file from
      `at`, for the place `start` of the span. */
  datatype Exchange = Exchange(at: nat, start: nat, length: nat, large: bool, answer: ReadAnswer) {

    /** The bytes the answer gave, no more than were asked for. */
    function Given(): (given: seq<byte>)
      ensures answer.Read? && answer.status == Success && answer.data.Some? ==>
        given <= answer.data.value && |given| <= length && (|given| == length || given == answer.data.value)
      ensures !(answer.Read? && answer.status == Success && answer.data.Some?) ==> given == []
    {
      if answer.Read? && answer.status == Success && answer.data.Some? then
        answer.data.value[..Least(|answer.data.value|, length)]
      else []
    }

    predicate Gives(p: int) { start <= p < start + |Given()| }

    /** Whether the request was for the byte at `p` of the span. */
    predicate AsksFor(p: int) { start <= p < start + length }

    /** Whether the answer says the file ends within the chunk. */
    predicate EndsFile() {
      answer.Read? && (answer.status == EndOfFile
        || (answer.status == Success && answer.data.Some? && Given() == []))
    }

    /** A large chunk refused for its size, which is asked for again smaller. */
    predicate SentBack() {
      answer.Read? && RefusesTheSize(answer.status) && large
    }

    /** What the answer fails the read with, if it does. */
    function Failure(): Option<IoError> {
      match answer
      case Unanswered(code) => Some(Transport(code))
      case Read(status, data) =>
        if SentBack() || status == EndOfFile then None
        else if status != Success then Some(Refused(status))
        else if data.None? then Some(Undecodable)
        else None
    }
  }

  datatype Move = Fails(error: IoError) | Goes(division: Division)

  /** What one answer does to the division of the span. */
  function Answered(d: Division, i: nat, x: Exchange): Move
    requires i < |d.flight| && x.length == d.flight[i].piece.length
  {
    if x.Failure().Some? then Fails(x.Failure().value)
    else if x.SentBack() then Goes(Requeued(d, i))
    else if x.EndsFile() then Goes(Dropped(d, i))
    else Goes(Filled(d, i, |x.Given()|))
  }

  /** What an answer means, status by status. A chunk sent back goes to the queue whole;
      one the file ends within is asked for no more; of any other that succeeds, what
      it gives is covered and the rest goes to the queue; and all else fails the read. */
  lemma AnswersMean(d: Division, i: nat, x: Exchange)
    requires i < |d.flight| && x.length == d.flight[i].piece.length
    ensures x.answer.Unanswered? ==> Answered(d, i, x) == Fails(Transport(x.answer.code))
    ensures x.answer.Read? && x.answer.status in {InvalidSmb, InvalidParameter, InsufficientResources} ==>
      Answered(d, i, x) ==
        if x.large then Goes(d.(flight := Without(d.flight, i), queue := d.queue + [d.flight[i].piece]))
        else Fails(Refused(x.answer.status))
    ensures x.answer.Read? && x.answer.status == EndOfFile ==>
      Answered(d, i, x) ==
        Goes(d.(flight := Without(d.flight, i), dropped := d.dropped + d.flight[i].piece.Positions()))
    ensures x.answer.Read? && x.answer.status.OtherIo? ==> Answered(d, i, x) == Fails(Refused(x.answer.status))
    ensures x.answer.Read? && x.answer.status == Success && x.answer.data.None? ==>
      Answered(d, i, x) == Fails(Undecodable)
    ensures x.answer.Read? && x.answer.status == Success && x.answer.data.Some? ==>
      Answered(d, i, x).Goes?
      && (var got, piece, d' := x.Given(), d.flight[i].piece, Answered(d, i, x).division;
          && d'.flight == Without(d.flight, i) && d'.next == d.next && d'.length == d.length
          && (got == [] ==> d'.dropped == d.dropped + piece.Positions() && d'.covered == d.covered)
          && (got != [] ==>
                && d'.dropped == d.dropped && d'.covered == d.covered + C.Span(piece.start, piece.start + |got|)
                && d'.queue == if |got| == piece.length then d.queue
                               else d.queue + [Piece(piece.start + |got|, piece.length - |got|)]))
  {
  }

  /** Some answer refused a chunk for its size. */
  ghost predicate SomeSizeRefused(log: seq<Exchange>) {
    exists k :: SizeRefusedAt(log, k)
  }

  ghost predicate SizeRefusedAt(log: seq<Exchange>, k: int) {
    && 0 <= k < |log| && log[k].answer.Read?
    && log[k].answer.status in {InvalidSmb, InvalidParameter, InsufficientResources}
  }

  /** What a read fails with, status by status. */
  ghost predicate FailsWith(x: Exchange, error: IoError) {
    match x.answer
    case Unanswered(code) => error == Transport(code)
    case Read(status, data) =>
      if status == Success then data.None? && error == Undecodable
      else
        && status != EndOfFile && error == Refused(status)
        && (status in {InvalidSmb, InvalidParameter, InsufficientResources} ==> !x.large)
  }

  lemma FailsAsItSays(x: Exchange)
    ensures forall error :: FailsWith(x, error) <==> x.Failure() == Some(error)
  {
  }

  /** No answer but the last fails the read, and that only with what the read fails with. */
  ghost predicate FailsAsAnswered(log: seq<Exchange>, failure: Option<IoError>) {
    && (forall k, error :: 0 <= k < |log| - One(failure.Some?) ==> !FailsWith(log[k], error))
    && (failure.Some? ==> |log| > 0 && FailsWith(log[|log| - 1], failure.value))
  }

  lemma FailsAsItSaid(log: seq<Exchange>, failure: Option<IoError>)
    requires FailedLast(log, failure)
    ensures FailsAsAnswered(log, failure)
  {
    forall k | 0 <= k < |log|
      ensures forall error :: FailsWith(log[k], error) <==> log[k].Failure() == Some(error)
    {
      FailsAsItSays(log[k]);
    }
  }

  /** A large chunk that was refused for its size was asked for again: every byte of it
      was, later, or is still to be. */
  ghost predicate AskedAgain(log: seq<Exchange>, d: Division) {
    forall k, p :: SizeRefusedAt(log, k) && log[k].large && log[k].AsksFor(p) ==> Later(log, k, p) || ToBeAsked(d, p)
  }

  /** Every byte of it was. */
  ghost predicate AllAskedAgain(log: seq<Exchange>) {
    forall k, p :: SizeRefusedAt(log, k) && log[k].large && log[k].AsksFor(p) ==> Later(log, k, p)
  }

  ghost predicate Later(log: seq<Exchange>, k: int, p: int) {
    exists l :: 0 <= k < l < |log| && log[l].AsksFor(p)
  }

  /** Every request is within bounds, and the answer to each is what the server gave
      for its turn. */
  ghost predicate Fair(log: seq<Exchange>, server: nat -> Turn, limits: Limits) {
    forall k :: 0 <= k < |log| ==>
      log[k].answer == server(k).answer && Sized(log[k].length, log[k].large, limits)
  }

  /** What holds beside the division: how the requests were made. */
  ghost predicate Asks(d: Division, log: seq<Exchange>, server: nat -> Turn, limits: Limits) {
    AskedAgain(log, d) && Fair(log, server, limits) && AllSized(d.flight, limits)
  }

  lemma LaterMore(log: seq<Exchange>, x: Exchange, k: int, p: int)
    requires 0 <= k < |log|
    ensures Later(log, k, p) || x.AsksFor(p) ==> Later(log + [x], k, p)
  {
    if Later(log, k, p) {
      var l :| 0 <= k < l < |log| && log[l].AsksFor(p);
      assert (log + [x])[l] == log[l];
    } else if x.AsksFor(p) {
      assert (log + [x])[|log|] == x;
    }
  }

  /** What is still to be asked for, and is not in the chunk that was answered, is still
      to be asked for; and so is all of that, if it is sent back. */
  lemma AnsweredAsks(d: Division, i: nat, x: Exchange, p: int)
    requires Partition(d) && i < |d.flight| && x.large == d.flight[i].large
    requires x.start == d.flight[i].piece.start && x.length == d.flight[i].piece.length
    requires Answered(d, i, x).Goes?
    ensures ToBeAsked(d, p) && !x.AsksFor(p) ==> ToBeAsked(Answered(d, i, x).division, p)
    ensures SizeRefusedAt([x], 0) && x.large && x.AsksFor(p) ==> ToBeAsked(Answered(d, i, x).division, p)
  {
    AnswersMean(d, i, x);
    if x.AsksFor(p) {
      FlightIsToBeAsked(d, i, p);
    }
  }

  lemma AnsweredKeepsAsks(d: Division, i: nat, x: Exchange, log: seq<Exchange>, server: nat -> Turn, limits: Limits)
    requires Partition(d) && i < |d.flight| && Asks(d, log, server, limits)
    requires x.start == d.flight[i].piece.start && x.length == d.flight[i].piece.length && x.large == d.flight[i].large
    requires Answered(d, i, x).Goes? && x.answer == server(|log|).answer
    ensures Asks(Answered(d, i, x).division, log + [x], server, limits)
  {
    var d', log' := Answered(d, i, x).division, log + [x];
    AnswersMean(d, i, x);
    forall k, p | SizeRefusedAt(log', k) && log'[k].large && log'[k].AsksFor(p)
      ensures Later(log', k, p) || ToBeAsked(d', p)
    {
      AnsweredAsks(d, i, x, p);
      if k < |log| {
        assert SizeRefusedAt(log, k) && log[k].AsksFor(p);
        LaterMore(log, x, k, p);
      }
    }
    WithoutIsIn(d.flight, i);
    forall j | 0 <= j < |d'.flight|
      ensures Sized(d'.flight[j].piece.length, d'.flight[j].large, limits)
    {
      assert d'.flight[j] in d.flight;
    }
  }

  lemma AskingKeepsAsks(d: Division, d': Division, log: seq<Exchange>, server: nat -> Turn, limits: Limits)
    requires Asks(d, log, server, limits) && AllSized(d'.flight, limits)
    requires d.next <= d'.next && d'.covered == d.covered && d'.dropped == d.dropped
    ensures Asks(d', log, server, limits)
  {
  }

  lemma SomeSizeRefusedMore(log: seq<Exchange>, x: Exchange)
    ensures SomeSizeRefused(log + [x]) <==> SomeSizeRefused(log) || SizeRefusedAt([x], 0)
  {
    if k :| SizeRefusedAt(log, k) {
      assert SizeRefusedAt(log + [x], k);
    }
    if SizeRefusedAt([x], 0) {
      assert SizeRefusedAt(log + [x], |log|);
    }
    if k :| SizeRefusedAt(log + [x], k) {
      assert k < |log| ==> SizeRefusedAt(log, k);
    }
  }

  ghost predicate GivesAt(log: seq<Exchange>, k: int, p: int) {
    0 <= k < |log| && log[k].Gives(p)
  }

  ghost predicate Given(log: seq<Exchange>, p: int) {
    exists k :: GivesAt(log, k, p)
  }

  /** The covered bytes are those the answers gave; none was given twice; each is
      in the buffer where it belongs; and the rest of the buffer is untouched. */
  ghost predicate Sourced(log: seq<Exchange>, covered: set<int>, buffer: seq<byte>, was: seq<byte>) {
    && |buffer| == |was|
    && (forall p :: p in covered ==> 0 <= p < |buffer| && Given(log, p))
    && (forall k, p :: GivesAt(log, k, p) ==>
          p in covered && p < |buffer| && buffer[p] == log[k].Given()[p - log[k].start])
    && (forall k, l, p :: GivesAt(log, k, p) && GivesAt(log, l, p) ==> k == l)
    && (forall p :: 0 <= p < |buffer| && p !in covered ==> buffer[p] == was[p])
  }

  /** Every request was for the bytes of the file that its place in the span
      calls for. */
  ghost predicate AskedRight(log: seq<Exchange>, offset: nat, length: nat) {
    forall k :: 0 <= k < |log| ==>
      log[k].at == offset + log[k].start && log[k].length > 0 && log[k].start + log[k].length <= length
  }

  ghost predicate SomeEnd(log: seq<Exchange>) {
    exists k :: 0 <= k < |log| && log[k].EndsFile()
  }

  /** A read fails with the failure of its last answer, and with no other. */
  ghost predicate FailedLast(log: seq<Exchange>, failure: Option<IoError>) {
    && (forall k :: 0 <= k < |log| - One(failure.Some?) ==> log[k].Failure().None?)
    && (failure.Some? ==> log != [] && log[|log| - 1].Failure() == failure)
  }

  lemma GivingNothing(log: seq<Exchange>, x: Exchange, covered: set<int>, buffer: seq<byte>, was: seq<byte>)
    requires Sourced(log, covered, buffer, was) && x.Given() == []
    ensures Sourced(log + [x], covered, buffer, was)
  {
    forall p | p in covered
      ensures Given(log + [x], p)
    {
      assert Given(log, p);
      var k :| GivesAt(log, k, p);
      assert GivesAt(log + [x], k, p);
    }
    forall k, p | GivesAt(log + [x], k, p)
      ensures GivesAt(log, k, p)
    {
    }
  }

  lemma GivingBytes(log: seq<Exchange>, x: Exchange, covered: set<int>,
                    buffer: seq<byte>, buffer': seq<byte>, was: seq<byte>)
    requires Sourced(log, covered, buffer, was)
    requires x.start + |x.Given()| <= |buffer| && covered !! C.Span(x.start, x.start + |x.Given()|)
    requires |buffer'| == |buffer|
    requires forall p :: 0 <= p < |buffer| ==>
      buffer'[p] == if x.Gives(p) then x.Given()[p - x.start] else buffer[p]
    ensures Sourced(log + [x], covered + C.Span(x.start, x.start + |x.Given()|), buffer', was)
  {
    var log', covered' := log + [x], covered + C.Span(x.start, x.start + |x.Given()|);
    forall p | p in covered'
      ensures 0 <= p < |buffer'| && Given(log', p)
    {
      if p in covered {
        assert Given(log, p);
        var k :| GivesAt(log, k, p);
        assert GivesAt(log', k, p);
      } else {
        assert GivesAt(log', |log|, p);
      }
    }
    forall k, p | GivesAt(log', k, p)
      ensures k < |log| ==> GivesAt(log, k, p) && p in covered && !x.Gives(p)
      ensures k == |log| ==> x.Gives(p) && p !in covered
    {
      if k < |log| {
        assert GivesAt(log, k, p);
      } else {
        assert p in C.Span(x.start, x.start + |x.Given()|);
      }
    }
  }

  lemma SomeEndNext(log: seq<Exchange>, x: Exchange)
    ensures SomeEnd(log + [x]) <==> SomeEnd(log) || x.EndsFile()
  {
    var log' := log + [x];
    if x.EndsFile() {
      assert log'[|log|].EndsFile();
    }
    if k :| 0 <= k < |log| && log[k].EndsFile() {
      assert log'[k].EndsFile();
    }
  }

  lemma AnsweredKeepsAccounts(d: Division, i: nat, x: Exchange, answers: nat, refused: nat,
                              was: bool, downgraded: bool, depth: nat)
    requires Partition(d) && i < |d.flight| && Accounts(d, answers, refused, was, depth)
    requires x.length == d.flight[i].piece.length && x.large == d.flight[i].large
    requires downgraded == (was || (x.answer.Read? && RefusesTheSize(x.answer.status)))
    requires Answered(d, i, x).Goes?
    ensures var d' := Answered(d, i, x).division;
      && Partition(d') && d'.length == d.length
      && Accounts(d', answers + 1, refused + One(x.SentBack()), downgraded, depth)
      && |d'.flight| + 1 == |d.flight|
      && (if x.SentBack() then Owed(d') == Owed(d) && Large(d'.flight) < Large(d.flight) else Owed(d') < Owed(d))
      && (!x.EndsFile() ==> d'.dropped == d.dropped)
  {
    var d' := Answered(d, i, x).division;
    if x.SentBack() {
      RequeuedSendsBack(d, i);
      SendingBackKeepsAccounts(d, d', answers, refused, was, depth);
    } else {
      if x.Given() == [] {
        DroppedSettles(d, i);
      } else {
        FilledSettles(d, i, |x.Given()|);
      }
      SettlingKeepsAccounts(d, d', answers, refused, was, downgraded, depth);
    }
  }

  lemma AnsweredKeepsSourced(d: Division, i: nat, x: Exchange, log: seq<Exchange>,
                             buffer: seq<byte>, buffer': seq<byte>, was: seq<byte>)
    requires Partition(d) && i < |d.flight| && d.length == |buffer| == |buffer'|
    requires x.start == d.flight[i].piece.start && x.length == d.flight[i].piece.length && x.large == d.flight[i].large
    requires Sourced(log, d.covered, buffer, was) && Answered(d, i, x).Goes?
    requires forall p :: 0 <= p < |buffer| ==>
      buffer'[p] == if x.Gives(p) then x.Given()[p - x.start] else buffer[p]
    ensures Sourced(log + [x], Answered(d, i, x).division.covered, buffer', was)
  {
    if x.Given() == [] {
      assert buffer' == buffer;
      GivingNothing(log, x, d.covered, buffer, was);
    } else {
      InFlightIsUncovered(d, i);
      GivingBytes(log, x, d.covered, buffer, buffer', was);
    }
  }

  datatype Fill = Fill(covered: C.Coverage, atEnd: bool)

  /** Takes one answer: what it did to the division, to the buffer and to the
      connection. */
  method TakeAnswer(conn: Connection, buffer: array<byte>, covered: C.Coverage, d: Division, i: nat, x: Exchange)
    returns (move: Move, atEnd: bool)
    requires conn.Valid() && covered.Valid()
    requires Partition(d) && d.length == buffer.Length && i < |d.flight|
    requires covered.Covered() == d.covered
    requires x.start == d.flight[i].piece.start && x.length == d.flight[i].piece.length && x.large == d.flight[i].large
    modifies conn, buffer, covered
    ensures move == Answered(d, i, x)
    ensures atEnd <==> x.EndsFile()
    ensures conn.downgraded == (old(conn.downgraded) || (x.answer.Read? && RefusesTheSize(x.answer.status)))
    ensures covered.Valid()
    ensures move.Goes? ==> covered.Covered() == move.division.covered
    ensures move.Fails? ==> buffer[..] == old(buffer[..])
    ensures move.Goes? ==> forall p :: 0 <= p < buffer.Length ==>
      buffer[p] == if x.Gives(p) then x.Given()[p - x.start] else old(buffer[p])
  {
    atEnd := false;
    if x.answer.Unanswered? {
      return Fails(Transport(x.answer.code)), atEnd;
    }
    var status := x.answer.status;
    if RefusesTheSize(status) {
      conn.RecordSmallBuffer();
      if x.large {
        return Goes(Requeued(d, i)), atEnd;
      }
    }
    if status == EndOfFile {
      return Goes(Dropped(d, i)), true;
    }
    if status != Success {
      return Fails(Refused(status)), atEnd;
    }
    if x.answer.data.None? {
      return Fails(Undecodable), atEnd;
    }
    var got := Least(|x.answer.data.value|, x.length);
    if got == 0 {
      return Goes(Dropped(d, i)), true;
    }
    InFlightIsUncovered(d, i);
    var given := x.Given();
    forall k | 0 <= k < got {
      buffer[x.start + k] := given[k];
    }
    var overlap := Fails(Overlapping(x.start, got));
    var taken := covered.Cover(x.start, got);
    if !taken {
      assert false;
      return overlap, atEnd;
    }
    return Goes(Filled(d, i, got)), atEnd;
  }

  /** What holds of the loop between answers. */
  ghost predicate Going(d: Division, log: seq<Exchange>, buffer: seq<byte>, was: seq<byte>, atEnd: bool,
                        offset: nat, refused: nat, downgraded: bool, depth: nat) {
    && Partition(d) && d.length == |buffer|
    && Accounts(d, |log|, refused, downgraded, depth)
    && Sourced(log, d.covered, buffer, was) && AskedRight(log, offset, |buffer|) && FailedLast(log, None)
    && (atEnd <==> SomeEnd(log)) && (!atEnd ==> d.dropped == {})
  }

  /** The request that a chunk in flight is. */
  function Request(chunk: Chunk, offset: nat, answer: ReadAnswer): Exchange {
    Exchange(offset + chunk.piece.start, chunk.piece.start, chunk.piece.length, chunk.large, answer)
  }

  lemma AskedRightMore(log: seq<Exchange>, offset: nat, length: nat, chunk: Chunk, answer: ReadAnswer)
    requires AskedRight(log, offset, length) && Inside(chunk.piece, length)
    ensures AskedRight(log + [Request(chunk, offset, answer)], offset, length)
  {
  }

  lemma FailedLastMore(log: seq<Exchange>, x: Exchange)
    requires FailedLast(log, None)
    ensures FailedLast(log + [x], x.Failure())
  {
  }

  lemma AnsweredKeepsGoing(d: Division, i: nat, x: Exchange, log: seq<Exchange>,
                           buffer: seq<byte>, buffer': seq<byte>, was: seq<byte>, atEnd: bool,
                           offset: nat, refused: nat, before: bool, downgraded: bool, depth: nat)
    requires Going(d, log, buffer, was, atEnd, offset, refused, before, depth)
    requires i < |d.flight| && x == Request(d.flight[i], offset, x.answer) && Answered(d, i, x).Goes?
    requires |buffer'| == |buffer|
    requires forall p :: 0 <= p < |buffer| ==>
      buffer'[p] == if x.Gives(p) then x.Given()[p - x.start] else buffer[p]
    requires downgraded == (before || (x.answer.Read? && RefusesTheSize(x.answer.status)))
    ensures var d' := Answered(d, i, x).division;
      && Going(d', log + [x], buffer', was, atEnd || x.EndsFile(), offset,
               refused + One(x.SentBack()), downgraded, depth)
      && |d'.flight| + 1 == |d.flight|
      && (if x.SentBack() then Owed(d') == Owed(d) && Large(d'.flight) < Large(d.flight) else Owed(d') < Owed(d))
  {
    AnsweredKeepsAccounts(d, i, x, |log|, refused, before, downgraded, depth);
    AnsweredKeepsSourced(d, i, x, log, buffer, buffer', was);
    AskedRightMore(log, offset, |buffer|, d.flight[i], x.answer);
    FailedLastMore(log, x);
    SomeEndNext(log, x);
  }

  /** Asking settles nothing. */
  lemma AskingKeepsGoing(d: Division, d': Division, log: seq<Exchange>, buffer: seq<byte>, was: seq<byte>, atEnd: bool,
                         offset: nat, refused: nat, before: bool, downgraded: bool, depth: nat)
    requires Going(d, log, buffer, was, atEnd, offset, refused, before, depth)
    requires Partition(d') && d'.length == d.length && d'.covered == d.covered && d'.dropped == d.dropped
    requires Accounts(d', |log|, refused, downgraded, depth)
    ensures Going(d', log, buffer, was, atEnd, offset, refused, downgraded, depth)
    ensures |d'.flight| == 0 && |d'.queue| == 0 && d'.next == d'.length && !atEnd ==> d'.covered == C.Span(0, |buffer|)
  {
    if d'.flight == [] && d'.queue == [] && d'.next == d'.length && !atEnd {
      NothingOwed(d');
    }
  }

  lemma NothingAsked(offset: nat, buffer: seq<byte>)
    ensures Sourced([], {}, buffer, buffer) && AskedRight([], offset, |buffer|)
    ensures FailedLast([], None) && !SomeEnd([])
  {
  }

  /** The whole of the span still to be asked for. */
  method Begin(buffer: array<byte>, offset: nat, ghost downgraded: bool, ghost depth: nat) returns (d: Division)
    ensures Going(d, [], buffer[..], buffer[..], false, offset, 0, downgraded, depth)
    ensures |d.flight| == 0 && d.covered == {} && (buffer.Length == 0 ==> d.covered == C.Span(0, buffer.Length))
  {
    d := Start(buffer.Length);
    NothingAsked(offset, buffer[..]);
    StartHasAccounts(buffer.Length, downgraded, depth);
  }

  /** The loop's inner loop, over the whole of what holds of the loop. */
  method AskMore(conn: Connection, buffer: array<byte>, d: Division, depth: nat, atEnd: bool, others: nat -> bool,
                 issues: nat, offset: nat, ghost log: seq<Exchange>, ghost was: seq<byte>, ghost refused: nat,
                 ghost server: nat -> Turn, ghost limits: Limits, ghost heard: nat)
    returns (d': Division, issues': nat, ghost heard': nat)
    requires conn.Valid() && issues == |log| + |d.flight|
    requires Going(d, log, buffer[..], was, atEnd, offset, refused, conn.downgraded, depth)
    requires Asks(d, log, server, limits) && Limiting(conn, conn.largeReads, others, limits)
    requires 2 * issues <= heard <= 2 * issues + 2 && (Small(others, heard) ==> conn.downgraded)
    modifies conn
    ensures conn.downgraded <==> old(conn.downgraded) || Small(others, heard')
    ensures 2 * issues' <= heard' <= 2 * issues' + 2 && heard <= heard'
    ensures Going(d', log, buffer[..], was, atEnd, offset, refused, conn.downgraded, depth)
    ensures Asks(d', log, server, limits) && issues' == |log| + |d'.flight|
    ensures Owed(d') == Owed(d) && d'.covered == d.covered
    ensures old(conn.downgraded) ==> Large(d'.flight) == Large(d.flight)
    ensures |d'.flight| == 0 && depth > 0 ==> |d'.queue| == 0 && (!atEnd ==> d'.covered == C.Span(0, buffer.Length))
  {
    d', issues', heard' :=
      TopUp(conn, conn.largeReads, d, depth, !atEnd, others, issues, |log|, refused, limits, heard);
    AskingKeepsGoing(d, d', log, buffer[..], was, atEnd, offset, refused, old(conn.downgraded), conn.downgraded, depth);
    AskingKeepsAsks(d, d', log, server, limits);
  }

  /** One chunk is answered, and the loop acts on it. */
  method TakeTurn(conn: Connection, buffer: array<byte>, covered: C.Coverage, d: Division, turn: Turn, offset: nat,
                  ghost log: seq<Exchange>, ghost was: seq<byte>, ghost atEnd: bool, ghost refused: nat,
                  ghost depth: nat, ghost server: nat -> Turn, ghost limits: Limits)
    returns (move: Move, ends: bool, ghost log': seq<Exchange>, ghost refused': nat)
    requires conn.Valid() && covered.Valid() && covered.Covered() == d.covered && |d.flight| > 0
    requires Going(d, log, buffer[..], was, atEnd, offset, refused, conn.downgraded, depth)
    requires Asks(d, log, server, limits) && turn == server(|log|)
    modifies conn, buffer, covered
    ensures |log'| == |log| + 1 && AskedRight(log', offset, buffer.Length) && Fair(log', server, limits)
    ensures conn.downgraded <==> old(conn.downgraded) || SizeRefusedAt(log', |log|)
    ensures SomeSizeRefused(log') <==> SomeSizeRefused(log) || SizeRefusedAt(log', |log|)
    ensures covered.Valid()
    ensures move.Fails? ==> FailedLast(log', Some(move.error))
    ensures move.Goes? ==>
      var d' := move.division;
      && covered.Covered() == d'.covered && |d'.flight| + 1 == |d.flight|
      && Going(d', log', buffer[..], was, atEnd || ends, offset, refused', conn.downgraded, depth)
      && Asks(d', log', server, limits)
      && (Owed(d') < Owed(d) || (Owed(d') == Owed(d) && conn.downgraded && Large(d'.flight) < Large(d.flight)))
  {
    var i := turn.pick % |d.flight|;
    var x := Request(d.flight[i], offset, turn.answer);
    ghost var before, small := buffer[..], conn.downgraded;
    move, ends := TakeAnswer(conn, buffer, covered, d, i, x);
    log', refused' := log + [x], refused + One(x.SentBack());
    AskedRightMore(log, offset, buffer.Length, d.flight[i], turn.answer);
    SomeSizeRefusedMore(log, x);
    if move.Fails? {
      FailedLastMore(log, x);
    } else {
      AnsweredKeepsGoing(d, i, x, log, before, buffer[..], was, atEnd, offset, refused, small, conn.downgraded, depth);
      AnsweredKeepsAsks(d, i, x, log, server, limits);
    }
  }

  /** The loop of a read: it runs until an answer fails it, or nothing is on the wire and
      nothing is left to ask for. */
  method ReadAll(conn: Connection, buffer: array<byte>, covered: C.Coverage, offset: nat, depth: nat,
                 server: nat -> Turn, others: nat -> bool, ghost limits: Limits)
    returns (failure: Option<IoError>, atEnd: bool, ghost log: seq<Exchange>, ghost heard: nat, ghost d: Division,
             ghost refused: nat)
    requires conn.Valid() && covered.Valid() && covered.Covered() == {}
    requires Limiting(conn, conn.largeReads, others, limits)
    modifies conn, buffer, covered
    ensures conn.downgraded <==> old(conn.downgraded) || Small(others, heard) || SomeSizeRefused(log)
    ensures AskedRight(log, offset, buffer.Length) && Fair(log, server, limits) && FailedLast(log, failure)
    ensures |log| <= buffer.Length + depth && covered.Valid()
    ensures failure.None? ==>
      && Going(d, log, buffer[..], old(buffer[..]), atEnd, offset, refused, conn.downgraded, depth)
      && AskedAgain(log, d) && covered.Covered() == d.covered
      && |d.flight| == 0 && (depth > 0 ==> |d.queue| == 0 && (!atEnd ==> d.covered == C.Span(0, buffer.Length)))
  {
    atEnd := false;
    var now := Begin(buffer, offset, conn.downgraded, depth);
    log, heard, failure, refused, d := [], 0, None, 0, now;
    if buffer.Length == 0 {
      return;
    }
    ghost var was := buffer[..];
    var issues: nat, answered: nat := 0, 0;
    while true
      invariant conn.downgraded <==> old(conn.downgraded) || Small(others, heard) || SomeSizeRefused(log)
      invariant covered.Valid() && covered.Covered() == now.covered
      invariant answered == |log| && issues == answered + |now.flight|
      invariant 2 * issues <= heard <= 2 * issues + 2
      invariant Going(now, log, buffer[..], was, atEnd, offset, refused, conn.downgraded, depth)
      invariant Asks(now, log, server, limits) && Limiting(conn, conn.largeReads, others, limits)
      decreases Owed(now), One(!conn.downgraded), Large(now.flight)
    {
      now, issues, heard :=
        AskMore(conn, buffer, now, depth, atEnd, others, issues, offset, log, was, refused, server, limits, heard);
      if |now.flight| == 0 {
        d := now;
        return;
      }
      var turn := server(answered);
      var move, ends;
      move, ends, log, refused :=
        TakeTurn(conn, buffer, covered, now, turn, offset, log, was, atEnd, refused, depth, server, limits);
      if move.Fails? {
        failure := Some(move.error);
        return;
      }
      atEnd, now, answered := atEnd || ends, move.division, answered + 1;
    }
  }

  /** Reads the span at `offset` with up to `depth` chunks on the wire, against whatever
      `server` answers. It ends against every server. When it succeeds:

      - it has been answered at most length + depth times;
      - each covered byte of the buffer is the byte the one answer covering it gave
        for the file's byte at that place, and the rest of the buffer is untouched;
      - `atEnd` says that some answer put the end of the file within its chunk,
        and without it the whole span is covered;
      - a large chunk that was refused for its size was asked for again, all of it.

      It fails exactly when an answer does, with that answer's failure; the overlap
      its code guards against never happens. No request is longer than the connection
      allows, and the connection is small-buffer afterwards exactly if it was before,
      other traffic made it so (`heard` is how much of that was heard), or an answer
      refused a chunk for its size. */
  method ReadSpan(conn: Connection, buffer: array<byte>, offset: nat, depth: nat,
                  server: nat -> Turn, others: nat -> bool)
    returns (r: Result<Fill, IoError>, ghost log: seq<Exchange>, ghost heard: nat)
    requires conn.Valid()
    modifies conn, buffer
    ensures conn.downgraded <==> old(conn.downgraded) || Small(others, heard) || SomeSizeRefused(log)
    ensures AskedRight(log, offset, buffer.Length) && Fair(log, server, old(Bounds(conn, conn.largeReads, others)))
    ensures |log| <= buffer.Length + depth
    ensures r.Ok? ==>
      && fresh(r.value.covered) && r.value.covered.Valid()
      && Sourced(log, r.value.covered.Covered(), buffer[..], old(buffer[..]))
      && (r.value.atEnd <==> SomeEnd(log))
      && (depth > 0 && !r.value.atEnd ==> r.value.covered.Covered() == C.Span(0, buffer.Length))
    ensures r.Ok? && depth > 0 ==> AllAskedAgain(log)
    ensures FailsAsAnswered(log, if r.Ok? then None else Some(r.error))
  {
    var covered := new C.Coverage();
    var failure, atEnd;
    ghost var d, refused;
    ghost var limits := Bounds(conn, conn.largeReads, others);
    failure, atEnd, log, heard, d, refused := ReadAll(conn, buffer, covered, offset, depth, server, others, limits);
    FailsAsItSaid(log, failure);
    if failure.Some? {
      return Err(failure.value), log, heard;
    }
    Settled(d, log, depth);
    return Ok(Fill(covered, atEnd)), log, heard;
  }

  /** With nothing more to be asked for, what was refused for its size was asked again. */
  lemma Settled(d: Division, log: seq<Exchange>, depth: nat)
    requires Partition(d) && AskedAgain(log, d) && FailedLast(log, None)
    requires |d.flight| == 0 && (depth > 0 ==> |d.queue| == 0)
    ensures depth > 0 ==> AllAskedAgain(log)
  {
    if depth > 0 {
      forall k, p | SizeRefusedAt(log, k) && log[k].large && log[k].AsksFor(p)
        ensures Later(log, k, p)
      {
        NoneToBeAsked(d, p);
      }
    }
  }
}
