/** How the two transfer loops divide a span: every byte of it is in one place at
    a time, queued, in flight, not asked for yet, covered, or given up. */
module Chunks {
  import opened Wrappers
  import C = Coverage

  /** A stretch of the span still to be asked for. */
  datatype Piece = Piece(start: nat, length: nat) {
    predicate Has(p: int) { start <= p < start + length }

    function Positions(): set<int> { C.Span(start, start + length) }
  }

  /** A piece on the wire. `large` says the connection was not small-buffer yet when
      it was issued; `ticket` is its place in the group of a write. */
  datatype Chunk = Chunk(piece: Piece, large: bool, ticket: nat)

  /** Where the bytes of a span of `length` are. */
  datatype Division = Division(
    length: nat, queue: seq<Piece>, flight: seq<Chunk>, next: nat, covered: set<int>, dropped: set<int>)

  function Start(length: nat): Division {
    Division(length, [], [], 0, {}, {})
  }

  function One(b: bool): nat { if b then 1 else 0 }

  /** How many of the pieces hold `p`. */
  function Queued(queue: seq<Piece>, p: int): nat {
    if queue == [] then 0 else Queued(queue[..|queue| - 1], p) + One(queue[|queue| - 1].Has(p))
  }

  function InFlight(flight: seq<Chunk>, p: int): nat {
    if flight == [] then 0 else InFlight(flight[..|flight| - 1], p) + One(flight[|flight| - 1].piece.Has(p))
  }

  /** In how many places `p` is. */
  function Places(d: Division, p: int): nat {
    Queued(d.queue, p) + InFlight(d.flight, p) + One(p in d.covered) + One(p in d.dropped) + One(d.next <= p < d.length)
  }

  /** The five places are a partition of the span, and no piece is empty or
      reaches outside it. */
  ghost predicate Partition(d: Division) {
    && d.next <= d.length
    && (forall i :: 0 <= i < |d.queue| ==> Inside(d.queue[i], d.length))
    && (forall i :: 0 <= i < |d.flight| ==> Inside(d.flight[i].piece, d.length))
    && d.covered <= C.Span(0, d.length) && d.dropped <= C.Span(0, d.length)
    && (forall p :: p in C.Span(0, d.length) ==> Places(d, p) == 1)
  }

  predicate Inside(piece: Piece, length: nat) {
    0 < piece.length && piece.start + piece.length <= length
  }

  // ---- Bytes still owed ----

  function QueuedBytes(queue: seq<Piece>): nat {
    if queue == [] then 0 else QueuedBytes(queue[..|queue| - 1]) + queue[|queue| - 1].length
  }

  function FlightBytes(flight: seq<Chunk>): nat {
    if flight == [] then 0 else FlightBytes(flight[..|flight| - 1]) + flight[|flight| - 1].piece.length
  }

  function Owed(d: Division): int {
    QueuedBytes(d.queue) + FlightBytes(d.flight) + d.length - d.next
  }

  function Large(flight: seq<Chunk>): nat {
    if flight == [] then 0 else Large(flight[..|flight| - 1]) + One(flight[|flight| - 1].large)
  }

  lemma LargeFew(flight: seq<Chunk>)
    ensures Large(flight) <= |flight|
  {
    if flight != [] {
      LargeFew(flight[..|flight| - 1]);
    }
  }

  // ---- Taking one out of, and putting one into, a sequence ----

  lemma QueueMore(queue: seq<Piece>, piece: Piece, p: int)
    ensures Queued(queue + [piece], p) == Queued(queue, p) + One(piece.Has(p))
  {
    assert (queue + [piece])[..|queue|] == queue;
  }

  lemma QueueMoreBytes(queue: seq<Piece>, piece: Piece)
    ensures QueuedBytes(queue + [piece]) == QueuedBytes(queue) + piece.length
  {
    assert (queue + [piece])[..|queue|] == queue;
  }

  lemma FlightMore(flight: seq<Chunk>, chunk: Chunk, p: int)
    ensures InFlight(flight + [chunk], p) == InFlight(flight, p) + One(chunk.piece.Has(p))
  {
    assert (flight + [chunk])[..|flight|] == flight;
  }

  lemma FlightMoreTotals(flight: seq<Chunk>, chunk: Chunk)
    ensures FlightBytes(flight + [chunk]) == FlightBytes(flight) + chunk.piece.length
    ensures Large(flight + [chunk]) == Large(flight) + One(chunk.large)
  {
    assert (flight + [chunk])[..|flight|] == flight;
  }

  /** The chunks in flight without the one at `i`. */
  function Without(flight: seq<Chunk>, i: nat): seq<Chunk>
    requires i < |flight|
  {
    flight[..i] + flight[i + 1..]
  }

  lemma WithoutLast(flight: seq<Chunk>, i: nat)
    requires i < |flight|
    ensures i == |flight| - 1 ==> Without(flight, i) == flight[..i]
    ensures i < |flight| - 1 ==>
      Without(flight, i) == Without(flight[..|flight| - 1], i) + [flight[|flight| - 1]]
  {
  }

  lemma {:induction false} FlightLess(flight: seq<Chunk>, i: nat, p: int)
    requires i < |flight|
    ensures InFlight(Without(flight, i), p) == InFlight(flight, p) - One(flight[i].piece.Has(p))
  {
    var n := |flight| - 1;
    WithoutLast(flight, i);
    if i < n {
      FlightLess(flight[..n], i, p);
      FlightMore(Without(flight[..n], i), flight[n], p);
    }
  }

  lemma {:induction false} FlightLessTotals(flight: seq<Chunk>, i: nat)
    requires i < |flight|
    ensures FlightBytes(Without(flight, i)) == FlightBytes(flight) - flight[i].piece.length
    ensures Large(Without(flight, i)) == Large(flight) - One(flight[i].large)
  {
    var n := |flight| - 1;
    WithoutLast(flight, i);
    if i < n {
      FlightLessTotals(flight[..n], i);
      FlightMoreTotals(Without(flight[..n], i), flight[n]);
    }
  }

  // ---- The moves of the loops ----

  /** The next piece to ask for, no longer than `size`: the last one queued, else
      the next of the tail while there is one to ask for. */
  function Pick(d: Division, size: nat, tail: bool): (picked: Option<Piece>)
    ensures picked.None? <==> d.queue == [] && !(tail && d.next < d.length)
    ensures picked.Some? ==>
      var from := if d.queue != [] then d.queue[|d.queue| - 1] else Piece(d.next, d.length - d.next);
      picked.value.start == from.start && picked.value.length <= size
      && (picked.value.length == from.length || (picked.value.length == size < from.length))
  {
    if d.queue != [] then
      var last := d.queue[|d.queue| - 1];
      Some(Piece(last.start, Least(size, last.length)))
    else if tail && d.next < d.length then Some(Piece(d.next, Least(size, d.length - d.next)))
    else None
  }

  function Least(a: nat, b: nat): (least: nat)
    ensures least <= a && least <= b && (least == a || least == b)
  {
    if a <= b then a else b
  }

  /** The division once that piece is on the wire; what is left of a queued one
      goes back on the queue. */
  function Issued(d: Division, size: nat, tail: bool, large: bool, ticket: nat): Division
    requires Pick(d, size, tail).Some?
  {
    var piece := Pick(d, size, tail).value;
    var flight := d.flight + [Chunk(piece, large, ticket)];
    if d.queue != [] then
      var n := |d.queue| - 1;
      var last := d.queue[n];
      d.(flight := flight,
         queue := if piece.length < last.length
           then d.queue[..n] + [Piece(last.start + piece.length, last.length - piece.length)]
           else d.queue[..n])
    else d.(flight := flight, next := d.next + piece.length)
  }

  /** A chunk refused for its size goes back on the queue whole. */
  function Requeued(d: Division, i: nat): Division
    requires i < |d.flight|
  {
    d.(flight := Without(d.flight, i), queue := d.queue + [d.flight[i].piece])
  }

  /** A chunk the file ends before is never asked for again. */
  function Dropped(d: Division, i: nat): Division
    requires i < |d.flight|
  {
    d.(flight := Without(d.flight, i), dropped := d.dropped + d.flight[i].piece.Positions())
  }

  /** The first `got` bytes of a chunk are in hand, the rest goes back. */
  function Filled(d: Division, i: nat, got: nat): Division
    requires i < |d.flight| && got <= d.flight[i].piece.length
  {
    var piece := d.flight[i].piece;
    d.(flight := Without(d.flight, i),
       covered := d.covered + C.Span(piece.start, piece.start + got),
       queue := if got < piece.length then d.queue + [Piece(piece.start + got, piece.length - got)] else d.queue)
  }

  lemma StartIsPartition(length: nat)
    ensures Partition(Start(length)) && Owed(Start(length)) == length
  {
  }

  /** Pieces drawn from those of a division, or else within its span, are within it. */
  lemma PiecesInside(d: Division, queue: seq<Piece>, flight: seq<Chunk>)
    requires Partition(d)
    requires forall k :: 0 <= k < |queue| ==> queue[k] in d.queue || Inside(queue[k], d.length)
    requires forall k :: 0 <= k < |flight| ==> flight[k] in d.flight || Inside(flight[k].piece, d.length)
    ensures forall k :: 0 <= k < |queue| ==> Inside(queue[k], d.length)
    ensures forall k :: 0 <= k < |flight| ==> Inside(flight[k].piece, d.length)
  {
  }

  lemma WithoutIsIn(flight: seq<Chunk>, i: nat)
    requires i < |flight|
    ensures forall k :: 0 <= k < |flight| - 1 ==> Without(flight, i)[k] in flight
  {
  }

  lemma IssuedFromQueue(d: Division, size: nat, tail: bool, large: bool, ticket: nat)
    requires Partition(d) && size > 0 && |d.queue| > 0
    ensures var d' := Issued(d, size, tail, large, ticket); Partition(d') && Owed(d') == Owed(d)
  {
    var n := |d.queue| - 1;
    var last, piece := d.queue[n], Pick(d, size, tail).value;
    var left := Piece(last.start + piece.length, last.length - piece.length);
    var d' := Issued(d, size, tail, large, ticket);
    assert d.queue == d.queue[..n] + [last];
    FlightMoreTotals(d.flight, Chunk(piece, large, ticket));
    QueueMoreBytes(d.queue[..n], last);
    QueueMoreBytes(d.queue[..n], left);
    PiecesInside(d, d'.queue, d'.flight);
    forall p | p in C.Span(0, d'.length)
      ensures Places(d', p) == 1
    {
      FlightMore(d.flight, Chunk(piece, large, ticket), p);
      QueueMore(d.queue[..n], last, p);
      QueueMore(d.queue[..n], left, p);
      assert Places(d, p) == 1;
    }
  }

  lemma IssuedFromTail(d: Division, size: nat, large: bool, ticket: nat)
    requires Partition(d) && size > 0 && |d.queue| == 0 && d.next < d.length
    ensures var d' := Issued(d, size, true, large, ticket); Partition(d') && Owed(d') == Owed(d)
  {
    var piece := Pick(d, size, true).value;
    var d' := Issued(d, size, true, large, ticket);
    FlightMoreTotals(d.flight, Chunk(piece, large, ticket));
    PiecesInside(d, d'.queue, d'.flight);
    forall p | p in C.Span(0, d'.length)
      ensures Places(d', p) == 1
    {
      FlightMore(d.flight, Chunk(piece, large, ticket), p);
      assert Places(d, p) == 1;
    }
  }

  lemma RequeuedPlaces(d: Division, i: nat, p: int)
    requires i < |d.flight|
    ensures Places(Requeued(d, i), p) == Places(d, p)
  {
    FlightLess(d.flight, i, p);
    QueueMore(d.queue, d.flight[i].piece, p);
  }

  lemma RequeuedIsPartition(d: Division, i: nat)
    requires Partition(d) && i < |d.flight|
    ensures Partition(Requeued(d, i)) && Owed(Requeued(d, i)) == Owed(d)
  {
    var d' := Requeued(d, i);
    FlightLessTotals(d.flight, i);
    QueueMoreBytes(d.queue, d.flight[i].piece);
    WithoutIsIn(d.flight, i);
    PiecesInside(d, d'.queue, d'.flight);
    forall p | p in C.Span(0, d'.length)
      ensures Places(d', p) == 1
    {
      RequeuedPlaces(d, i, p);
      assert Places(d, p) == 1;
    }
  }

  lemma DroppedIsPartition(d: Division, i: nat)
    requires Partition(d) && i < |d.flight|
    ensures Partition(Dropped(d, i)) && Owed(Dropped(d, i)) < Owed(d)
  {
    var d' := Dropped(d, i);
    FlightLessTotals(d.flight, i);
    WithoutIsIn(d.flight, i);
    PiecesInside(d, d'.queue, d'.flight);
    forall p | p in C.Span(0, d'.length)
      ensures Places(d', p) == 1
    {
      FlightLess(d.flight, i, p);
      FlightHas(d.flight, i, p);
      assert Places(d, p) == 1;
    }
  }

  /** A byte of a chunk in flight is counted there. */
  lemma {:induction false} FlightHas(flight: seq<Chunk>, i: nat, p: int)
    requires i < |flight|
    ensures flight[i].piece.Has(p) ==> InFlight(flight, p) > 0
  {
    if i < |flight| - 1 {
      FlightHas(flight[..|flight| - 1], i, p);
    }
  }

  /** **No overlap**: what a chunk in flight asks for is nowhere else, so no byte
      it brings can have been covered before. */
  lemma InFlightIsUncovered(d: Division, i: nat)
    requires Partition(d) && i < |d.flight|
    ensures d.covered !! d.flight[i].piece.Positions()
  {
    forall p | p in d.flight[i].piece.Positions()
      ensures p !in d.covered
    {
      assert Places(d, p) == 1;
      FlightHas(d.flight, i, p);
    }
  }

  lemma FilledIsPartition(d: Division, i: nat, got: nat)
    requires Partition(d) && i < |d.flight| && 0 < got <= d.flight[i].piece.length
    ensures Partition(Filled(d, i, got)) && Owed(Filled(d, i, got)) < Owed(d)
  {
    var piece := d.flight[i].piece;
    var left := Piece(piece.start + got, piece.length - got);
    var d' := Filled(d, i, got);
    FlightLessTotals(d.flight, i);
    QueueMoreBytes(d.queue, left);
    WithoutIsIn(d.flight, i);
    PiecesInside(d, d'.queue, d'.flight);
    forall p | p in C.Span(0, d'.length)
      ensures Places(d', p) == 1
    {
      FlightLess(d.flight, i, p);
      QueueMore(d.queue, left, p);
      assert Places(d, p) == 1;
      FlightHas(d.flight, i, p);
    }
  }

  /** With nothing queued or in flight and nothing left to ask for, every byte is
      covered or was given up. */
  lemma NothingOwed(d: Division)
    requires Partition(d) && d.queue == [] && d.flight == [] && d.next == d.length
    ensures d.covered + d.dropped == C.Span(0, d.length) && d.covered !! d.dropped
  {
    forall p | p in C.Span(0, d.length)
      ensures p in d.covered <==> p !in d.dropped
    {
      assert Places(d, p) == 1;
    }
  }

  // ---- What is still to be asked for ----

  /** Byte `p` was asked for, and is in hand nowhere yet. */
  predicate ToBeAsked(d: Division, p: int) {
    0 <= p < d.next && p !in d.covered && p !in d.dropped
  }

  /** What a chunk in flight asks for has been given or given up nowhere. */
  lemma FlightIsToBeAsked(d: Division, i: nat, p: int)
    requires Partition(d) && i < |d.flight| && d.flight[i].piece.Has(p)
    ensures ToBeAsked(d, p)
  {
    FlightHas(d.flight, i, p);
    assert p in C.Span(0, d.length) && Places(d, p) == 1;
  }

  /** Nothing is to be asked for when nothing is queued or in flight. */
  lemma NoneToBeAsked(d: Division, p: int)
    requires Partition(d) && |d.queue| == 0 && |d.flight| == 0
    ensures !ToBeAsked(d, p)
  {
    if 0 <= p < d.next {
      assert p in C.Span(0, d.length) && Places(d, p) == 1;
    }
  }
}
