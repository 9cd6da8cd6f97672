/** What the reassembly of a reply guarantees over whole runs of messages. */
module ReassemblyProofs {
  import opened Wrappers
  import opened Reassembly
  import C = Coverage

  // ---- Every delivered byte was supplied ----

  /** Piece `k` of the list supplies `position`. */
  ghost predicate SuppliesAt(pieces: seq<Piece>, k: int, position: int) {
    0 <= k < |pieces| && pieces[k].Supplies(position)
  }

  /** Some piece supplies `position`. */
  ghost predicate Supplied(pieces: seq<Piece>, position: int) {
    exists k :: SuppliesAt(pieces, k, position)
  }

  /** The covered positions are those the pieces supply within the total that
      governs, and none of those was supplied twice. */
  ghost predicate CoversSupplied(t: Track, pieces: seq<Piece>) {
    && (forall i :: i in t.covered ==> Supplied(pieces, i))
    && (forall i, k :: 0 <= i < t.total && SuppliesAt(pieces, k, i) ==> i in t.covered)
    && (forall i, k, l :: 0 <= i < t.total && SuppliesAt(pieces, k, i) && SuppliesAt(pieces, l, i) ==> k == l)
  }

  /** The buffer holds, at every position a piece supplied, what it supplied. */
  ghost predicate HoldsSupplied(t: Track, pieces: seq<Piece>) {
    t.bytes.Some? ==>
      forall i, k :: 0 <= i < t.total && i < |t.bytes.value| && SuppliesAt(pieces, k, i) ==>
        t.bytes.value[i] == pieces[k].At(i)
  }

  ghost predicate Sourced(t: Track, pieces: seq<Piece>) {
    && (!t.declared ==> pieces == [])
    && CoversSupplied(t, pieces)
    && HoldsSupplied(t, pieces)
  }

  lemma DeclareKeepsSourced(t: Track, pieces: seq<Piece>, total: nat)
    requires t.Valid() && Sourced(t, pieces) && Declare(t, total).Ok?
    ensures Sourced(Declare(t, total).value, pieces)
  {
  }

  lemma PlacedIsNew(t: Track, piece: Piece)
    requires t.Valid() && Place(t, piece.displacement, piece.payload).Ok?
    ensures forall i :: i in piece.Positions() ==> i !in t.covered
    ensures Place(t, piece.displacement, piece.payload).value.covered == t.covered + piece.Positions()
  {
  }

  lemma PlaceKeepsCovers(t: Track, pieces: seq<Piece>, piece: Piece)
    requires t.Valid() && CoversSupplied(t, pieces)
    requires Place(t, piece.displacement, piece.payload).Ok?
    ensures CoversSupplied(Place(t, piece.displacement, piece.payload).value, pieces + [piece])
  {
    var t', all := Place(t, piece.displacement, piece.payload).value, pieces + [piece];
    PlacedIsNew(t, piece);
    forall i | i in t'.covered
      ensures Supplied(all, i)
    {
      if i in t.covered {
        assert Supplied(pieces, i);
        var k :| SuppliesAt(pieces, k, i);
        assert SuppliesAt(all, k, i);
      } else {
        assert SuppliesAt(all, |pieces|, i);
      }
    }
    forall i, k | 0 <= i < t'.total && SuppliesAt(all, k, i)
      ensures i in t'.covered
      ensures k == |pieces| ==> i !in t.covered
    {
      assert k < |pieces| ==> SuppliesAt(pieces, k, i);
      assert k == |pieces| ==> i in piece.Positions();
    }
    forall i, k, l | 0 <= i < t'.total && SuppliesAt(all, k, i) && SuppliesAt(all, l, i)
      ensures k == l
    {
      assert k < |pieces| ==> SuppliesAt(pieces, k, i);
      assert l < |pieces| ==> SuppliesAt(pieces, l, i);
    }
  }

  lemma PlaceKeepsHolds(t: Track, pieces: seq<Piece>, piece: Piece)
    requires t.Valid() && CoversSupplied(t, pieces) && HoldsSupplied(t, pieces)
    requires Place(t, piece.displacement, piece.payload).Ok?
    ensures HoldsSupplied(Place(t, piece.displacement, piece.payload).value, pieces + [piece])
  {
    var t', all := Place(t, piece.displacement, piece.payload).value, pieces + [piece];
    PlacedIsNew(t, piece);
    if t.bytes.Some? {
      forall i, k | 0 <= i < t'.total && i < |t'.bytes.value| && SuppliesAt(all, k, i)
        ensures t'.bytes.value[i] == all[k].At(i)
      {
        if k < |pieces| {
          assert SuppliesAt(pieces, k, i);
          assert i in t.covered && i !in piece.Positions();
        }
      }
    }
  }

  lemma TakeKeepsSourced(t: Track, pieces: seq<Piece>, piece: Piece)
    requires t.Valid() && Sourced(t, pieces) && Take(t, piece).Ok?
    ensures Sourced(Take(t, piece).value, pieces + [piece])
  {
    var t1 := Declare(t, piece.total).value;
    DeclareKeepsValid(t, piece.total);
    DeclareKeepsSourced(t, pieces, piece.total);
    PlaceKeepsCovers(t1, pieces, piece);
    PlaceKeepsHolds(t1, pieces, piece);
  }

  /** What `fs` says about one block. */
  function Pieces(fs: seq<Fragment>, block: Block): (ps: seq<Piece>)
    ensures |ps| == |fs|
    ensures forall k :: 0 <= k < |fs| ==> ps[k] == fs[k].Of(block)
  {
    seq(|fs|, k requires 0 <= k < |fs| => fs[k].Of(block))
  }

  lemma AcceptKeepsSourced(a: Assembly, f: Fragment, block: Block, pieces: seq<Piece>)
    requires a.Valid() && Accept(a, f).outcome.Ok?
    requires Sourced(a.Of(block), pieces)
    ensures Sourced(Accept(a, f).next.Of(block), pieces + [f.Of(block)])
  {
    AcceptTakes(a, f);
    TakeKeepsSourced(a.Of(block), pieces, f.Of(block));
  }

  lemma {:induction false} RunIsSourcedFrom(a: Assembly, fs: seq<Fragment>, block: Block)
    requires a.Valid() && Run(a, fs).Ok? && Sourced(a.Of(block), [])
    ensures Sourced(Run(a, fs).value.Of(block), Pieces(fs, block))
  {
    if |fs| > 0 {
      var n := |fs| - 1;
      RunIsSourcedFrom(a, fs[..n], block);
      AcceptKeepsSourced(Run(a, fs[..n]).value, fs[n], block, Pieces(fs[..n], block));
      assert Pieces(fs, block) == Pieces(fs[..n], block) + [fs[n].Of(block)];
    }
  }

  lemma RunIsSourced(maxParameters: nat, maxData: nat, fs: seq<Fragment>, block: Block)
    requires Run(New(maxParameters, maxData), fs).Ok?
    ensures Sourced(Run(New(maxParameters, maxData), fs).value.Of(block), Pieces(fs, block))
  {
    var a := New(maxParameters, maxData);
    assert Sourced(a.Of(block), []);
    RunIsSourcedFrom(a, fs, block);
  }

  /** A reply that completes while still buffered delivers, in each block, a
      buffer of the length the last message declared, no longer than the request
      asked for, in which every byte was supplied by exactly one accepted message
      at its own displacement, however the totals shrank on the way. */
  lemma DeliversOnlySupplied(maxParameters: nat, maxData: nat, fs: seq<Fragment>, block: Block)
    requires fs != [] && Run(New(maxParameters, maxData), fs).Ok?
    requires Run(New(maxParameters, maxData), fs).value.Progress() == Complete
    ensures var t := Run(New(maxParameters, maxData), fs).value.Of(block);
      && t.bytes.Some?
      && |t.bytes.value| == fs[|fs| - 1].Of(block).total
      && |t.bytes.value| <= (if block == Parameters then maxParameters else maxData)
      && forall i :: 0 <= i < |t.bytes.value| ==> SuppliedOnce(Pieces(fs, block), i, t.bytes.value[i])
  {
    RunIsSourced(maxParameters, maxData, fs, block);
    RunTotals(maxParameters, maxData, fs, block);
    var t, ps := Run(New(maxParameters, maxData), fs).value.Of(block), Pieces(fs, block);
    forall i | 0 <= i < |t.bytes.value|
      ensures SuppliedOnce(ps, i, t.bytes.value[i])
    {
      assert i in t.covered;
    }
  }

  /** Exactly one of the pieces supplies `position`, and what it supplies is `b`. */
  ghost predicate SuppliedOnce(pieces: seq<Piece>, position: int, b: byte) {
    && Supplied(pieces, position)
    && (forall k :: SuppliesAt(pieces, k, position) ==> pieces[k].At(position) == b)
    && (forall k, l :: SuppliesAt(pieces, k, position) && SuppliesAt(pieces, l, position) ==> k == l)
  }

  /** The total that governs is the one the last message declared, and the bound
      is the request's. */
  lemma {:induction false} RunTotals(maxParameters: nat, maxData: nat, fs: seq<Fragment>, block: Block)
    requires Run(New(maxParameters, maxData), fs).Ok?
    ensures var t := Run(New(maxParameters, maxData), fs).value.Of(block);
      && t.asked == (if block == Parameters then maxParameters else maxData)
      && (fs != [] ==> t.declared && t.total == fs[|fs| - 1].Of(block).total)
  {
    if fs != [] {
      var n := |fs| - 1;
      RunTotals(maxParameters, maxData, fs[..n], block);
      AcceptTakes(Run(New(maxParameters, maxData), fs[..n]).value, fs[n]);
    }
  }

  // ---- Arrival order does not matter ----

  /** The pieces lie within the block, meet nowhere, and leave none of it out. */
  ghost predicate TilesBlock(pieces: seq<Piece>, total: nat) {
    && (forall k :: 0 <= k < |pieces| ==> pieces[k].total == total && pieces[k].Positions() <= C.Span(0, total))
    && (forall k, l, i :: SuppliesAt(pieces, k, i) && SuppliesAt(pieces, l, i) ==> k == l)
    && (forall i :: 0 <= i < total ==> Supplied(pieces, i))
  }

  /** At most 64 messages, equal totals, each carrying bytes, both blocks tiled. */
  ghost predicate Tiling(fs: seq<Fragment>, parameters: nat, data: nat) {
    && 0 < |fs| <= 64
    && (forall k :: 0 <= k < |fs| ==> fs[k].CarriesBytes())
    && TilesBlock(Pieces(fs, Parameters), parameters)
    && TilesBlock(Pieces(fs, Data), data)
  }

  /** Where a block stands after the first `n` pieces of a tiling. */
  ghost predicate Stands(t: Track, pieces: seq<Piece>, n: nat, total: nat)
    requires n <= |pieces|
  {
    && t.Valid() && total <= t.asked
    && (t.declared <==> n > 0) && (n > 0 ==> t.total == total)
    && (forall i :: i in t.covered <==> exists k :: k < n && SuppliesAt(pieces, k, i))
  }

  lemma TakeStands(t: Track, pieces: seq<Piece>, n: nat, total: nat)
    requires n < |pieces| && TilesBlock(pieces, total) && Stands(t, pieces, n, total)
    ensures Take(t, pieces[n]).Ok?
    ensures Stands(Take(t, pieces[n]).value, pieces, n + 1, total)
  {
    var piece := pieces[n];
    var t1 := Declare(t, total).value;
    DeclareKeepsValid(t, total);
    assert t1.covered == t.covered;
    assert piece.Positions() !! t.covered by {
      forall i | i in piece.Positions()
        ensures i !in t.covered
      {
        assert SuppliesAt(pieces, n, i);
      }
    }
    assert piece.payload != [] ==> piece.displacement + |piece.payload| <= total by {
      assert piece.payload != [] ==> piece.displacement + |piece.payload| - 1 in piece.Positions();
    }
    PlaceKeepsValid(t1, piece.displacement, piece.payload);
    var t2 := Place(t1, piece.displacement, piece.payload).value;
    PlacedIsNew(t1, piece);
    forall i
      ensures i in t2.covered <==> exists k :: k < n + 1 && SuppliesAt(pieces, k, i)
    {
      if i in piece.Positions() {
        assert SuppliesAt(pieces, n, i);
      }
    }
  }

  /** Both blocks, and the two guards, after the first `n` messages of a tiling. */
  lemma {:induction false} TilingRuns(
    fs: seq<Fragment>, parameters: nat, data: nat, maxParameters: nat, maxData: nat, n: nat)
    requires Tiling(fs, parameters, data) && parameters <= maxParameters && data <= maxData
    requires n <= |fs|
    ensures var r := Run(New(maxParameters, maxData), fs[..n]);
      && r.Ok? && r.value.fragments == n && r.value.empty == 0
      && Stands(r.value.parameters, Pieces(fs, Parameters), n, parameters)
      && Stands(r.value.data, Pieces(fs, Data), n, data)
  {
    if n > 0 {
      TilingRuns(fs, parameters, data, maxParameters, maxData, n - 1);
      var b := Run(New(maxParameters, maxData), fs[..n - 1]).value;
      TakeStands(b.parameters, Pieces(fs, Parameters), n - 1, parameters);
      TakeStands(b.data, Pieces(fs, Data), n - 1, data);
      AcceptDecides(b, fs[n - 1]);
      AcceptTakes(b, fs[n - 1]);
      assert fs[..n][..n - 1] == fs[..n - 1];
    }
  }

  /** A tiling completes at its last message and not before. */
  lemma TilingCompletesAtLast(
    fs: seq<Fragment>, parameters: nat, data: nat, maxParameters: nat, maxData: nat, n: nat)
    requires Tiling(fs, parameters, data) && parameters <= maxParameters && data <= maxData
    requires 0 < n <= |fs|
    ensures Run(New(maxParameters, maxData), fs[..n]).Ok?
    ensures Run(New(maxParameters, maxData), fs[..n]).value.Progress() == Complete <==> n == |fs|
  {
    TilingRuns(fs, parameters, data, maxParameters, maxData, n);
    var a := Run(New(maxParameters, maxData), fs[..n]).value;
    if n < |fs| {
      Unfinished(a, fs, parameters, data, n);
    } else {
      Finished(a.parameters, Pieces(fs, Parameters), parameters);
      Finished(a.data, Pieces(fs, Data), data);
    }
  }

  lemma Finished(t: Track, pieces: seq<Piece>, total: nat)
    requires TilesBlock(pieces, total) && pieces != []
    requires Stands(t, pieces, |pieces|, total)
    ensures t.Complete()
  {
    forall i | 0 <= i < total
      ensures i in t.covered
    {
      assert Supplied(pieces, i);
      var k :| SuppliesAt(pieces, k, i);
    }
  }

  /** While a message that carries bytes is still to come, a block is open. */
  lemma Unfinished(a: Assembly, fs: seq<Fragment>, parameters: nat, data: nat, n: nat)
    requires Tiling(fs, parameters, data) && 0 < n < |fs|
    requires Stands(a.parameters, Pieces(fs, Parameters), n, parameters)
    requires Stands(a.data, Pieces(fs, Data), n, data)
    ensures a.Progress() == Continuing
  {
    var block := if fs[n].parameters.payload != [] then Parameters else Data;
    var ps, i := Pieces(fs, block), fs[n].Of(block).displacement;
    assert SuppliesAt(ps, n, i);
    assert i in fs[n].Of(block).Positions();
    assert i !in a.Of(block).covered;
  }

  /** A multiset counts two where a value stands at two places. */
  lemma TwiceIsTwo<T>(s: seq<T>, i: nat, j: nat)
    requires i < j < |s| && s[i] == s[j]
    ensures multiset(s)[s[i]] >= 2
  {
    assert s == s[..j] + [s[j]] + s[j + 1..];
    assert s[i] in s[..j];
  }

  lemma {:induction false} TwoIsTwice<T>(s: seq<T>, x: T) returns (i: nat, j: nat)
    requires multiset(s)[x] >= 2
    ensures i < j < |s| && s[i] == s[j] == x
  {
    var n := |s| - 1;
    assert s == s[..n] + [s[n]];
    if s[n] == x {
      assert x in s[..n];
      i :| 0 <= i < n && s[i] == x;
      j := n;
    } else {
      i, j := TwoIsTwice(s[..n], x);
    }
  }

  lemma PermutedTiles(fs: seq<Fragment>, gs: seq<Fragment>, parameters: nat, data: nat, block: Block, total: nat)
    requires multiset(fs) == multiset(gs)
    requires Tiling(fs, parameters, data) && TilesBlock(Pieces(fs, block), total)
    ensures TilesBlock(Pieces(gs, block), total)
  {
    var ps, qs := Pieces(fs, block), Pieces(gs, block);
    forall k | 0 <= k < |gs|
      ensures qs[k].total == total && qs[k].Positions() <= C.Span(0, total)
    {
      var j := Same(fs, gs, k);
      assert ps[j] == qs[k];
    }
    forall k, l, i | SuppliesAt(qs, k, i) && SuppliesAt(qs, l, i)
      ensures k == l
    {
      var k' := Same(fs, gs, k);
      var l' := Same(fs, gs, l);
      assert SuppliesAt(ps, k', i) && SuppliesAt(ps, l', i);
      if k != l {
        assert gs[k] == gs[l];
        TwiceIsTwo(gs, if k < l then k else l, if k < l then l else k);
        var x, y := TwoIsTwice(fs, gs[k]);
        assert SuppliesAt(ps, x, i) && SuppliesAt(ps, y, i);
      }
    }
    forall i | 0 <= i < total
      ensures Supplied(qs, i)
    {
      assert Supplied(ps, i);
      var k :| SuppliesAt(ps, k, i);
      var j := Same(gs, fs, k);
      assert SuppliesAt(qs, j, i);
    }
  }

  /** Where a permutation keeps the message at `k`. */
  lemma Same(fs: seq<Fragment>, gs: seq<Fragment>, k: nat) returns (j: nat)
    requires multiset(fs) == multiset(gs) && k < |gs|
    ensures j < |fs| && fs[j] == gs[k]
  {
    assert gs[k] in multiset(gs);
    assert gs[k] in fs;
    j :| 0 <= j < |fs| && fs[j] == gs[k];
  }

  lemma PermutedTiling(fs: seq<Fragment>, gs: seq<Fragment>, parameters: nat, data: nat)
    requires Tiling(fs, parameters, data) && multiset(fs) == multiset(gs)
    ensures Tiling(gs, parameters, data)
  {
    assert |multiset(fs)| == |fs| && |multiset(gs)| == |gs|;
    PermutedTiles(fs, gs, parameters, data, Parameters, parameters);
    PermutedTiles(fs, gs, parameters, data, Data, data);
    forall k | 0 <= k < |gs|
      ensures gs[k].CarriesBytes()
    {
      var j := Same(fs, gs, k);
    }
  }

  /** Every arrival order of a tiling completes exactly at its last message, with
      the same bytes in both blocks. */
  lemma ArrivalOrderDoesNotMatter(
    fs: seq<Fragment>, gs: seq<Fragment>, parameters: nat, data: nat,
    maxParameters: nat, maxData: nat, block: Block)
    requires Tiling(fs, parameters, data) && parameters <= maxParameters && data <= maxData
    requires multiset(fs) == multiset(gs)
    ensures forall n :: 0 < n <= |gs| ==>
      && Run(New(maxParameters, maxData), gs[..n]).Ok?
      && (Run(New(maxParameters, maxData), gs[..n]).value.Progress() == Complete <==> n == |gs|)
    ensures Run(New(maxParameters, maxData), fs).Ok? && Run(New(maxParameters, maxData), gs).Ok?
    ensures Run(New(maxParameters, maxData), gs).value.Of(block).bytes
         == Run(New(maxParameters, maxData), fs).value.Of(block).bytes
  {
    PermutedTiling(fs, gs, parameters, data);
    forall n | 0 < n <= |gs|
      ensures Run(New(maxParameters, maxData), gs[..n]).Ok?
      ensures Run(New(maxParameters, maxData), gs[..n]).value.Progress() == Complete <==> n == |gs|
    {
      TilingCompletesAtLast(gs, parameters, data, maxParameters, maxData, n);
    }
    TilingCompletesAtLast(fs, parameters, data, maxParameters, maxData, |fs|);
    assert fs[..|fs|] == fs && gs[..|gs|] == gs;
    DeliversOnlySupplied(maxParameters, maxData, fs, block);
    DeliversOnlySupplied(maxParameters, maxData, gs, block);
    var total := if block == Parameters then parameters else data;
    SameBytes(fs, gs, block, total,
      Run(New(maxParameters, maxData), fs).value.Of(block).bytes.value,
      Run(New(maxParameters, maxData), gs).value.Of(block).bytes.value);
  }

  lemma SameBytes(
    fs: seq<Fragment>, gs: seq<Fragment>, block: Block, total: nat, a: seq<byte>, b: seq<byte>)
    requires multiset(fs) == multiset(gs)
    requires |a| == |b| == total && TilesBlock(Pieces(fs, block), total)
    requires forall i :: 0 <= i < |a| ==> SuppliedOnce(Pieces(fs, block), i, a[i])
    requires forall i :: 0 <= i < |b| ==> SuppliedOnce(Pieces(gs, block), i, b[i])
    ensures a == b
  {
    forall i | 0 <= i < total
      ensures a[i] == b[i]
    {
      var ps, qs := Pieces(fs, block), Pieces(gs, block);
      assert SuppliedOnce(ps, i, a[i]) && SuppliedOnce(qs, i, b[i]);
      assert Supplied(qs, i);
      var k :| SuppliesAt(qs, k, i);
      var j := Same(fs, gs, k);
      assert SuppliesAt(ps, j, i);
    }
  }

  // ---- Releasing the buffer preserves meaning ----

  /** One block: taking a piece with and without a buffer tracks alike. */
  lemma TakeWithoutBuffer(t: Track, u: Track, piece: Piece)
    requires t.Valid() && u.Valid() && t.Tracks(u)
    ensures Take(t, piece).Ok? <==> Take(u, piece).Ok?
    ensures Take(t, piece).Ok? ==> Take(t, piece).value.Tracks(Take(u, piece).value)
  {
  }

  /** One message: a released reassembly accepts whatever the buffered one
      accepts, with the same answer; and refuses nothing the buffered one accepts
      but for the two guards that go with the buffer. */
  lemma AcceptWithoutBuffer(a: Assembly, b: Assembly, f: Fragment)
    requires a.Valid() && b.Valid() && a.Follows(b) && !b.buffered
    ensures Accept(a, f).outcome.Ok? ==>
      && Accept(b, f).outcome == Accept(a, f).outcome
      && Accept(a, f).next.Follows(Accept(b, f).next)
    ensures Accept(b, f).outcome.Ok? && Accept(a, f).outcome.Err? ==>
      a.buffered && (a.fragments >= FRAGMENT_CAP || (!f.CarriesBytes() && a.empty >= EMPTY_TOLERANCE))
  {
    TakeWithoutBuffer(a.parameters, b.parameters, f.parameters);
    TakeWithoutBuffer(a.data, b.data, f.data);
    AcceptDecides(a, f);
    AcceptDecides(b, f);
    AcceptTakes(a, f);
    AcceptTakes(b, f);
  }

  lemma {:induction false} RunWithoutBuffer(a: Assembly, b: Assembly, fs: seq<Fragment>)
    requires a.Valid() && b.Valid() && a.Follows(b) && !b.buffered
    requires Run(a, fs).Ok?
    ensures Run(b, fs).Ok? && Run(a, fs).value.Follows(Run(b, fs).value)
  {
    if fs != [] {
      RunWithoutBuffer(a, b, fs[..|fs| - 1]);
      AcceptWithoutBuffer(Run(a, fs[..|fs| - 1]).value, Run(b, fs[..|fs| - 1]).value, fs[|fs| - 1]);
    }
  }

  /** Releasing after `xs` changes no later answer: on every continuation the
      unreleased reassembly accepts, the released one answers the same at every
      message and covers the same. */
  lemma ReleaseAnywhere(a: Assembly, xs: seq<Fragment>, ys: seq<Fragment>)
    requires a.Valid() && Run(a, xs + ys).Ok?
    ensures Run(a, xs).Ok? && Release(Run(a, xs).value).Valid()
    ensures var whole, released := Run(a, xs + ys), Run(Release(Run(a, xs).value), ys);
      && released.Ok?
      && released.value.Progress() == whole.value.Progress()
      && released.value.parameters.covered == whole.value.parameters.covered
      && released.value.data.covered == whole.value.data.covered
  {
    RunPrefix(a, xs, ys);
    RunConcat(a, xs, ys);
    RunWithoutBuffer(Run(a, xs).value, Release(Run(a, xs).value), ys);
  }

  /** What accepts a whole run accepts every prefix of it. */
  lemma {:induction false} RunPrefix(a: Assembly, xs: seq<Fragment>, ys: seq<Fragment>)
    requires a.Valid() && Run(a, xs + ys).Ok?
    ensures Run(a, xs).Ok?
  {
    if ys == [] {
      assert xs + ys == xs;
    } else {
      assert (xs + ys)[..|xs + ys| - 1] == xs + ys[..|ys| - 1];
      RunPrefix(a, xs, ys[..|ys| - 1]);
    }
  }
}
