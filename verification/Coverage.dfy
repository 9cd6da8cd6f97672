/** Which bytes of a range have been covered, as a canonical list of half-open
    intervals that is inserted into, merged and cut in place.

    The reference for everything here is a plain set of byte positions
    (`Positions`): each method is proved to do to that set what its caller means
    by it, and the interval list is proved to be the only canonical one that
    denotes its set. */
module Coverage {
  import opened Wrappers

  datatype Range = Range(from: nat, to: nat)

  /** Sorted, non-empty, disjoint and maximally merged: neighbours do not even touch. */
  ghost predicate Canonical(ranges: seq<Range>) {
    && (forall i :: 0 <= i < |ranges| ==> ranges[i].from < ranges[i].to)
    && (forall i, j :: 0 <= i < j < |ranges| ==> ranges[i].to < ranges[j].from)
  }

  /** The positions `from .. to`. */
  function Span(from: int, to: int): (s: set<int>)
    ensures forall p :: p in s <==> from <= p < to
  {
    set p {:trigger In(p, from, to)} | from <= p < to && In(p, from, to)
  }

  predicate In(p: int, from: int, to: int) { from <= p < to }

  /** Interval `i` of the list holds position `p`. */
  ghost predicate Holds(ranges: seq<Range>, i: int, p: int) {
    0 <= i < |ranges| && ranges[i].from <= p < ranges[i].to
  }

  /** The set of positions an interval list denotes. */
  ghost function Positions(ranges: seq<Range>): (s: set<int>)
    ensures forall i, p :: Holds(ranges, i, p) ==> p in s
    ensures forall p :: p in s ==> exists i :: Holds(ranges, i, p)
  {
    set i, p {:trigger Holds(ranges, i, p)} |
      0 <= i < |ranges| && ranges[i].from <= p < ranges[i].to && Holds(ranges, i, p) :: p
  }

  /** The interval that holds a covered position. */
  lemma Holder(ranges: seq<Range>, p: int) returns (i: int)
    requires p in Positions(ranges)
    ensures Holds(ranges, i, p)
  {
    i :| Holds(ranges, i, p);
  }

  /** What an interval holds is covered. */
  lemma Held(ranges: seq<Range>, i: int, p: int)
    requires Holds(ranges, i, p)
    ensures p in Positions(ranges)
  {
  }

  /** Joining two lists joins what they denote. */
  lemma PositionsConcat(a: seq<Range>, b: seq<Range>)
    ensures Positions(a + b) == Positions(a) + Positions(b)
  {
    forall p
      ensures p in Positions(a + b) <==> p in Positions(a) || p in Positions(b)
    {
      if p in Positions(a + b) {
        var i := Holder(a + b, p);
        assert if i < |a| then Holds(a, i, p) else Holds(b, i - |a|, p);
      }
      if p in Positions(a) {
        var i := Holder(a, p);
        assert Holds(a + b, i, p);
      }
      if p in Positions(b) {
        var i := Holder(b, p);
        assert Holds(a + b, i + |a|, p);
      }
    }
  }

  /** The canonical list is determined by the set: two of them that denote the
      same positions are equal, whatever insertions and cuts built them. */
  lemma {:induction false} CanonicalIsUnique(a: seq<Range>, b: seq<Range>)
    requires Canonical(a) && Canonical(b)
    requires Positions(a) == Positions(b)
    ensures a == b
  {
    if a == [] || b == [] {
      if a != [] {
        Held(a, 0, a[0].from);
      }
      if b != [] {
        Held(b, 0, b[0].from);
      }
    } else {
      var m, n := |a| - 1, |b| - 1;
      LastsAgree(a, b);
      WithoutLast(a);
      WithoutLast(b);
      CanonicalIsUnique(a[..m], b[..n]);
      assert a == a[..m] + [a[m]];
      assert b == b[..n] + [b[n]];
    }
  }

  /** A canonical list without its last interval. */
  lemma WithoutLast(ranges: seq<Range>)
    requires Canonical(ranges) && ranges != []
    ensures var n := |ranges| - 1;
      && Canonical(ranges[..n])
      && Positions(ranges[..n]) == Positions(ranges) - Span(ranges[n].from, ranges[n].to)
  {
    var n := |ranges| - 1;
    forall p
      ensures p in Positions(ranges[..n]) <==> p in Positions(ranges) && p !in Span(ranges[n].from, ranges[n].to)
    {
      if p in Positions(ranges[..n]) {
        var i := Holder(ranges[..n], p);
        Held(ranges, i, p);
      }
      if p in Positions(ranges) {
        var i := Holder(ranges, p);
        assert i < n ==> Holds(ranges[..n], i, p);
      }
    }
  }

  /** Two canonical lists of one set end with the same interval. */
  lemma LastsAgree(a: seq<Range>, b: seq<Range>)
    requires Canonical(a) && Canonical(b) && a != [] && b != []
    requires Positions(a) == Positions(b)
    ensures a[|a| - 1] == b[|b| - 1]
  {
    LastNoFurther(a, b);
    LastNoFurther(b, a);
    LastNoWider(a, b);
    LastNoWider(b, a);
  }

  lemma LastNoFurther(a: seq<Range>, b: seq<Range>)
    requires Canonical(a) && Canonical(b) && a != [] && b != []
    requires Positions(a) == Positions(b)
    ensures a[|a| - 1].to <= b[|b| - 1].to
  {
    var last := a[|a| - 1];
    Held(a, |a| - 1, last.to - 1);
    var i := Holder(b, last.to - 1);
  }

  lemma LastNoWider(a: seq<Range>, b: seq<Range>)
    requires Canonical(a) && Canonical(b) && a != [] && b != []
    requires Positions(a) == Positions(b)
    requires a[|a| - 1].to == b[|b| - 1].to
    ensures b[|b| - 1].from <= a[|a| - 1].from
  {
    var x, y := a[|a| - 1], b[|b| - 1];
    if x.from < y.from {
      Held(a, |a| - 1, y.from - 1);
      var i := Holder(b, y.from - 1);
    }
  }

  /** Canonical but for `n` boundaries from `at` on, where neighbours may touch. */
  ghost predicate Loose(ranges: seq<Range>, at: int, n: nat) {
    && (forall i :: 0 <= i < |ranges| ==> ranges[i].from < ranges[i].to)
    && (forall i, j :: 0 <= i < j < |ranges| ==>
          ranges[i].to < ranges[j].from
          || (j == i + 1 && at <= j < at + n && ranges[i].to == ranges[j].from))
  }

  /** The list with `r` put in as interval `at`. */
  function Inserted(ranges: seq<Range>, at: nat, r: Range): seq<Range>
    requires at <= |ranges|
  {
    ranges[..at] + [r] + ranges[at..]
  }

  /** Inserting an interval adds its span. */
  lemma InsertDenotes(ranges: seq<Range>, at: nat, r: Range)
    requires at <= |ranges|
    ensures Positions(Inserted(ranges, at, r)) == Positions(ranges) + Span(r.from, r.to)
  {
    var a, b := ranges[..at], ranges[at..];
    PositionsConcat(a + [r], b);
    PositionsConcat(a, [r]);
    PositionsOne(r);
    assert Positions(ranges) == Positions(a) + Positions(b) by {
      PositionsConcat(a, b);
      assert a + b == ranges;
    }
  }

  /** Where the interval at `i` of a list with an insertion came from. */
  lemma InsertedAt(ranges: seq<Range>, at: nat, r: Range, i: nat)
    requires at <= |ranges| && i <= |ranges|
    ensures Inserted(ranges, at, r)[i] == if i < at then ranges[i] else if i == at then r else ranges[i - 1]
  {
  }

  /** Inserting an interval that fits leaves at most its own two boundaries touching. */
  lemma InsertIsLoose(ranges: seq<Range>, at: nat, r: Range)
    requires Canonical(ranges) && at <= |ranges| && r.from < r.to
    requires at > 0 ==> ranges[at - 1].to <= r.from
    requires at < |ranges| ==> r.to <= ranges[at].from
    ensures Loose(Inserted(ranges, at, r), at, 2)
  {
    var s := Inserted(ranges, at, r);
    forall i | 0 <= i < |s|
      ensures s[i].from < s[i].to
    {
      InsertedAt(ranges, at, r, i);
    }
    forall i, j | 0 <= i < j < |s|
      ensures s[i].to < s[j].from || (j == i + 1 && at <= j < at + 2 && s[i].to == s[j].from)
    {
      InsertedAt(ranges, at, r, i);
      InsertedAt(ranges, at, r, j);
    }
  }

  /** One interval denotes its span. */
  lemma PositionsOne(r: Range)
    ensures Positions([r]) == Span(r.from, r.to)
  {
    forall p | r.from <= p < r.to
      ensures p in Positions([r])
    {
      Held([r], 0, p);
    }
  }

  /** Intervals `at` and `at + 1` replaced by one. */
  function Fused(ranges: seq<Range>, at: nat): seq<Range>
    requires at + 1 < |ranges|
  {
    ranges[..at] + [Range(ranges[at].from, ranges[at + 1].to)] + ranges[at + 2..]
  }

  /** Fusing two intervals that touch denotes the same set. */
  lemma FuseDenotes(ranges: seq<Range>, at: nat)
    requires at + 1 < |ranges|
    requires ranges[at].from <= ranges[at].to == ranges[at + 1].from <= ranges[at + 1].to
    ensures Positions(Fused(ranges, at)) == Positions(ranges)
  {
    var a, b := ranges[at], ranges[at + 1];
    var whole := Range(a.from, b.to);
    var front, back := ranges[..at], ranges[at + 2..];
    assert Positions([a, b]) == Positions([whole]) by {
      PositionsConcat([a], [b]);
      assert [a] + [b] == [a, b];
      PositionsOne(a);
      PositionsOne(b);
      PositionsOne(whole);
    }
    PositionsAround(front, [a, b], back);
    PositionsAround(front, [whole], back);
    assert ranges == front + [a, b] + back;
  }

  lemma PositionsAround(front: seq<Range>, mid: seq<Range>, back: seq<Range>)
    ensures Positions(front + mid + back) == Positions(front) + Positions(mid) + Positions(back)
  {
    PositionsConcat(front, mid);
    PositionsConcat(front + mid, back);
  }

  /** Intervals `at` and `at + 1` as one where they touch. */
  function Merged(ranges: seq<Range>, at: nat): seq<Range> {
    if at + 1 < |ranges| && ranges[at].to == ranges[at + 1].from then Fused(ranges, at) else ranges
  }

  lemma MergeDenotes(ranges: seq<Range>, at: nat, low: int, n: nat)
    requires Loose(ranges, low, n)
    ensures Positions(Merged(ranges, at)) == Positions(ranges)
  {
    if at + 1 < |ranges| && ranges[at].to == ranges[at + 1].from {
      FuseDenotes(ranges, at);
    }
  }

  /** Where the interval at `i` of a fused list came from. */
  lemma FusedAt(ranges: seq<Range>, at: nat, i: nat)
    requires at + 1 < |ranges| && i < |ranges| - 1
    ensures Fused(ranges, at)[i].from == ranges[if i <= at then i else i + 1].from
    ensures Fused(ranges, at)[i].to == ranges[if i < at then i else i + 1].to
  {
  }

  /** Intervals as they were up to `total`, the last of them cut there, denote what
      lies below it. */
  lemma CutDenotes(was: seq<Range>, now: seq<Range>, total: nat)
    requires |now| <= |was| && forall i :: 0 <= i < |now| ==> now[i].from == was[i].from < total
    requires forall i :: 0 <= i < |now| ==>
      now[i].to == was[i].to <= total || (now[i].to == total <= was[i].to)
    requires forall i :: |now| <= i < |was| ==> total <= was[i].from
    ensures Positions(now) == Positions(was) * Span(0, total)
  {
    forall p
      ensures p in Positions(now) <==> p in Positions(was) && p < total
    {
      if i :| Holds(was, i, p) && p < total {
        assert Holds(now, i, p);
      }
      if i :| Holds(now, i, p) {
        assert Holds(was, i, p);
      }
    }
  }

  lemma FusedHolds(ranges: seq<Range>, at: nat, i: nat)
    requires at + 1 < |ranges| && i < |ranges| - 1 && ranges[at].to == ranges[at + 1].from
    requires forall k :: 0 <= k < |ranges| ==> ranges[k].from < ranges[k].to
    ensures Fused(ranges, at)[i].from < Fused(ranges, at)[i].to
  {
    FusedAt(ranges, at, i);
  }

  lemma FuseTightens(ranges: seq<Range>, at: nat, low: int, n: nat, i: nat, j: nat)
    requires n > 0 && at + 1 == low + n - 1 && at + 1 < |ranges| && i < j < |ranges| - 1
    requires Loose(ranges, low, n) && ranges[at].to == ranges[at + 1].from
    ensures Fused(ranges, at)[i].to < Fused(ranges, at)[j].from
      || (j == i + 1 && low <= j < low + n - 1 && Fused(ranges, at)[i].to == Fused(ranges, at)[j].from)
  {
    FusedAt(ranges, at, i);
    FusedAt(ranges, at, j);
  }

  /** Merging at the last loose boundary leaves one fewer. */
  lemma MergeTightens(ranges: seq<Range>, at: nat, low: int, n: nat)
    requires n > 0 && at + 1 == low + n - 1
    requires Loose(ranges, low, n)
    ensures Loose(Merged(ranges, at), low, n - 1)
  {
    if at + 1 < |ranges| && ranges[at].to == ranges[at + 1].from {
      var s := Fused(ranges, at);
      forall i | 0 <= i < |s|
        ensures s[i].from < s[i].to
      {
        FusedHolds(ranges, at, i);
      }
      forall i, j | 0 <= i < j < |s|
        ensures s[i].to < s[j].from || (j == i + 1 && low <= j < low + n - 1 && s[i].to == s[j].from)
      {
        FuseTightens(ranges, at, low, n, i, j);
      }
    }
  }

  /** Merging an inserted interval with its left neighbour as well restores the
      canonical form. */
  lemma MergeLeftRestores(ranges: seq<Range>, at: nat)
    requires Loose(ranges, at, 1)
    ensures Canonical(if at > 0 then Merged(ranges, at - 1) else ranges)
    ensures Positions(if at > 0 then Merged(ranges, at - 1) else ranges) == Positions(ranges)
  {
    if at > 0 {
      MergeDenotes(ranges, at - 1, at, 1);
      MergeTightens(ranges, at - 1, at, 1);
    }
  }

  /** An interval that fits between its neighbours meets no covered position. */
  lemma FitsBetween(ranges: seq<Range>, at: nat, start: nat, end: nat)
    requires Canonical(ranges) && at <= |ranges|
    requires at > 0 ==> ranges[at - 1].to <= start
    requires at < |ranges| ==> end <= ranges[at].from
    ensures Positions(ranges) !! Span(start, end)
  {
  }

  /** The covered ranges, updated in place. */
  class Coverage {
    var ranges: seq<Range>

    ghost predicate Valid()
      reads this
    {
      Canonical(ranges)
    }

    /** What this coverage denotes. */
    ghost function Covered(): set<int>
      reads this
    {
      Positions(ranges)
    }

    constructor ()
      ensures Valid() && Covered() == {} && ranges == []
    {
      ranges := [];
    }

    /** The number of leading ranges that begin before `start`. */
    method PartitionPoint(start: nat) returns (at: nat)
      requires Valid()
      ensures at <= |ranges|
      ensures forall i :: 0 <= i < at ==> ranges[i].from < start
      ensures forall i :: at <= i < |ranges| ==> start <= ranges[i].from
    {
      at := 0;
      while at < |ranges| && ranges[at].from < start
        invariant at <= |ranges|
        invariant forall i :: 0 <= i < at ==> ranges[i].from < start
      {
        at := at + 1;
      }
    }

    /** Records `start .. start + length`: refused, and nothing changed, exactly
        where one of those positions is already covered; otherwise the union. */
    method Cover(start: nat, length: nat) returns (taken: bool)
      requires Valid()
      modifies this
      ensures Valid()
      ensures taken <==> old(Covered()) !! Span(start, start + length)
      ensures taken ==> Covered() == old(Covered()) + Span(start, start + length)
      ensures !taken ==> ranges == old(ranges)
    {
      if length == 0 {
        assert Span(start, start + length) == {};
        return true;
      }
      var end := start + length;
      var at := PartitionPoint(start);
      if at > 0 && ranges[at - 1].to > start {
        assert Holds(ranges, at - 1, start);
        assert start in Span(start, end);
        return false;
      }
      if at < |ranges| && ranges[at].from < end {
        assert Holds(ranges, at, ranges[at].from);
        assert ranges[at].from in Span(start, end);
        return false;
      }
      FitsBetween(ranges, at, start, end);
      InsertDenotes(ranges, at, Range(start, end));
      InsertIsLoose(ranges, at, Range(start, end));
      ranges := Inserted(ranges, at, Range(start, end));
      Merge(at);
      return true;
    }

    /** Fuses interval `at` with whichever neighbours it touches. */
    method Merge(at: nat)
      requires at < |ranges| && Loose(ranges, at, 2)
      modifies this
      ensures Valid() && Covered() == old(Covered())
    {
      MergeDenotes(ranges, at, at, 2);
      MergeTightens(ranges, at, at, 2);
      ranges := Merged(ranges, at);
      MergeLeftRestores(ranges, at);
      if at > 0 {
        ranges := Merged(ranges, at - 1);
      }
    }

    /** Drops coverage past `total`: intersection with `0 .. total`. */
    method Truncate(total: nat)
      requires Valid()
      modifies this
      ensures Valid()
      ensures Covered() == old(Covered()) * Span(0, total)
    {
      ghost var was := ranges;
      var kept := PartitionPoint(total);
      ranges := ranges[..kept];
      if kept > 0 && ranges[kept - 1].to > total {
        ranges := ranges[..kept - 1] + [Range(ranges[kept - 1].from, total)];
      }
      CutDenotes(was, ranges, total);
    }

    /** The first maximal uncovered stretch of `0 .. total`, for a `total` above
        zero; for a `total` of zero an empty stretch is reported exactly where
        something is covered and position zero is not. */
    method Gap(total: nat) returns (gap: Option<Range>)
      requires Valid()
      ensures gap.None? && total > 0 ==> Span(0, total) <= Covered()
      ensures gap.Some? && total > 0 ==>
        && gap.value.from < gap.value.to <= total
        && Span(0, gap.value.from) <= Covered()
        && Span(gap.value.from, gap.value.to) !! Covered()
        && (gap.value.to < total ==> gap.value.to in Covered())
      ensures total == 0 ==> (gap.Some? <==> Covered() != {} && 0 !in Covered())
      ensures total == 0 && gap.Some? ==> gap.value == Range(0, 0)
    {
      var at := 0;
      for i := 0 to |ranges|
        invariant at == if i == 0 then 0 else ranges[i - 1].to
        invariant i > 0 ==> at < total
        invariant Span(0, at) <= Covered()
        invariant i > 0 ==> 0 in Covered()
      {
        var r := ranges[i];
        if r.from > at {
          forall p | at <= p < r.from
            ensures p !in Covered()
          {
          }
          assert Holds(ranges, i, r.from);
          return Some(Range(at, if r.from < total then r.from else total));
        }
        forall p | 0 <= p < r.to
          ensures p in Covered()
        {
          assert p >= at ==> Holds(ranges, i, p);
          assert p < at ==> p in Span(0, at);
        }
        at := r.to;
        if at >= total {
          return None;
        }
      }
      forall p | at <= p
        ensures p !in Covered()
      {
      }
      return if at < total then Some(Range(at, total)) else None;
    }

    /** The longest run of covered positions from zero. */
    method Prefix() returns (end: nat)
      requires Valid()
      ensures Span(0, end) <= Covered()
      ensures end !in Covered()
      ensures end == PrefixOf(Covered())
    {
      if |ranges| > 0 && ranges[0].from == 0 {
        end := ranges[0].to;
        forall p | 0 <= p < end
          ensures p in Covered()
        {
          assert Holds(ranges, 0, p);
        }
      } else {
        end := 0;
      }
      PrefixIsUnique(Covered(), end);
    }

    /** Whether the covered positions are exactly `0 .. total`. */
    method Covers(total: nat) returns (all: bool)
      requires Valid()
      ensures all <==> Covered() == Span(0, total)
    {
      if |ranges| == 0 {
        assert total > 0 ==> 0 in Span(0, total);
        return total == 0;
      }
      if |ranges| == 1 && ranges[0].from == 0 {
        var end := ranges[0].to;
        PositionsOne(ranges[0]);
        assert ranges == [ranges[0]];
        assert end < total ==> end in Span(0, total);
        assert total < end ==> total in Span(0, end);
        return end == total;
      }
      NotARun(ranges, total);
      return false;
    }
  }

  /** A non-empty canonical list that is not one interval from zero denotes no
      run from zero. */
  lemma NotARun(ranges: seq<Range>, total: nat)
    requires Canonical(ranges) && ranges != []
    requires |ranges| > 1 || ranges[0].from != 0
    ensures Positions(ranges) != Span(0, total)
  {
    if ranges[0].from != 0 {
      assert Holds(ranges, 0, ranges[0].from);
      assert ranges[0].from in Positions(ranges) && 0 !in Positions(ranges);
    } else {
      var hole := ranges[0].to;
      assert hole !in Positions(ranges);
      assert Holds(ranges, 1, ranges[1].from);
      assert ranges[1].from in Positions(ranges) && hole < ranges[1].from;
    }
  }

  /** The length of the run of `covered` that starts at zero. */
  ghost function PrefixOf(covered: set<int>): (end: nat)
    ensures Span(0, end) <= covered && end !in covered
  {
    PrefixFrom(covered, 0)
  }

  ghost function PrefixFrom(covered: set<int>, at: nat): (end: nat)
    requires Span(0, at) <= covered
    ensures at <= end && Span(0, end) <= covered && end !in covered
    decreases |covered - Span(0, at)|
  {
    if at !in covered then at
    else
      assert covered - Span(0, at) == covered - Span(0, at + 1) + {at};
      PrefixFrom(covered, at + 1)
  }

  lemma PrefixIsUnique(covered: set<int>, end: nat)
    requires Span(0, end) <= covered && end !in covered
    ensures end == PrefixOf(covered)
  {
    var other := PrefixOf(covered);
    assert end < other ==> end in Span(0, other);
    assert other < end ==> other in Span(0, end);
  }

  /** Covering more never shortens the prefix. */
  lemma PrefixGrows(less: set<int>, more: set<int>)
    requires less <= more
    ensures PrefixOf(less) <= PrefixOf(more)
  {
    var p, q := PrefixOf(less), PrefixOf(more);
    assert q < p ==> q in Span(0, p);
  }
}
