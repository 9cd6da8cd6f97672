/** Firing the timers: the loop that pops the earliest deadline while it is due
    always ends, and comes to the same as giving every overdue row its own
    outcome at once. */
module TableExpiry {
  import opened Wrappers
  import opened Table
  import opened TableIndex

  lemma {:induction false} FirstExists(s: set<(nat, nat)>) returns (p: (nat, nat))
    requires s != {}
    ensures IsFirst(p, s)
  {
    var q :| q in s;
    if s == {q} {
      p := q;
    } else {
      var r := FirstExists(s - {q});
      p := if Before(q, r) then q else r;
      assert forall x :: x in s ==> x == q || x in s - {q};
    }
  }

  lemma SomeFirst(s: set<(nat, nat)>)
    requires s != {}
    ensures exists p :: IsFirst(p, s)
  {
    var p := FirstExists(s);
  }

  ghost function First(s: set<(nat, nat)>): (p: (nat, nat))
    requires s != {}
    ensures IsFirst(p, s)
  {
    SomeFirst(s);
    var p :| IsFirst(p, s);
    p
  }

  /** How many timers can still fire: twice for a row on the wire, once for a
      lapsed one. */
  function Remaining(t: Table): int {
    |t.entries| + t.charging - t.retired
  }

  lemma RemainingIsNat(t: Table)
    requires Indexed(t)
    ensures 0 <= Remaining(t)
  {
    assert Retireds(t.entries) <= t.entries.Keys;
    SubsetIsSmaller(Retireds(t.entries), t.entries.Keys);
  }

  lemma {:induction false} SubsetIsSmaller<T>(a: set<T>, b: set<T>)
    requires a <= b
    ensures |a| <= |b|
  {
    if a != {} {
      var x :| x in a;
      SubsetIsSmaller(a - {x}, b - {x});
    }
  }

  lemma ExpireOneShrinks(t: Table, first: (nat, nat), timeouts: Timeouts, now: nat)
    requires Indexed(t) && first in t.expiry
    ensures IsDue(t.entries, first)
    ensures Remaining(ExpireOne(t, first, timeouts, now).table) == Remaining(t) - 1
  {
    assert IsDue(t.entries, first);
    var t' := ExpireOne(t, first, timeouts, now).table;
    assert t'.entries.Keys == t.entries.Keys;
    assert |t'.entries| == |t'.entries.Keys| && |t.entries| == |t.entries.Keys|;
  }

  /** Fires due deadlines one after another, earliest first. */
  ghost function Expire(t: Table, timeouts: Timeouts, now: nat): (r: Moved)
    requires Indexed(t)
    ensures Indexed(r.table)
    decreases Remaining(t)
  {
    RemainingIsNat(t);
    if t.expiry == {} || First(t.expiry).0 > now then Moved(t, None)
    else
      ExpireOneKeepsIndex(t, First(t.expiry), timeouts, now);
      ExpireOneShrinks(t, First(t.expiry), timeouts, now);
      var m := ExpireOne(t, First(t.expiry), timeouts, now);
      if m.failure.Some? then m else Expire(m.table, timeouts, now)
  }

  /** One turn of the loop. */
  lemma ExpireTurns(t: Table, timeouts: Timeouts, now: nat)
    requires Indexed(t) && t.expiry != {} && First(t.expiry).0 <= now
    ensures First(t.expiry).1 in t.entries && !t.entries[First(t.expiry).1].state.Retired?
    ensures var m := ExpireOne(t, First(t.expiry), timeouts, now);
      && Indexed(m.table) && Remaining(m.table) == Remaining(t) - 1
      && Expire(t, timeouts, now) == if m.failure.Some? then m else Expire(m.table, timeouts, now)
  {
    ExpireOneKeepsIndex(t, First(t.expiry), timeouts, now);
    ExpireOneShrinks(t, First(t.expiry), timeouts, now);
  }

  // ---- What it comes to ----

  predicate Overdue(e: Entry, now: nat) {
    e.DueAt().Some? && e.DueAt().value <= now
  }

  function RetiredRow(e: Entry): Entry { e.(state := Retired, assembly := None) }

  /** What the timers make of one row: an overdue request lapses, an overdue
      lapsed one is retired, and a request lapsing under a give-up time that has
      already come goes straight through to retired. */
  function ExpiredRow(e: Entry, timeouts: Timeouts, now: nat): Entry {
    if !Overdue(e, now) then e
    else if e.state.OnWire? && timeouts.overall > 0 then
      LapsedRow(e, now + timeouts.overall * GIVE_UP_DEADLINES)
    else if e.state.OnWire? then RetiredRow(LapsedRow(e, now))
    else RetiredRow(e)
  }

  /** Every row given its own outcome. */
  function ExpiredRows(entries: map<nat, Entry>, timeouts: Timeouts, now: nat): map<nat, Entry> {
    map m | m in entries :: ExpiredRow(entries[m], timeouts, now)
  }

  lemma ExpireOneIsAStep(t: Table, first: (nat, nat), timeouts: Timeouts, now: nat)
    requires Indexed(t) && first in t.expiry && first.0 <= now
    ensures first.1 in t.entries && !t.entries[first.1].state.Retired?
    ensures ExpiredRows(ExpireOne(t, first, timeouts, now).table.entries, timeouts, now)
         == ExpiredRows(t.entries, timeouts, now)
  {
    assert IsDue(t.entries, first);
    var e := t.entries[first.1];
    var e' := ExpireOne(t, first, timeouts, now).table.entries[first.1];
    assert Overdue(e, now);
    assert ExpiredRow(e', timeouts, now) == ExpiredRow(e, timeouts, now);
  }

  /** On success every overdue row has had its outcome, every other row is
      untouched, and nothing is left overdue. */
  lemma {:induction false} ExpireIsPointwise(t: Table, timeouts: Timeouts, now: nat)
    requires Indexed(t)
    ensures var r := Expire(t, timeouts, now);
      r.failure.None? ==>
        && r.table.entries == ExpiredRows(t.entries, timeouts, now)
        && forall m :: m in r.table.entries ==> !Overdue(r.table.entries[m], now)
    decreases Remaining(t)
  {
    RemainingIsNat(t);
    if t.expiry == {} || First(t.expiry).0 > now {
      forall m | m in t.entries
        ensures !Overdue(t.entries[m], now)
      {
        var e := t.entries[m];
        if e.DueAt().Some? {
          assert IsDue(t.entries, (e.DueAt().value, m));
          assert (e.DueAt().value, m) in t.expiry;
        }
      }
    } else {
      var first := First(t.expiry);
      ExpireOneKeepsIndex(t, first, timeouts, now);
      ExpireOneShrinks(t, first, timeouts, now);
      ExpireOneIsAStep(t, first, timeouts, now);
      var m := ExpireOne(t, first, timeouts, now);
      if m.failure.None? {
        ExpireIsPointwise(m.table, timeouts, now);
      }
    }
  }

  /** The timers fail the connection exactly where the rows they retire bring the
      retired ids up to the budget. */
  lemma {:induction false} ExpireFailsAtBudget(t: Table, timeouts: Timeouts, now: nat)
    requires Indexed(t) && t.retired < 1_024
    ensures Expire(t, timeouts, now).failure.Some?
      <==> |Retireds(ExpiredRows(t.entries, timeouts, now))| >= 1_024
    decreases Remaining(t)
  {
    RemainingIsNat(t);
    if t.expiry == {} || First(t.expiry).0 > now {
      ExpireIsPointwise(t, timeouts, now);
    } else {
      var first := First(t.expiry);
      ExpireOneKeepsIndex(t, first, timeouts, now);
      ExpireOneShrinks(t, first, timeouts, now);
      ExpireOneIsAStep(t, first, timeouts, now);
      var m := ExpireOne(t, first, timeouts, now);
      if m.failure.None? {
        ExpireFailsAtBudget(m.table, timeouts, now);
      } else {
        RetiredStays(m.table.entries, timeouts, now);
      }
    }
  }

  lemma RetiredStays(entries: map<nat, Entry>, timeouts: Timeouts, now: nat)
    ensures |Retireds(entries)| <= |Retireds(ExpiredRows(entries, timeouts, now))|
  {
    SubsetIsSmaller(Retireds(entries), Retireds(ExpiredRows(entries, timeouts, now)));
  }

  /** Whenever a deadline has come, at least one row moves on: a request lapses
      or an id is retired. */
  lemma ExpireMakesProgress(t: Table, timeouts: Timeouts, now: nat)
    requires Indexed(t) && t.expiry != {} && First(t.expiry).0 <= now
    ensures Remaining(Expire(t, timeouts, now).table) < Remaining(t)
  {
    RemainingIsNat(t);
    var first := First(t.expiry);
    ExpireOneKeepsIndex(t, first, timeouts, now);
    ExpireOneShrinks(t, first, timeouts, now);
    var m := ExpireOne(t, first, timeouts, now);
    if m.failure.None? {
      ExpireNeverGrows(m.table, timeouts, now);
    }
  }

  lemma {:induction false} ExpireNeverGrows(t: Table, timeouts: Timeouts, now: nat)
    requires Indexed(t)
    ensures Remaining(Expire(t, timeouts, now).table) <= Remaining(t)
    decreases Remaining(t)
  {
    RemainingIsNat(t);
    if t.expiry != {} && First(t.expiry).0 <= now {
      var first := First(t.expiry);
      ExpireOneKeepsIndex(t, first, timeouts, now);
      ExpireOneShrinks(t, first, timeouts, now);
      var m := ExpireOne(t, first, timeouts, now);
      if m.failure.None? {
        ExpireNeverGrows(m.table, timeouts, now);
      }
    }
  }
}
