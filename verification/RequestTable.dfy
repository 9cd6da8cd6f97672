/** The request table as the actor owns it: a map of rows, a sorted deadline
    index and two counters, updated in place. Every method is proved to take the
    step of `Table` it stands for; the index and the counters never disagree
    with the rows, so no lookup, decrement or removal in here can fail. */
module InPlaceTable {
  import opened Wrappers
  import opened Table
  import T = Table
  import opened TableIndex
  import E = TableExpiry
  import R = Reassembly
  import C = Coverage

  class RequestTable {
    var entries: map<nat, Entry>
    var expiry: set<(nat, nat)>
    var charging: nat
    var retired: nat
    var cursor: nat
    const limit: nat
    const timeouts: Timeouts
    /** What the outside has seen end, in order. */
    ghost var log: seq<Ended>

    ghost function State(): Table
      reads this
    {
      Table(entries, expiry, charging, retired, log)
    }

    ghost predicate Valid()
      reads this
    {
      Indexed(State()) && cursor <= LAST_MID
    }

    constructor (limit: nat, timeouts: Timeouts)
      ensures Valid() && State() == EMPTY
      ensures this.limit == limit && this.timeouts == timeouts && cursor == 0
    {
      this.limit, this.timeouts := limit, timeouts;
      entries, expiry, charging, retired, cursor, log := map[], {}, 0, 0, 0, [];
      new;
      NewTableIsIndexed();
    }

    /** The earliest deadline, where there is one. */
    method NextExpiry() returns (at: Option<nat>)
      ensures at.None? <==> expiry == {}
      ensures at.Some? ==> at.value == E.First(expiry).0
    {
      if expiry == {} {
        return None;
      }
      var first := FirstOf(expiry);
      return Some(first.0);
    }

    /** The next free id from wherever the last search stopped, which is where the
        next one goes on; `None` exactly where every one of the 65,535 is held. */
    method Allocate() returns (mid: Option<nat>)
      requires Valid()
      modifies this`cursor
      ensures Valid()
      ensures mid.Some? ==> mid.value <= 0xFFFE && mid.value !in entries
      ensures mid.Some? ==> NextFree(entries, old(cursor), mid.value) && cursor == Slot(mid.value, 1)
      ensures mid.None? <==> C.Span(0, 65_535) <= entries.Keys
      ensures mid.None? <==> |entries| >= 65_535
    {
      HeldIds(entries);
      if |entries| >= POOL {
        return None;
      }
      ghost var start := cursor;
      for tried := 0 to POOL
        invariant cursor == Slot(start, tried)
        invariant forall j :: 0 <= j < tried ==> Slot(start, j) in entries
      {
        var at := cursor;
        cursor := if cursor == LAST_MID then 0 else cursor + 1;
        if at !in entries {
          Found(entries, start, tried);
          return Some(at);
        }
      }
      AllTried(entries, start);
      assert false;
    }

    /** Adds a row and its first deadline, and counts its charge. */
    method Dispatch(mid: nat, request: nat, command: nat, reply: bool,
                    assembly: Option<R.Assembly>, hook: bool, now: nat)
      requires Valid() && mid <= LAST_MID && mid !in entries
      requires assembly.Some? ==> assembly.value.Valid() && assembly.value.buffered
      modifies this`entries, this`expiry, this`charging
      ensures Valid()
      ensures State() == T.Dispatch(old(State()), mid, request, command, reply, assembly, hook, timeouts, now)
    {
      DispatchKeepsIndex(State(), mid, request, command, reply, assembly, hook, timeouts, now);
      var silenceAt, overallAt := now + timeouts.perRequest, now + timeouts.overall;
      expiry := expiry + {(Min(silenceAt, overallAt), mid)};
      entries := entries[mid := Entry(request, command, assembly, hook, OnWire(reply, silenceAt, overallAt))];
      charging := charging + 1;
    }

    /** The arrival step in place: at most the row of the frame's id changes, and its
        deadline, its charge and its end change with it. */
    method Accept(frame: Frame, now: nat) returns (failure: Option<Error>)
      requires Valid()
      modifies this`entries, this`expiry, this`charging, this`retired, this`log
      ensures Valid()
      ensures Moved(State(), failure) == T.Accept(old(State()), frame, timeouts, now)
    {
      AcceptKeepsIndex(State(), frame, timeouts, now);
      var mid := frame.mid;
      if mid !in entries {
        return Some(Unroutable(mid, frame.command));
      }
      var entry := entries[mid];
      if entry.state.Retired? {
        return None;
      }
      if entry.command != frame.command {
        return Some(Unroutable(mid, frame.command));
      }
      var r := AcceptRow(entry, frame, now, timeouts.perRequest);
      AcceptRowKeepsValid(entry, frame, now, timeouts.perRequest);
      failure := Settle(mid, entry, r);
    }

    /** Brings the index, the count and the log in line with what a row did. */
    method Count(mid: nat, entry: Entry, r: RowStep)
      requires Valid() && mid in entries && entries[mid] == entry && !entry.state.Retired?
      modifies this`expiry, this`charging, this`log
      ensures State() == T.Counted(old(State()), mid, entry, r)
    {
      log := log + r.ended;
      Reindex(mid, entry.DueAt(), if r.step.Continuing? then r.entry.DueAt() else None);
      assert Pair(entry.DueAt(), mid) == Due(mid, entry) && Pair(r.entry.DueAt(), mid) == Due(mid, r.entry);
      if entry.Charges() && !r.step.Continuing? {
        ChargedIsCounted(old(State()), mid);
        charging := charging - 1;
      }
    }

    /** What an arrival does to the table, given what it did to its row. */
    method Settle(mid: nat, entry: Entry, r: RowStep) returns (failure: Option<Error>)
      requires Valid() && mid in entries && entries[mid] == entry && !entry.state.Retired?
      modifies this`entries, this`expiry, this`charging, this`retired, this`log
      ensures Moved(State(), failure) == T.Settle(old(State()), mid, entry, r)
    {
      Count(mid, entry, r);
      match r.step
      case Continuing =>
        entries := entries[mid := r.entry];
        return None;
      case Completed =>
        entries := entries - {mid};
        return None;
      case Corrupted =>
        entries := entries[mid := r.entry];
        failure := Retire(mid);
    }

    /** Moves the deadline of one row. */
    method Reindex(mid: nat, before: Option<nat>, after: Option<nat>)
      requires IsSolePair(expiry, mid, before)
      modifies this`expiry
      ensures expiry == old(expiry) - Pair(before, mid) + Pair(after, mid)
    {
      if before != after {
        if before.Some? {
          expiry := expiry - {(before.value, mid)};
        }
        if after.Some? {
          expiry := expiry + {(after.value, mid)};
        }
      }
    }

    /** An id leaves the pool for good; at the budget this fails the connection. */
    method Retire(mid: nat) returns (failure: Option<Error>)
      requires mid in entries
      modifies this`entries, this`retired
      ensures Moved(State(), failure) == T.Retire(old(State()), mid)
    {
      entries := entries[mid := entries[mid].(state := Retired, assembly := None)];
      retired := retired + 1;
      return if retired >= RETIREMENT_BUDGET then Some(RetirementBudget(retired)) else None;
    }

    /** Pops due deadlines, earliest first, until none is due or one fails. */
    method Expire(now: nat) returns (failure: Option<Error>)
      requires Valid()
      modifies this`entries, this`expiry, this`charging, this`retired, this`log
      ensures Valid()
      ensures Moved(State(), failure) == E.Expire(old(State()), timeouts, now)
    {
      while expiry != {}
        invariant Valid()
        invariant E.Expire(State(), timeouts, now) == E.Expire(old(State()), timeouts, now)
        decreases E.Remaining(State())
      {
        E.RemainingIsNat(State());
        var first := FirstOf(expiry);
        if first.0 > now {
          break;
        }
        E.ExpireOneShrinks(State(), first, timeouts, now);
        ExpireOneKeepsIndex(State(), first, timeouts, now);
        failure := FireOne(first, now);
        if failure.Some? {
          return;
        }
      }
      return None;
    }

    /** One turn of the loop: pops the earliest deadline and acts on its row. */
    method FireOne(first: (nat, nat), now: nat) returns (failure: Option<Error>)
      requires Valid() && first in expiry
      requires first.1 in entries && !entries[first.1].state.Retired?
      modifies this`entries, this`expiry, this`charging, this`retired, this`log
      ensures Moved(State(), failure) == T.ExpireOne(old(State()), first, timeouts, now)
    {
      expiry := expiry - {first};
      var mid := first.1;
      var giveUpAt := now + timeouts.overall * GIVE_UP_DEADLINES;
      var entry := entries[mid];
      match entry.state
      case OnWire(_, _, _) =>
        ChargedIsCounted(old(State()), mid);
        log := log + Deliver(entry, Err(Timeout)).1;
        entries := entries[mid := LapsedRow(entry, giveUpAt)];
        charging := charging - 1;
        expiry := expiry + {(giveUpAt, mid)};
        return None;
      case Lapsed(_) =>
        failure := Retire(mid);
    }

    /** Empties the table, each row ended once, in whatever order the map gives them
        out. */
    method FailAll() returns (ghost order: seq<nat>)
      requires Valid()
      modifies this`entries, this`expiry, this`charging, this`log
      ensures Enumerates(order, old(entries).Keys)
      ensures State() == T.FailAll(old(State()), order)
      ensures entries == map[] && expiry == {} && charging == 0
    {
      ghost var ended;
      order, ended := EndAll(entries);
      log := log + ended;
      entries, expiry, charging := map[], {}, 0;
    }
  }

  /** Delivers the loss of the connection to every row, taken one by one. */
  method EndAll(entries: map<nat, Entry>) returns (ghost order: seq<nat>, ghost ended: seq<Ended>)
    ensures Enumerates(order, entries.Keys)
    ensures ended == LostRows(entries, order)
  {
    order, ended := [], [];
    var todo := entries.Keys;
    while todo != {}
      invariant todo <= entries.Keys
      invariant Enumerates(order, entries.Keys - todo)
      invariant ended == LostRows(entries, order)
    {
      var mid :| mid in todo;
      LostRowsNext(entries, order, mid);
      EnumeratesNext(order, entries.Keys - todo, mid);
      ended := ended + Deliver(entries[mid], Err(Lost)).1;
      order := order + [mid];
      todo := todo - {mid};
      assert entries.Keys - todo == entries.Keys - (todo + {mid}) + {mid};
    }
  }

  lemma EnumeratesNext(order: seq<nat>, ids: set<nat>, mid: nat)
    requires Enumerates(order, ids) && mid !in ids
    ensures Enumerates(order + [mid], ids + {mid})
  {
  }

  lemma LostRowsNext(entries: map<nat, Entry>, order: seq<nat>, mid: nat)
    requires mid in entries && forall m :: m in order ==> m in entries
    ensures LostRows(entries, order + [mid]) == LostRows(entries, order) + Deliver(entries[mid], Err(Lost)).1
  {
    assert (order + [mid])[..|order|] == order;
  }

  function Pair(at: Option<nat>, mid: nat): set<(nat, nat)> {
    if at.Some? then {(at.value, mid)} else {}
  }

  /** The only deadline the index holds for `mid`. */
  ghost predicate IsSolePair(expiry: set<(nat, nat)>, mid: nat, at: Option<nat>) {
    forall d :: d in expiry && d.1 == mid <==> d in Pair(at, mid)
  }

  /** The earliest deadline, as the sorted index yields it. */
  method FirstOf(s: set<(nat, nat)>) returns (first: (nat, nat))
    requires s != {}
    ensures IsFirst(first, s) && first == E.First(s)
  {
    E.SomeFirst(s);
    first :| first in s && forall q :: q in s ==> Before(first, q);
    assert Before(first, E.First(s)) && Before(E.First(s), first);
  }

  lemma {:induction false} SpanCount(n: nat)
    ensures |C.Span(0, n)| == n
  {
    if n > 0 {
      SpanCount(n - 1);
      assert C.Span(0, n) == C.Span(0, n - 1) + {n - 1};
    }
  }

  /** Counting the held ids: they are all in the pool, so as many as the pool
      holds is all of them. */
  lemma HeldIds(entries: map<nat, Entry>)
    requires RowsValid(entries)
    ensures |entries| >= POOL <==> C.Span(0, POOL) <= entries.Keys
  {
    SpanCount(POOL);
    var pool: set<int> := C.Span(0, POOL);
    var held: set<int> := set m | m in entries.Keys :: m;
    assert |held| == |entries| by {
      assert held == entries.Keys;
    }
    assert held <= pool;
    if |held| >= POOL {
      SubsetOfSameSize(held, pool);
    }
    if pool <= held {
      E.SubsetIsSmaller(pool, held);
    }
  }

  lemma {:induction false} SubsetOfSameSize<T>(a: set<T>, b: set<T>)
    requires a <= b && |a| >= |b|
    ensures a == b
  {
    if x :| x in b && x !in a {
      E.SubsetIsSmaller(a, b - {x});
    }
  }

  /** The id a search that began at `start` looks at on try `j`. */
  function Slot(start: nat, j: nat): nat { (start + j) % 65_535 }

  ghost predicate FreeAfter(entries: map<nat, Entry>, start: nat, j: nat) {
    Slot(start, j) !in entries && forall i :: 0 <= i < j ==> Slot(start, i) in entries
  }

  /** `mid` is the first free id of a search that begins at `start`. */
  ghost predicate NextFree(entries: map<nat, Entry>, start: nat, mid: nat) {
    exists j :: 0 <= j < 65_535 && FreeAfter(entries, start, j) && mid == Slot(start, j)
  }

  lemma Found(entries: map<nat, Entry>, start: nat, tried: nat)
    requires tried < POOL && FreeAfter(entries, start, tried)
    ensures NextFree(entries, start, Slot(start, tried)) && !(C.Span(0, POOL) <= entries.Keys)
  {
    assert Slot(start, tried) in C.Span(0, POOL);
  }

  /** A search that wrapped once around has looked at every id. */
  lemma AllTried(entries: map<nat, Entry>, start: nat)
    requires start <= LAST_MID
    requires forall j :: 0 <= j < POOL ==> Slot(start, j) in entries
    ensures C.Span(0, POOL) <= entries.Keys
  {
    forall x | x in C.Span(0, POOL)
      ensures x in entries.Keys
    {
      var j := if x >= start then x - start else x + POOL - start;
      assert Slot(start, j) == x;
    }
  }
}
