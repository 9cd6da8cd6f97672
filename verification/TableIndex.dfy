/** The table's counters and deadline index say exactly what its rows say, after
    every step. */
module TableIndex {
  import opened Wrappers
  import opened Table
  import R = Reassembly

  function OnWires(entries: map<nat, Entry>): set<nat> {
    set m | m in entries && entries[m].state.OnWire?
  }

  function Retireds(entries: map<nat, Entry>): set<nat> {
    set m | m in entries && entries[m].state.Retired?
  }

  /** `d` is the deadline of the row at its id. */
  predicate IsDue(entries: map<nat, Entry>, d: (nat, nat)) {
    d.1 in entries && entries[d.1].DueAt() == Some(d.0)
  }

  /** The index holds exactly one pair for every row that is not retired, at the
      deadline of that row. */
  ghost predicate IndexAgrees(entries: map<nat, Entry>, expiry: set<(nat, nat)>) {
    forall d :: d in expiry <==> IsDue(entries, d)
  }

  /** Every row is sound and holds an issuable id. */
  ghost predicate RowsValid(entries: map<nat, Entry>) {
    forall m :: m in entries ==> m <= LAST_MID && entries[m].Valid()
  }

  /** The invariant: the two counters and the deadline index agree with the rows. */
  ghost predicate Indexed(t: Table) {
    && RowsValid(t.entries)
    && t.charging == |OnWires(t.entries)|
    && t.retired == |Retireds(t.entries)|
    && IndexAgrees(t.entries, t.expiry)
  }

  function Count(b: bool): nat { if b then 1 else 0 }

  /** What one row contributes to the counts, apart from all the others. */
  lemma OnWireApart(entries: map<nat, Entry>, m: nat, e: Entry)
    ensures |OnWires(entries[m := e])| == |OnWires(entries - {m})| + Charge(e)
  {
    var rest := OnWires(entries - {m});
    assert OnWires(entries[m := e]) == if e.state.OnWire? then rest + {m} else rest;
  }

  lemma RetiredApart(entries: map<nat, Entry>, m: nat, e: Entry)
    ensures |Retireds(entries[m := e])| == |Retireds(entries - {m})| + Count(e.state.Retired?)
  {
    var rest := Retireds(entries - {m});
    assert Retireds(entries[m := e]) == if e.state.Retired? then rest + {m} else rest;
  }

  /** Changing one row moves the counts by what that row contributes. */
  lemma CountsChange(entries: map<nat, Entry>, m: nat, e: Entry)
    requires m in entries
    ensures |OnWires(entries[m := e])| == |OnWires(entries)| - Charge(entries[m]) + Charge(e)
    ensures |Retireds(entries[m := e])|
         == |Retireds(entries)| - Count(entries[m].state.Retired?) + Count(e.state.Retired?)
    ensures |OnWires(entries - {m})| == |OnWires(entries)| - Charge(entries[m])
    ensures |Retireds(entries - {m})| == |Retireds(entries)| - Count(entries[m].state.Retired?)
  {
    OnWireApart(entries, m, e);
    OnWireApart(entries, m, entries[m]);
    RetiredApart(entries, m, e);
    RetiredApart(entries, m, entries[m]);
    assert entries == entries[m := entries[m]];
  }

  lemma NewTableIsIndexed()
    ensures Indexed(EMPTY)
  {
    assert OnWires(map[]) == {} && Retireds(map[]) == {};
  }

  lemma DispatchKeepsIndex(t: Table, mid: nat, request: nat, command: nat, reply: bool,
                           assembly: Option<R.Assembly>, hook: bool, timeouts: Timeouts, now: nat)
    requires Indexed(t) && mid !in t.entries && mid <= LAST_MID
    requires assembly.Some? ==> assembly.value.Valid() && assembly.value.buffered
    ensures Indexed(Dispatch(t, mid, request, command, reply, assembly, hook, timeouts, now))
  {
    var e := Entry(request, command, assembly, hook,
                   OnWire(reply, now + timeouts.perRequest, now + timeouts.overall));
    OnWireApart(t.entries, mid, e);
    RetiredApart(t.entries, mid, e);
    assert t.entries - {mid} == t.entries;
  }

  /** Replacing a row, with the index and the counts moved to match. */
  lemma ReplaceKeepsIndex(t: Table, mid: nat, e: Entry)
    requires Indexed(t) && mid in t.entries && e.Valid()
    ensures Indexed(t.(
      entries := t.entries[mid := e],
      expiry := t.expiry - Due(mid, t.entries[mid]) + Due(mid, e),
      charging := t.charging - Charge(t.entries[mid]) + Charge(e),
      retired := t.retired - Count(t.entries[mid].state.Retired?) + Count(e.state.Retired?)))
  {
    CountsChange(t.entries, mid, e);
  }

  /** Removing a row that is not retired, likewise. */
  lemma RemoveKeepsIndex(t: Table, mid: nat)
    requires Indexed(t) && mid in t.entries && !t.entries[mid].state.Retired?
    ensures Indexed(t.(
      entries := t.entries - {mid},
      expiry := t.expiry - Due(mid, t.entries[mid]),
      charging := t.charging - Charge(t.entries[mid])))
  {
    CountsChange(t.entries, mid, t.entries[mid]);
  }

  /** A row that is on the wire is counted, so that taking it off cannot
      underflow. */
  lemma ChargedIsCounted(t: Table, mid: nat)
    requires Indexed(t) && mid in t.entries && t.entries[mid].Charges()
    ensures t.charging > 0
  {
    assert mid in OnWires(t.entries);
  }

  // ---- Accepting a message ----

  /** A row stays sound over an arrival that leaves it where it is, and no arrival
      moves it between on the wire, lapsed and retired. */
  lemma AcceptRowKeepsValid(e: Entry, frame: Frame, now: nat, perRequest: nat)
    requires e.Valid() && !e.state.Retired?
    ensures var r := AcceptRow(e, frame, now, perRequest);
      && (r.step.Continuing? ==> r.entry.Valid() && r.ended == [])
      && (r.entry.Charges() <==> e.Charges())
      && !r.entry.state.Retired?
      && r.entry.request == e.request && r.entry.command == e.command
  {
    if e.assembly.Some? && frame.body.Decoded? {
      R.AcceptKeepsValid(e.assembly.value, frame.body.fragment);
      R.AcceptTakes(e.assembly.value, frame.body.fragment);
    }
  }

  lemma AcceptKeepsIndex(t: Table, frame: Frame, timeouts: Timeouts, now: nat)
    requires Indexed(t)
    ensures Indexed(Accept(t, frame, timeouts, now).table)
  {
    var mid := frame.mid;
    if mid in t.entries && !t.entries[mid].state.Retired? && t.entries[mid].command == frame.command {
      var e := t.entries[mid];
      var r := AcceptRow(e, frame, now, timeouts.perRequest);
      AcceptRowKeepsValid(e, frame, now, timeouts.perRequest);
      match r.step
      case Continuing => ReplaceKeepsIndex(t, mid, r.entry);
      case Completed => RemoveKeepsIndex(t, mid);
      case Corrupted =>
        var retired := r.entry.(state := Retired, assembly := None);
        CorruptedHasNoHook(e, frame, now, timeouts.perRequest);
        ReplaceKeepsIndex(t, mid, retired);
        assert t.entries[mid := r.entry][mid := retired] == t.entries[mid := retired];
    }
  }

  lemma CorruptedHasNoHook(e: Entry, frame: Frame, now: nat, perRequest: nat)
    requires e.Valid() && AcceptRow(e, frame, now, perRequest).step.Corrupted?
    ensures !AcceptRow(e, frame, now, perRequest).entry.hook
  {
  }

  // ---- Firing a deadline ----

  lemma ExpireOneKeepsIndex(t: Table, first: (nat, nat), timeouts: Timeouts, now: nat)
    requires Indexed(t) && first in t.expiry
    ensures first.1 in t.entries && !t.entries[first.1].state.Retired?
    ensures Indexed(ExpireOne(t, first, timeouts, now).table)
  {
    assert IsDue(t.entries, first);
    var mid := first.1;
    var e := t.entries[mid];
    assert Due(mid, e) == {first};
    if e.state.OnWire? {
      var e' := LapsedRow(e, now + timeouts.overall * GIVE_UP_DEADLINES);
      assert e'.Valid();
      ReplaceKeepsIndex(t, mid, e');
    } else {
      ReplaceKeepsIndex(t, mid, e.(state := Retired, assembly := None));
    }
  }
}
