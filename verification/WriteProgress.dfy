/** The progress handle as it is shared: one object, updated in place by the write,
    by the connection when a chunk ends and by the drops.

    `Register`, `Chunk`, `Record`, `Mark`, `CountOut`, `ClearIssuing`, `Settle` and
    `Signal` are the steps of `Progress`, which other holders' may fall between; the
    others are what one holder makes of them when none do. */
module InPlaceProgress {
  import opened Wrappers
  import C = Coverage
  import P = Progress

  class WriteProgress {
    const covered: C.Coverage
    var base: nat
    var tickets: map<nat, P.Ticket>
    var outstanding: nat
    var issuing: bool
    var registered: bool
    var finalPrefix: Option<nat>
    var signalled: bool
    /** The number of tickets given out. */
    var serial: nat
    /** Where those at work on the handle are. */
    ghost var leaving: nat
    ghost var settling: nat
    ghost var signalling: nat

    ghost function State(): P.State
      reads this, covered
    {
      P.State(base, covered.Covered(), tickets, outstanding, issuing, registered, finalPrefix, signalled,
              leaving, settling, signalling)
    }

    ghost predicate Valid()
      reads this, covered
    {
      covered.Valid() && P.Sound(State()) && forall id :: id in tickets ==> id < serial
    }

    constructor ()
      ensures Valid() && fresh(covered) && State() == P.NEW
    {
      covered := new C.Coverage();
      base, tickets, outstanding, issuing, registered, finalPrefix, signalled := 0, map[], 0, false, false, None, false;
      serial, leaving, settling, signalling := 0, 0, 0, 0;
      new;
      P.NewIsSound();
    }

    /** The contiguous acknowledged prefix. */
    method Written() returns (n: nat)
      requires Valid()
      ensures n == P.Written(State())
    {
      if finalPrefix.Some? {
        return finalPrefix.value;
      }
      n := covered.Prefix();
    }

    // ---- The steps ----

    /** The first registration succeeds; any other changes nothing. */
    method Register(base: nat) returns (ok: bool)
      requires Valid()
      modifies this`registered, this`issuing, this`base
      ensures Valid() && State() == P.Next(old(State()), P.Register(base))
      ensures ok == !old(registered)
    {
      P.NextKeepsSound(State(), P.Register(base));
      if registered {
        return false;
      }
      registered, issuing, this.base := true, true, base;
      return true;
    }

    /** A ticket for one chunk. */
    method Chunk(offset: nat, offered: nat) returns (id: nat)
      requires Valid() && issuing
      modifies this`outstanding, this`tickets, this`serial
      ensures Valid() && id == old(serial) && serial == old(serial) + 1
      ensures P.Enabled(old(State()), P.Issue(id, offset, offered))
      ensures State() == P.Next(old(State()), P.Issue(id, offset, offered))
    {
      id := serial;
      P.NextKeepsSound(State(), P.Issue(id, offset, offered));
      outstanding, tickets, serial := outstanding + 1, tickets[id := P.Ticket(offset, offered, false)], serial + 1;
    }

    /** Covers a span, unless it meets what is covered. */
    method Covers(at: nat, count: nat)
      requires covered.Valid()
      modifies covered
      ensures covered.Valid()
      ensures var was, bytes := old(covered.Covered()), C.Span(at, at + count);
        covered.Covered() == if was !! bytes then was + bytes else was
    {
      var taken := covered.Cover(at, count);
    }

    /** Records what the reply to a chunk acknowledged. */
    method Record(id: nat, acknowledged: Option<nat>)
      requires Valid() && id in tickets
      modifies covered
      ensures Valid() && State() == P.Next(old(State()), P.Record(id, acknowledged))
    {
      ghost var s := State();
      P.RecordedIsSound(s, id, acknowledged);
      if acknowledged.Some? && acknowledged.value > 0 {
        var offered := tickets[id].offered;
        var count := if acknowledged.value <= offered then acknowledged.value else offered;
        var at := if base <= tickets[id].offset then tickets[id].offset - base else 0;
        P.RecordsBytes(s, id, acknowledged, at, count);
        Covers(at, count);
      } else {
        P.RecordsNothing(s, id, acknowledged);
      }
      assert State() == P.Recorded(s, id, acknowledged);
    }

    /** Marks a ticket, and says whether it was not marked before. */
    method Mark(id: nat) returns (first: bool)
      requires Valid() && id in tickets
      modifies this`tickets, this`leaving
      ensures Valid() && State() == P.Next(old(State()), P.Mark(id)) && first == !old(tickets[id].applied)
    {
      P.MarkKeepsSound(State(), id);
      first := !tickets[id].applied;
      tickets := tickets[id := tickets[id].(applied := true)];
      if first {
        leaving := leaving + 1;
      } else {
        assert tickets == old(tickets);
      }
    }

    /** Counts a marked chunk out of the group. */
    method CountOut()
      requires Valid() && leaving > 0
      modifies this`outstanding, this`leaving, this`settling
      ensures Valid() && State() == P.Next(old(State()), P.CountOut)
    {
      P.NextKeepsSound(State(), P.CountOut);
      outstanding, leaving, settling := outstanding - 1, leaving - 1, settling + 1;
    }

    /** Says that the write issues no more chunks. */
    method ClearIssuing()
      requires Valid() && issuing
      modifies this`issuing, this`settling
      ensures Valid() && State() == P.Next(old(State()), P.ClearIssuing)
    {
      P.NextKeepsSound(State(), P.ClearIssuing);
      issuing, settling := false, settling + 1;
    }

    /** Freezes the prefix once nothing can add to it, and says whether it did. */
    method Settle() returns (froze: bool)
      requires Valid() && settling > 0
      modifies this`finalPrefix, this`settling, this`signalling
      ensures Valid() && State() == P.Next(old(State()), P.Settle) && (froze <==> signalling > old(signalling))
    {
      P.NextKeepsSound(State(), P.Settle);
      settling := settling - 1;
      if issuing || outstanding > 0 || finalPrefix.Some? {
        return false;
      }
      var prefix := covered.Prefix();
      finalPrefix, signalling := Some(prefix), signalling + 1;
      return true;
    }

    /** Wakes whoever waits for the prefix to be final. */
    method Signal()
      requires Valid() && signalling > 0
      modifies this`signalled, this`signalling
      ensures Valid() && State() == P.Next(old(State()), P.Signal)
    {
      P.NextKeepsSound(State(), P.Signal);
      signalled, signalling := true, signalling - 1;
    }

    // ---- What one holder does ----

    /** Looks whether the group is empty, and signals if it was the one to freeze the
        prefix. */
    method SettleAndSignal()
      requires Valid() && settling > 0
      modifies this`finalPrefix, this`settling, this`signalling, this`signalled
      ensures Valid() && State() == P.SettledAndSignalled(old(State()))
    {
      var froze := Settle();
      if froze {
        Signal();
      }
    }

    /** The first to leave with a ticket marks it, counts it out and settles. */
    method Leave(id: nat)
      requires Valid() && id in tickets
      modifies this`tickets, this`outstanding, this`finalPrefix, this`signalled, this`leaving, this`settling,
               this`signalling
      ensures Valid() && State() == P.Left(old(State()), id)
    {
      var first := Mark(id);
      if !first {
        return;
      }
      CountOut();
      SettleAndSignal();
    }

    /** The request that carried a chunk has ended. */
    method Ended(id: nat, acknowledged: Option<nat>)
      requires Valid() && id in tickets
      modifies this`tickets, this`outstanding, this`finalPrefix, this`signalled, this`leaving, this`settling,
               this`signalling, covered
      ensures Valid() && State() == P.Ended(old(State()), id, acknowledged)
    {
      Record(id, acknowledged);
      Leave(id);
    }

    /** The last holder of a ticket has dropped it. */
    method DropChunk(id: nat)
      requires Valid() && id in tickets
      modifies this`tickets, this`outstanding, this`finalPrefix, this`signalled, this`leaving, this`settling,
               this`signalling
      ensures Valid() && State() == P.Left(old(State()), id)
    {
      if !tickets[id].applied {
        Leave(id);
      }
    }

    /** The guard has been dropped. */
    method DropIssuing()
      requires Valid() && issuing
      modifies this`issuing, this`finalPrefix, this`signalled, this`settling, this`signalling
      ensures Valid() && State() == P.Stopped(old(State()))
    {
      ClearIssuing();
      SettleAndSignal();
    }
  }
}
