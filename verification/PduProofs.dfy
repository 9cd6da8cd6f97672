/** What the collector promises of what it is fed. */
module PduProofs {
  import opened Wrappers
  import opened Pdu

  // ---- Boundaries ----

  /** More bytes behind what is pending do not change what is taken out of it. */
  lemma NextMore(pending: seq<byte>, more: seq<byte>)
    ensures Next(pending).Short? ==> Next(pending + more) == Next(pending)
    ensures Next(pending).Whole? ==> Next(pending + more) == Whole(Next(pending).pdu, Next(pending).rest + more)
  {
    if !Next(pending).Starved? {
      var length := Read16(pending, 8);
      assert Read16(pending + more, 8) == length;
      if HEADER_LEN <= length <= |pending| {
        assert (pending + more)[..length] == pending[..length];
        assert (pending + more)[length..] == pending[length..] + more;
      }
    }
  }

  /** What one drain of a longer stream does, in two. */
  function Resumed(first: Outcome, more: seq<byte>): Outcome {
    var state := first.state.(pending := first.state.pending + more);
    if first.error.Some? then Outcome(state, first.error) else Drain(state)
  }

  lemma {:induction false} DrainMore(s: State, more: seq<byte>)
    ensures Drain(s.(pending := s.pending + more)) == Resumed(Drain(s), more)
    decreases |s.pending|
  {
    NextMore(s.pending, more);
    if Next(s.pending).Whole? {
      var step := Accept(s.collected, Next(s.pending).pdu);
      if step.error.None? {
        DrainMore(State(step.state, Next(s.pending).rest), more);
      }
    }
  }

  /** **Boundaries do not matter to the collector, one boundary**: feeding it twice,
      the second time only if the first did not fail, is feeding it once what the
      two joined are. They fail alike, and leave the same collected. */
  lemma FeedTwice(s: State, a: seq<byte>, b: seq<byte>)
    ensures var first := Feed(s, a); var both := Feed(s, a + b);
      if first.error.Some? then both.error == first.error && both.state.collected == first.state.collected
      else both == Feed(first.state, b)
  {
    DrainMore(s.(pending := s.pending + a), b);
    assert s.pending + (a + b) == s.pending + a + b;
  }

  lemma {:induction false} DrainStarves(s: State)
    ensures Drain(s).error.None? ==> Next(Drain(s).state.pending).Starved?
    decreases |s.pending|
  {
    if Next(s.pending).Whole? {
      var step := Accept(s.collected, Next(s.pending).pdu);
      if step.error.None? {
        DrainStarves(State(step.state, Next(s.pending).rest));
      }
    }
  }

  /** **Boundaries do not matter to the collector**: however a stream is cut, feeding
      it all, piece by piece, has the outcome of feeding it at once: the same first
      failure, or the same collector. */
  lemma {:induction false} BoundariesDoNotMatter(s: State, chunks: seq<seq<byte>>)
    requires Next(s.pending).Starved?
    ensures var fed := FeedAll(s, chunks); var whole := Feed(s, Flatten(chunks));
      if fed.error.Some? then whole.error == fed.error && whole.state.collected == fed.state.collected
      else whole == fed
    decreases |chunks|
  {
    if chunks == [] {
      assert s.pending + [] == s.pending;
    } else {
      var first := Feed(s, chunks[0]);
      FeedTwice(s, chunks[0], Flatten(chunks[1..]));
      if first.error.None? {
        DrainStarves(s.(pending := s.pending + chunks[0]));
        BoundariesDoNotMatter(first.state, chunks[1..]);
      }
    }
  }

  // ---- What a reply is ----

  /** A PDU of the reply: its header says what it must, and its length is the one
      it declares. */
  predicate Part(pdu: seq<byte>, callId: nat, ptype: byte) {
    && HEADER_LEN + Prologue(ptype) <= |pdu|
    && Read16(pdu, 8) == |pdu|
    && pdu[0] == 5 && pdu[1] == 0 && pdu[2] == ptype
    && pdu[4..8] == [0x10, 0x00, 0x00, 0x00]
    && Read32(pdu, 12) == callId
  }

  /** The share of the payload a PDU carries. */
  function Stub(pdu: seq<byte>, ptype: byte): seq<byte> {
    var from := HEADER_LEN + Prologue(ptype);
    if from <= |pdu| then pdu[from..] else []
  }

  /** The shares of the payload the PDUs carry, in order. */
  function Stubs(pdus: seq<seq<byte>>, ptype: byte): seq<byte> {
    if pdus == [] then [] else Stub(pdus[0], ptype) + Stubs(pdus[1..], ptype)
  }

  /** PDUs of one reply, of which the last and no other carries PFC_LAST_FRAG. */
  ghost predicate Parts(pdus: seq<seq<byte>>, callId: nat, ptype: byte) {
    forall i :: 0 <= i < |pdus| ==> Part(pdus[i], callId, ptype) && (Last(pdus[i][3]) <==> i == |pdus| - 1)
  }

  /** What has been collected is of this type, or nothing has and the PDU carries
      PFC_FIRST_FRAG. */
  predicate Opens(c: Collected, pdu: seq<byte>, ptype: byte) {
    if c.ptype.Some? then c.ptype.value == ptype else |pdu| >= HEADER_LEN && First(pdu[3])
  }

  /** The PDUs that complete what has been collected so far, within both caps. */
  ghost predicate Completes(c: Collected, pdus: seq<seq<byte>>, ptype: byte) {
    && !c.complete && |pdus| > 0 && ptype != FAULT
    && Parts(pdus, c.callId, ptype) && Opens(c, pdus[0], ptype)
    && c.pdus + |pdus| <= PDU_CAP
    && |c.payload| + |Stubs(pdus, ptype)| <= STUB_CAP
  }

  function Completed(c: Collected, pdus: seq<seq<byte>>, ptype: byte): Collected {
    Collected(c.callId, Some(ptype), c.payload + Stubs(pdus, ptype), c.pdus + |pdus|, true)
  }

  /** What is collected once one PDU of the reply has been taken. */
  function Taken(c: Collected, pdu: seq<byte>, ptype: byte): Collected
    requires |pdu| >= HEADER_LEN
  {
    Collected(c.callId, Some(ptype), c.payload + Stub(pdu, ptype), c.pdus + 1, Last(pdu[3]))
  }

  /** A stream that splits into PDUs as far as it goes. */
  predicate Splits(bytes: seq<byte>)
    decreases |bytes|
  {
    match Next(bytes)
    case Starved => true
    case Short(_) => false
    case Whole(_, rest) => Splits(rest)
  }

  /** Once a reply is complete, what follows changes nothing; it can still fail,
      and only by declaring a length below the header's. */
  lemma {:induction false} PastLast(s: State)
    requires s.collected.complete
    ensures Drain(s).state.collected == s.collected
    ensures Drain(s).error.None? <==> Splits(s.pending)
    ensures Drain(s).error.Some? ==> Drain(s).error.value.FragmentLengthTooSmall?
    decreases |s.pending|
  {
    if Next(s.pending).Whole? {
      PastLast(State(s.collected, Next(s.pending).rest));
    }
  }

  lemma NextIsPart(pdu: seq<byte>, rest: seq<byte>, callId: nat, ptype: byte)
    requires Part(pdu, callId, ptype)
    ensures Next(pdu + rest) == Whole(pdu, rest)
  {
    assert Read16(pdu + rest, 8) == Read16(pdu, 8);
    assert (pdu + rest)[..|pdu|] == pdu;
    assert (pdu + rest)[|pdu|..] == rest;
  }

  /** One PDU of the reply, taken. */
  lemma AcceptPart(c: Collected, pdu: seq<byte>, ptype: byte)
    requires !c.complete && Part(pdu, c.callId, ptype) && ptype != FAULT
    requires Opens(c, pdu, ptype)
    requires c.pdus < PDU_CAP && |c.payload| + |Stub(pdu, ptype)| <= STUB_CAP
    ensures Accept(c, pdu) == Step(Taken(c, pdu, ptype), None)
  {
  }

  /** A PDU that is taken without failing is one of the reply. */
  lemma AcceptedIsPart(c: Collected, pdu: seq<byte>)
    requires !c.complete && |pdu| >= HEADER_LEN && Read16(pdu, 8) == |pdu| && Accept(c, pdu).error.None?
    ensures Part(pdu, c.callId, pdu[2]) && pdu[2] != FAULT
    ensures Opens(c, pdu, pdu[2])
    ensures c.pdus < PDU_CAP && |c.payload| + |Stub(pdu, pdu[2])| <= STUB_CAP
    ensures Accept(c, pdu).state == Taken(c, pdu, pdu[2])
  {
  }

  /** The PDUs after the first complete what the first leaves. */
  lemma RestCompletes(c: Collected, pdus: seq<seq<byte>>, ptype: byte)
    requires Completes(c, pdus, ptype) && |pdus| > 1
    ensures Completes(Taken(c, pdus[0], ptype), pdus[1..], ptype)
    ensures Completed(Taken(c, pdus[0], ptype), pdus[1..], ptype) == Completed(c, pdus, ptype)
  {
    assert forall i :: 0 <= i < |pdus| - 1 ==> pdus[1..][i] == pdus[i + 1];
  }

  lemma OneCompletes(c: Collected, pdu: seq<byte>, ptype: byte)
    requires |pdu| >= HEADER_LEN
    ensures Flatten([pdu]) == pdu && Stubs([pdu], ptype) == Stub(pdu, ptype)
    ensures Completed(c, [pdu], ptype) == Taken(c, pdu, ptype).(complete := true)
  {
  }

  /** A PDU before those that complete what it leaves. */
  lemma MoreCompletes(c: Collected, pdu: seq<byte>, more: seq<seq<byte>>, ptype: byte)
    requires !c.complete && Part(pdu, c.callId, ptype)
    requires Opens(c, pdu, ptype)
    requires Completes(Taken(c, pdu, ptype), more, ptype)
    ensures Completes(c, [pdu] + more, ptype) && Flatten([pdu] + more) == pdu + Flatten(more)
  {
    var pdus := [pdu] + more;
    assert pdus[1..] == more;
    forall i | 0 <= i < |pdus|
      ensures Part(pdus[i], c.callId, ptype) && (Last(pdus[i][3]) <==> i == |pdus| - 1)
    {
      if i > 0 {
        assert pdus[i] == more[i - 1];
      }
    }
  }

  /** The PDUs of a reply start with its first, which is the last where it says so. */
  lemma FirstOf(c: Collected, pdus: seq<seq<byte>>, ptype: byte, tail: seq<byte>)
    requires Completes(c, pdus, ptype)
    ensures Next(Flatten(pdus) + tail) == Whole(pdus[0], Flatten(pdus[1..]) + tail)
    ensures Part(pdus[0], c.callId, ptype) && (Last(pdus[0][3]) <==> |pdus| == 1)
    ensures |Stub(pdus[0], ptype)| <= |Stubs(pdus, ptype)|
  {
    JoinIsAssociative(pdus[0], Flatten(pdus[1..]), tail);
    NextIsPart(pdus[0], Flatten(pdus[1..]) + tail, c.callId, ptype);
  }

  lemma FirstDrains(c: Collected, pdus: seq<seq<byte>>, ptype: byte, tail: seq<byte>)
    requires Completes(c, pdus, ptype)
    ensures Drain(State(c, Flatten(pdus) + tail)) == Drain(State(Taken(c, pdus[0], ptype), Flatten(pdus[1..]) + tail))
  {
    FirstOf(c, pdus, ptype, tail);
    AcceptPart(c, pdus[0], ptype);
  }

  /** The PDUs of a reply, taken one after another, complete it. */
  lemma {:induction false} CompletesIt(c: Collected, pdus: seq<seq<byte>>, ptype: byte, tail: seq<byte>)
    requires Completes(c, pdus, ptype)
    ensures Drain(State(c, Flatten(pdus) + tail)) == Drain(State(Completed(c, pdus, ptype), tail))
    decreases |pdus|
  {
    FirstDrains(c, pdus, ptype, tail);
    if |pdus| == 1 {
      assert pdus == [pdus[0]];
      OneCompletes(c, pdus[0], ptype);
      assert Flatten(pdus[1..]) + tail == tail;
    } else {
      RestCompletes(c, pdus, ptype);
      CompletesIt(Taken(c, pdus[0], ptype), pdus[1..], ptype, tail);
    }
  }

  /** What drains to a complete reply begins with one of its PDUs. */
  lemma FirstPart(s: State) returns (pdu: seq<byte>, ptype: byte, rest: seq<byte>)
    requires !s.collected.complete && Drain(s).error.None? && Drain(s).state.collected.complete
    ensures Part(pdu, s.collected.callId, ptype) && Opens(s.collected, pdu, ptype) && ptype != FAULT
    ensures s.collected.pdus < PDU_CAP && |s.collected.payload| + |Stub(pdu, ptype)| <= STUB_CAP
    ensures s.pending == pdu + rest && Drain(State(Taken(s.collected, pdu, ptype), rest)) == Drain(s)
  {
    pdu, rest := Next(s.pending).pdu, Next(s.pending).rest;
    ptype := pdu[2];
    AcceptedIsPart(s.collected, pdu);
  }

  lemma OnePartCompletes(c: Collected, pdu: seq<byte>, ptype: byte)
    requires !c.complete && Part(pdu, c.callId, ptype) && Opens(c, pdu, ptype) && ptype != FAULT
    requires c.pdus < PDU_CAP && |c.payload| + |Stub(pdu, ptype)| <= STUB_CAP && Last(pdu[3])
    ensures Completes(c, [pdu], ptype) && Flatten([pdu]) == pdu
  {
    OneCompletes(c, pdu, ptype);
  }

  /** What drained to a complete reply was the PDUs of one. */
  lemma {:induction false} CompletedBy(s: State) returns (pdus: seq<seq<byte>>, ptype: byte, tail: seq<byte>)
    requires !s.collected.complete && Drain(s).error.None? && Drain(s).state.collected.complete
    ensures s.pending == Flatten(pdus) + tail && Splits(tail)
    ensures Completes(s.collected, pdus, ptype)
    decreases |s.pending|
  {
    var pdu, rest;
    pdu, ptype, rest := FirstPart(s);
    var s' := State(Taken(s.collected, pdu, ptype), rest);
    if s'.collected.complete {
      PastLast(s');
      OnePartCompletes(s.collected, pdu, ptype);
      pdus, tail := [pdu], rest;
    } else {
      var more, ptype';
      more, ptype', tail := CompletedBy(s');
      MoreCompletes(s.collected, pdu, more, ptype);
      pdus := [pdu] + more;
      JoinIsAssociative(pdu, Flatten(more), tail);
    }
  }

  lemma JoinIsAssociative(a: seq<byte>, b: seq<byte>, c: seq<byte>)
    ensures a + (b + c) == a + b + c
  {
  }

  lemma {:induction false} FlattenMore(a: seq<seq<byte>>, b: seq<seq<byte>>)
    ensures Flatten(a + b) == Flatten(a) + Flatten(b)
  {
    if |a| == 0 {
      assert a + b == b;
    } else {
      assert (a + b)[1..] == a[1..] + b;
      FlattenMore(a[1..], b);
    }
  }

  /** The stream is the PDUs of the reply `answer` to call `callId`, and then
      whatever splits. */
  ghost predicate Carries(stream: seq<byte>, pdus: seq<seq<byte>>, tail: seq<byte>, callId: nat, answer: Answer) {
    && Completes(New(callId), pdus, answer.ptype)
    && answer.payload == Stubs(pdus, answer.ptype)
    && stream == Flatten(pdus) + tail && Splits(tail)
  }

  /** What is collected is what one drain of the whole stream leaves. */
  lemma CollectDrains(callId: nat, chunks: seq<seq<byte>>)
    ensures var drained := Drain(State(New(callId), Flatten(chunks)));
      Collect(callId, chunks) ==
        if drained.error.Some? then Err(drained.error.value) else Finish(drained.state.collected)
  {
    BoundariesDoNotMatter(State(New(callId), []), chunks);
    assert [] + Flatten(chunks) == Flatten(chunks);
  }

  /** A reply is collected, however it is cut. */
  lemma CollectsReply(callId: nat, chunks: seq<seq<byte>>, pdus: seq<seq<byte>>, tail: seq<byte>, answer: Answer)
    requires Carries(Flatten(chunks), pdus, tail, callId, answer)
    ensures Collect(callId, chunks) == Ok(answer)
  {
    CollectDrains(callId, chunks);
    CompletesIt(New(callId), pdus, answer.ptype, tail);
    PastLast(State(Completed(New(callId), pdus, answer.ptype), tail));
    assert [] + answer.payload == answer.payload;
  }

  /** What is collected is a reply. */
  lemma CollectedReply(callId: nat, chunks: seq<seq<byte>>, answer: Answer)
    returns (pdus: seq<seq<byte>>, tail: seq<byte>)
    requires Collect(callId, chunks) == Ok(answer)
    ensures Carries(Flatten(chunks), pdus, tail, callId, answer)
  {
    CollectDrains(callId, chunks);
    var ptype;
    pdus, ptype, tail := CompletedBy(State(New(callId), Flatten(chunks)));
    CompletesIt(New(callId), pdus, ptype, tail);
    PastLast(State(Completed(New(callId), pdus, ptype), tail));
    assert [] + Stubs(pdus, ptype) == Stubs(pdus, ptype);
  }

  /** The stream brings the reply `answer` to call `callId`. */
  ghost predicate Brings(stream: seq<byte>, callId: nat, answer: Answer) {
    exists pdus, tail :: Carries(stream, pdus, tail, callId, answer)
  }

  /** **The collector collects exactly replies**: it answers when, and only when,
      the bytes it was fed, however they were cut, are the PDUs of a reply to the
      call, whose payloads joined are the answer's, and then whatever splits. */
  lemma CollectsExactly(callId: nat, chunks: seq<seq<byte>>, answer: Answer)
    ensures Collect(callId, chunks) == Ok(answer) <==> Brings(Flatten(chunks), callId, answer)
  {
    if Collect(callId, chunks) == Ok(answer) {
      var pdus, tail := CollectedReply(callId, chunks, answer);
    }
    if Brings(Flatten(chunks), callId, answer) {
      var pdus, tail :| Carries(Flatten(chunks), pdus, tail, callId, answer);
      CollectsReply(callId, chunks, pdus, tail, answer);
    }
  }

  // ---- A stub, fragmented ----

  function Write16(n: nat): seq<byte>
    requires n <= 0xFFFF
  {
    [n % 0x100, n / 0x100]
  }

  function Write32(n: nat): seq<byte>
    requires n <= 0xFFFF_FFFF
  {
    Write16(n % 0x1_0000) + Write16(n / 0x1_0000)
  }

  /** One fragment's share of a stub, with what else the server sends along: flags,
      and a prologue of eight bytes that say nothing the collector heeds. */
  datatype Share = Share(flags: byte, prologue: seq<byte>, stub: seq<byte>) {
    predicate Fits() {
      |prologue| == RESPONSE_PROLOGUE && HEADER_LEN + RESPONSE_PROLOGUE + |stub| <= 0xFFFF
    }
  }

  /** Shares of one stub: the first opens the reply, and the last and no other
      closes it. The other bits of the flags may be anything. */
  ghost predicate Cut(shares: seq<Share>) {
    && |shares| > 0 && First(shares[0].flags)
    && (forall k :: 0 <= k < |shares| ==> shares[k].Fits() && (Last(shares[k].flags) <==> k == |shares| - 1))
  }

  /** A response PDU as a server writes it. */
  function Fragment(callId: nat, share: Share): seq<byte>
    requires callId <= 0xFFFF_FFFF && share.Fits()
  {
    [5, 0, RESPONSE, share.flags, 0x10, 0, 0, 0] + Write16(HEADER_LEN + RESPONSE_PROLOGUE + |share.stub|) + [0, 0]
    + Write32(callId) + share.prologue + share.stub
  }

  lemma FragmentIsPart(callId: nat, share: Share)
    requires callId <= 0xFFFF_FFFF && share.Fits()
    ensures var pdu := Fragment(callId, share);
      Part(pdu, callId, RESPONSE) && pdu[3] == share.flags && Stub(pdu, RESPONSE) == share.stub
  {
    var pdu := Fragment(callId, share);
    assert pdu[4..8] == [0x10, 0, 0, 0];
    assert Write32(callId) == pdu[12..16];
    assert Read32(pdu, 12) == callId by {
      assert pdu[12] == Write32(callId)[0] && pdu[13] == Write32(callId)[1];
      assert pdu[14] == Write32(callId)[2] && pdu[15] == Write32(callId)[3];
    }
  }

  /** The fragments of a stub's shares. */
  function Fragments(callId: nat, shares: seq<Share>): (pdus: seq<seq<byte>>)
    requires callId <= 0xFFFF_FFFF && forall k :: 0 <= k < |shares| ==> shares[k].Fits()
    ensures |pdus| == |shares|
    ensures forall k :: 0 <= k < |shares| ==> pdus[k] == Fragment(callId, shares[k])
  {
    if |shares| == 0 then [] else [Fragment(callId, shares[0])] + Fragments(callId, shares[1..])
  }

  /** The stub the shares are of. */
  function Joined(shares: seq<Share>): seq<byte> {
    if |shares| == 0 then [] else shares[0].stub + Joined(shares[1..])
  }

  lemma {:induction false} FragmentsCarryTheStub(callId: nat, shares: seq<Share>)
    requires callId <= 0xFFFF_FFFF && forall k :: 0 <= k < |shares| ==> shares[k].Fits()
    ensures Stubs(Fragments(callId, shares), RESPONSE) == Joined(shares)
    decreases |shares|
  {
    if |shares| > 0 {
      FragmentsCarryTheStub(callId, shares[1..]);
      FragmentIsPart(callId, shares[0]);
      assert Fragments(callId, shares)[1..] == Fragments(callId, shares[1..]);
    }
  }

  /** Fragments past the cap are refused, however little they carry. */
  lemma {:induction false} RefusedPastTheCap(c: Collected, pdus: seq<seq<byte>>, ptype: byte)
    requires !c.complete && ptype != FAULT && |pdus| > 0
    requires Parts(pdus, c.callId, ptype) && Opens(c, pdus[0], ptype)
    requires c.pdus <= PDU_CAP < c.pdus + |pdus| && |c.payload| + |Stubs(pdus, ptype)| <= STUB_CAP
    ensures Drain(State(c, Flatten(pdus))).error == Some(TooManyFragments)
    decreases |pdus|
  {
    var pdu, rest := pdus[0], pdus[1..];
    NextIsPart(pdu, Flatten(rest), c.callId, ptype);
    if c.pdus < PDU_CAP {
      AcceptPart(c, pdu, ptype);
      assert forall i :: 0 <= i < |rest| ==> rest[i] == pdus[i + 1];
      RefusedPastTheCap(Taken(c, pdu, ptype), rest, ptype);
    }
  }

  lemma FragmentsAreParts(callId: nat, shares: seq<Share>)
    requires callId <= 0xFFFF_FFFF && Cut(shares)
    ensures var pdus := Fragments(callId, shares);
      Parts(pdus, callId, RESPONSE) && Opens(New(callId), pdus[0], RESPONSE)
  {
    var pdus := Fragments(callId, shares);
    forall i | 0 <= i < |pdus|
      ensures Part(pdus[i], callId, RESPONSE) && pdus[i][3] == shares[i].flags
    {
      FragmentIsPart(callId, shares[i]);
    }
  }

  lemma FewFragmentsAreCollected(callId: nat, shares: seq<Share>, chunks: seq<seq<byte>>)
    requires callId <= 0xFFFF_FFFF && Cut(shares) && |Joined(shares)| <= STUB_CAP && |shares| <= PDU_CAP
    requires Flatten(chunks) == Flatten(Fragments(callId, shares))
    ensures Collect(callId, chunks) == Ok(Answer(RESPONSE, Joined(shares)))
  {
    var pdus := Fragments(callId, shares);
    FragmentsAreParts(callId, shares);
    FragmentsCarryTheStub(callId, shares);
    assert Flatten(pdus) + [] == Flatten(pdus);
    CollectsReply(callId, chunks, pdus, [], Answer(RESPONSE, Joined(shares)));
  }

  lemma ManyFragmentsAreRefused(callId: nat, shares: seq<Share>, chunks: seq<seq<byte>>)
    requires callId <= 0xFFFF_FFFF && Cut(shares) && |Joined(shares)| <= STUB_CAP && |shares| > PDU_CAP
    requires Flatten(chunks) == Flatten(Fragments(callId, shares))
    ensures Collect(callId, chunks) == Err(TooManyFragments)
  {
    var pdus := Fragments(callId, shares);
    FragmentsAreParts(callId, shares);
    FragmentsCarryTheStub(callId, shares);
    RefusedPastTheCap(New(callId), pdus, RESPONSE);
    CollectDrains(callId, chunks);
  }

  /** **Any stub is reassembled, within the cap on fragments**: cut a stub that
      fits into shares, send a fragment for each, with whatever prologues and
      whatever further flags, and feed them in whatever pieces. What is collected
      is the stub, exactly when the fragments are no more than the cap; a stub that
      fits and is cut finer than that is refused. */
  lemma FragmentedStubIsReassembled(callId: nat, shares: seq<Share>, chunks: seq<seq<byte>>)
    requires callId <= 0xFFFF_FFFF && Cut(shares) && |Joined(shares)| <= STUB_CAP
    requires Flatten(chunks) == Flatten(Fragments(callId, shares))
    ensures Collect(callId, chunks) ==
      if |shares| <= PDU_CAP then Ok(Answer(RESPONSE, Joined(shares))) else Err(TooManyFragments)
  {
    if |shares| <= PDU_CAP {
      FewFragmentsAreCollected(callId, shares, chunks);
    } else {
      ManyFragmentsAreRefused(callId, shares, chunks);
    }
  }

  lemma {:induction false} EmptySharesJoin(shares: seq<Share>)
    requires forall k :: 0 <= k < |shares| ==> shares[k].stub == []
    ensures Joined(shares) == []
    decreases |shares|
  {
    if |shares| > 0 {
      EmptySharesJoin(shares[1..]);
    }
  }

  /** `n` shares of nothing. */
  function EmptyShares(n: nat): (shares: seq<Share>)
    ensures |shares| == n && forall k :: 0 <= k < n ==> shares[k].stub == [] && shares[k].Fits()
    ensures forall k :: 0 <= k < n ==> shares[k].flags == (if k == 0 then 1 else 0) + (if k == n - 1 then 2 else 0)
  {
    seq(n, k => Share((if k == 0 then 1 else 0) + (if k == n - 1 then 2 else 0), [0, 0, 0, 0, 0, 0, 0, 0], []))
  }

  lemma EmptySharesAreCut(n: nat)
    requires n > 0
    ensures Cut(EmptyShares(n))
  {
  }

  /** A reply that fits and is refused for the number of its fragments: one more of
      them than the cap, none carrying anything. */
  lemma FittingReplyRefused()
    ensures var shares := EmptyShares(PDU_CAP + 1);
      && Cut(shares) && Joined(shares) == []
      && Collect(1, [Flatten(Fragments(1, shares))]) == Err(TooManyFragments)
  {
    var shares := EmptyShares(PDU_CAP + 1);
    EmptySharesAreCut(PDU_CAP + 1);
    EmptySharesJoin(shares);
    FeedingAtOnce(Flatten(Fragments(1, shares)));
    FragmentedStubIsReassembled(1, shares, [Flatten(Fragments(1, shares))]);
  }

  lemma FeedingAtOnce(stream: seq<byte>)
    ensures Flatten([stream]) == stream
  {
    assert Flatten([stream]) == stream + [];
  }

  /** Shares of the negotiated size keep a stub that fits within the cap on
      fragments. */
  lemma {:induction false} FullFragmentsAreFew(shares: seq<Share>)
    requires forall k :: 0 <= k < |shares| - 1 ==> |shares[k].stub| == MAX_FRAGMENT - HEADER_LEN - RESPONSE_PROLOGUE
    ensures |Joined(shares)| >= (|shares| - 1) * (MAX_FRAGMENT - HEADER_LEN - RESPONSE_PROLOGUE)
    ensures |Joined(shares)| <= STUB_CAP ==> |shares| <= PDU_CAP
  {
    if |shares| > 1 {
      FullFragmentsAreFew(shares[1..]);
    }
  }
}
