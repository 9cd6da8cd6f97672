/** What the pipe's read loop makes of its reads. It stops reading where the reply
    is complete, so what the collector promises of all that it is fed does not yet
    say what the loop answers. */
module PipeProofs {
  import opened Wrappers
  import opened Pdu
  import opened PduProofs
  import opened PduOutcomes

  // ---- Reads, one after another ----

  lemma {:induction false} FeedAllMore(s: State, a: seq<seq<byte>>, b: seq<seq<byte>>)
    ensures FeedAll(s, a + b) == if FeedAll(s, a).error.Some? then FeedAll(s, a) else FeedAll(FeedAll(s, a).state, b)
    decreases |a|
  {
    if |a| == 0 {
      assert a + b == b;
    } else {
      assert (a + b)[1..] == a[1..] + b;
      var fed := Feed(s, a[0]);
      if fed.error.None? {
        FeedAllMore(fed.state, a[1..], b);
      }
    }
  }

  /** A read that gave something left a collector that had not failed and was not
      complete. */
  ghost predicate ReadOn(s: State, given: seq<seq<byte>>, j: nat) {
    j <= |given| && FeedAll(s, given[..j]).error.None? && !FeedAll(s, given[..j]).state.collected.complete
  }

  /** Each of the first `k` reads was called for and gave something. */
  ghost predicate ReadsOn(s: State, given: seq<seq<byte>>, k: nat) {
    k <= |given| && forall j :: 0 <= j < k ==> |given[j]| > 0 && ReadOn(s, given, j)
  }

  lemma ReadsOnMore(s: State, given: seq<seq<byte>>, read: seq<byte>)
    ensures ReadsOn(s, given, |given|) ==> ReadsOn(s, given + [read], |given|)
    ensures (given + [read])[..|given|] == given
    ensures FeedAll(s, given + [read]) ==
      if FeedAll(s, given).error.Some? then FeedAll(s, given) else Feed(FeedAll(s, given).state, read)
  {
    FeedAllMore(s, given, [read]);
    forall j | 0 <= j < |given|
      ensures (given + [read])[..j] == given[..j]
    {
    }
    if ReadsOn(s, given, |given|) {
      forall j | 0 <= j < |given|
        ensures |(given + [read])[j]| > 0 && ReadOn(s, given + [read], j)
      {
        assert ReadOn(s, given, j);
      }
    }
  }

  /** The loop feeds the first `k` reads and stops there, for a reason. */
  ghost predicate StopsAt(s: State, given: seq<seq<byte>>, k: nat) {
    && ReadsOn(s, given, k)
    && Fill(s, given) == FeedAll(s, given[..k])
    && (k == |given| || |given[k]| == 0 || !ReadOn(s, given, k))
  }

  lemma {:induction false} FillFeeds(s: State, given: seq<seq<byte>>, k: nat)
    requires ReadsOn(s, given, k) && (k == |given| || |given[k]| == 0 || !ReadOn(s, given, k))
    ensures Fill(s, given) == FeedAll(s, given[..k])
    decreases k
  {
    if k > 0 {
      var fed, rest := Feed(s, given[0]), given[1..];
      assert ReadOn(s, given, 0);
      forall j | 0 < j <= |given|
        ensures FeedAll(s, given[..j]) == if fed.error.Some? then fed else FeedAll(fed.state, rest[..j - 1])
        ensures fed.error.None? ==> (ReadOn(s, given, j) <==> ReadOn(fed.state, rest, j - 1))
      {
        assert given[..j][1..] == rest[..j - 1];
      }
      if fed.error.None? {
        FillFeeds(fed.state, rest, k - 1);
      }
    }
  }

  lemma {:induction false} Stops(s: State, given: seq<seq<byte>>) returns (k: nat)
    ensures StopsAt(s, given, k)
    decreases |given|
  {
    if s.collected.complete || |given| == 0 || |given[0]| == 0 {
      k := 0;
    } else {
      var fed := Feed(s, given[0]);
      if fed.error.Some? {
        k := 1;
        assert given[..1][0] == given[0];
      } else {
        var rest := given[1..];
        var l := Stops(fed.state, rest);
        k := l + 1;
        forall j | 0 < j <= |given|
          ensures FeedAll(s, given[..j]) == FeedAll(fed.state, rest[..j - 1])
        {
          assert given[..j][1..] == rest[..j - 1];
        }
      }
    }
  }

  // ---- The reply is the one the reads bring ----

  /** Whatever splits splits as far as it goes, cut short. */
  lemma {:induction false} SplitsLess(bytes: seq<byte>, more: seq<byte>)
    requires Splits(bytes + more)
    ensures Splits(bytes)
    decreases |bytes|
  {
    NextMore(bytes, more);
    if Next(bytes).Whole? {
      SplitsLess(Next(bytes).rest, more);
    }
  }

  /** A stream brings one reply at most, and its PDUs end in one place. */
  lemma {:induction false} SameParts(c: Collected, pdus: seq<seq<byte>>, ptype: byte, tail: seq<byte>,
                                     pdus': seq<seq<byte>>, ptype': byte, tail': seq<byte>)
    requires Completes(c, pdus, ptype) && Completes(c, pdus', ptype')
    requires Flatten(pdus) + tail == Flatten(pdus') + tail'
    ensures pdus == pdus' && tail == tail' && ptype == ptype'
    decreases |pdus|
  {
    FirstOf(c, pdus, ptype, tail);
    FirstOf(c, pdus', ptype', tail');
    assert pdus == [pdus[0]] + pdus[1..] && pdus' == [pdus'[0]] + pdus'[1..];
    if |pdus| > 1 {
      RestCompletes(c, pdus, ptype);
      RestCompletes(c, pdus', ptype');
      SameParts(Taken(c, pdus[0], ptype), pdus[1..], ptype, tail, pdus'[1..], ptype', tail');
    }
  }

  /** The first `k` reads bring the reply `answer`, and the last of them was needed. */
  ghost predicate BringsIn(given: seq<seq<byte>>, k: nat, pdus: seq<seq<byte>>, tail: seq<byte>,
                           callId: nat, answer: Answer) {
    && 0 < k <= |given| && (forall i :: 0 <= i < k ==> |given[i]| > 0)
    && Carries(Flatten(given[..k]), pdus, tail, callId, answer)
    && |tail| < |given[k - 1]|
  }

  lemma LastRead(given: seq<seq<byte>>, k: nat)
    requires 0 < k <= |given|
    ensures Flatten(given[..k]) == Flatten(given[..k - 1]) + given[k - 1]
  {
    assert given[..k] == given[..k - 1] + [given[k - 1]];
    FlattenMore(given[..k - 1], [given[k - 1]]);
    assert Flatten([given[k - 1]]) == given[k - 1];
  }

  /** Reads that bring the reply without the last of them complete it before that. */
  lemma CompleteBefore(given: seq<seq<byte>>, k: nat, pdus: seq<seq<byte>>, tail: seq<byte>,
                       callId: nat, answer: Answer)
    requires 0 < k <= |given| && Carries(Flatten(given[..k]), pdus, tail, callId, answer)
    requires |tail| >= |given[k - 1]|
    ensures !ReadOn(State(New(callId), []), given, k - 1)
  {
    LastRead(given, k);
    var whole, before, cut := Flatten(pdus), Flatten(given[..k - 1]), |tail| - |given[k - 1]|;
    assert tail == tail[..cut] + tail[cut..];
    assert before == (before + given[k - 1])[..|before|] == (whole + tail)[..|before|] == whole + tail[..cut];
    SplitsLess(tail[..cut], tail[cut..]);
    CollectsReply(callId, given[..k - 1], pdus, tail[..cut], answer);
  }

  lemma FetchedIsBrought(callId: nat, given: seq<seq<byte>>, answer: Answer)
    returns (k: nat, pdus: seq<seq<byte>>, tail: seq<byte>)
    requires Fetch(callId, given) == Ok(answer)
    ensures BringsIn(given, k, pdus, tail, callId, answer)
  {
    k := Stops(State(New(callId), []), given);
    pdus, tail := CollectedReply(callId, given[..k], answer);
    if |tail| >= |given[k - 1]| {
      CompleteBefore(given, k, pdus, tail, callId, answer);
    }
  }

  /** Reads that complete a reply, with no failure, are its PDUs and a tail. */
  lemma CompletedReads(callId: nat, given: seq<seq<byte>>) returns (pdus: seq<seq<byte>>, ptype: byte, tail: seq<byte>)
    requires var fed := FeedAll(State(New(callId), []), given); fed.error.None? && fed.state.collected.complete
    ensures Flatten(given) == Flatten(pdus) + tail && Splits(tail) && Completes(New(callId), pdus, ptype)
  {
    BoundariesDoNotMatter(State(New(callId), []), given);
    assert [] + Flatten(given) == Flatten(given);
    pdus, ptype, tail := CompletedBy(State(New(callId), Flatten(given)));
  }

  /** What the reads from the `j`th to the `k`th bring follows what those before
      brought. */
  lemma LaterReads(given: seq<seq<byte>>, j: nat, k: nat) returns (more: seq<byte>)
    requires j < k <= |given|
    ensures Flatten(given[..k]) == Flatten(given[..j]) + more && |more| >= |given[k - 1]|
  {
    LastRead(given, k);
    assert given[..k - 1] == given[..j] + given[j..k - 1];
    FlattenMore(given[..j], given[j..k - 1]);
    more := Flatten(given[j..k - 1]) + given[k - 1];
  }

  /** No earlier read completes the reply. */
  lemma NotBefore(callId: nat, given: seq<seq<byte>>, answer: Answer, k: nat, pdus: seq<seq<byte>>, tail: seq<byte>,
                  j: nat)
    requires BringsIn(given, k, pdus, tail, callId, answer) && j < k
    ensures var fed := FeedAll(State(New(callId), []), given[..j]); fed.error.Some? || !fed.state.collected.complete
  {
    var fed := FeedAll(State(New(callId), []), given[..j]);
    if fed.error.None? && fed.state.collected.complete {
      var pdus', ptype', tail' := CompletedReads(callId, given[..j]);
      var more := LaterReads(given, j, k);
      JoinIsAssociative(Flatten(pdus'), tail', more);
      SameParts(New(callId), pdus, answer.ptype, tail, pdus', ptype', tail' + more);
    }
  }

  /** The loop reads on until the read that completes the reply. */
  lemma ReadsOnTo(callId: nat, given: seq<seq<byte>>, answer: Answer, k: nat, pdus: seq<seq<byte>>, tail: seq<byte>,
                  j: nat)
    requires BringsIn(given, k, pdus, tail, callId, answer) && j < k
    ensures ReadOn(State(New(callId), []), given, j)
  {
    CollectsReply(callId, given[..k], pdus, tail, answer);
    assert given[..k] == given[..j] + given[j..k];
    FeedAllMore(State(New(callId), []), given[..j], given[j..k]);
    NotBefore(callId, given, answer, k, pdus, tail, j);
  }

  /** **A reply is fetched exactly when the reads bring one**: the loop answers when,
      and only when, some first reads are the PDUs of a reply to the call and then
      whatever splits, and the last PDU ends within the last of them. What that read
      brings besides is looked at, and what later reads would bring is not. */
  lemma FetchesExactly(callId: nat, given: seq<seq<byte>>, answer: Answer)
    ensures Fetch(callId, given) == Ok(answer) <==>
      exists k: nat, pdus, tail :: BringsIn(given, k, pdus, tail, callId, answer)
  {
    if Fetch(callId, given) == Ok(answer) {
      var k, pdus, tail := FetchedIsBrought(callId, given, answer);
    }
    if k: nat, pdus, tail :| BringsIn(given, k, pdus, tail, callId, answer) {
      var l := Stops(State(New(callId), []), given);
      CollectsReply(callId, given[..k], pdus, tail, answer);
      if l < k {
        ReadsOnTo(callId, given, answer, k, pdus, tail, l);
      }
      assert l > k ==> ReadOn(State(New(callId), []), given, k);
    }
  }

  /** The loop reads up to here: each of the first `k` reads gave something, and what was
      read before it was unfinished; and then it stops, for one of the three reasons. */
  ghost predicate ReadsUpTo(callId: nat, given: seq<seq<byte>>, k: nat) {
    && k <= |given|
    && (forall j :: 0 <= j < k ==> |given[j]| > 0 && Unfinished(callId, Flatten(given[..j])))
    && (k == |given| || |given[k]| == 0 || !Unfinished(callId, Flatten(given[..k])))
  }

  lemma UnfinishedExactly(callId: nat, chunks: seq<seq<byte>>)
    ensures var fed := FeedAll(State(New(callId), []), chunks);
      Unfinished(callId, Flatten(chunks)) <==> fed.error.None? && !fed.state.collected.complete
  {
    BoundariesDoNotMatter(State(New(callId), []), chunks);
    assert [] + Flatten(chunks) == Flatten(chunks);
    DrainsUnfinished(callId, Flatten(chunks));
  }

  lemma ReadsUpToStop(callId: nat, given: seq<seq<byte>>, k: nat)
    requires ReadsUpTo(callId, given, k)
    ensures Fetch(callId, given) == Collect(callId, given[..k])
  {
    var s := State(New(callId), []);
    forall j | 0 <= j <= k
      ensures Unfinished(callId, Flatten(given[..j])) <==> ReadOn(s, given, j)
    {
      UnfinishedExactly(callId, given[..j]);
    }
    FillFeeds(s, given, k);
  }

  lemma SomewhereStops(callId: nat, given: seq<seq<byte>>) returns (k: nat)
    ensures ReadsUpTo(callId, given, k)
  {
    var s := State(New(callId), []);
    k := Stops(s, given);
    forall j | 0 <= j <= k
      ensures Unfinished(callId, Flatten(given[..j])) <==> ReadOn(s, given, j)
    {
      UnfinishedExactly(callId, given[..j]);
    }
  }

  lemma StopExplains(callId: nat, given: seq<seq<byte>>, k: nat, pdus: seq<seq<byte>>, rest: seq<byte>,
                     r: Result<Answer, PduError>)
    requires ReadsUpTo(callId, given, k) && Explains(Flatten(given[..k]), pdus, rest, callId, r)
    ensures Fetch(callId, given) == r
  {
    ReadsUpToStop(callId, given, k);
    ExplainsCollect(callId, given[..k], pdus, rest, r);
  }

  /** **What becomes of any reads**: the loop makes of them what the bytes of those up to
      where it stops say. */
  lemma FetchesAsExplained(callId: nat, given: seq<seq<byte>>, r: Result<Answer, PduError>)
    ensures Fetch(callId, given) == r <==>
      exists k: nat, pdus, rest ::
        ReadsUpTo(callId, given, k) && Explains(Flatten(given[..k]), pdus, rest, callId, r)
  {
    var k := SomewhereStops(callId, given);
    ReadsUpToStop(callId, given, k);
    CollectsAsExplained(callId, given[..k], r);
    if l: nat, pdus, rest :| ReadsUpTo(callId, given, l) && Explains(Flatten(given[..l]), pdus, rest, callId, r) {
      StopExplains(callId, given, l, pdus, rest, r);
    }
  }

  // ---- When it matters how the pipe is read ----

  /** The stream is a reply to the call, and then what does not split: somewhere
      behind the last PDU a length below the header's is declared. */
  ghost predicate Trails(stream: seq<byte>, pdus: seq<seq<byte>>, ptype: byte, tail: seq<byte>, callId: nat) {
    Completes(New(callId), pdus, ptype) && stream == Flatten(pdus) + tail && !Splits(tail)
  }

  ghost predicate Trailed(stream: seq<byte>, callId: nat) {
    exists pdus, ptype, tail :: Trails(stream, pdus, ptype, tail, callId)
  }

  /** The stream, as reads that each give something. */
  ghost predicate Reads(given: seq<seq<byte>>, stream: seq<byte>) {
    Flatten(given) == stream && forall i :: 0 <= i < |given| ==> |given[i]| > 0
  }

  /** What completes early is what the whole stream completes, where that splits. */
  lemma CompleteEarly(callId: nat, given: seq<seq<byte>>, k: nat)
    requires k <= |given| && !Trailed(Flatten(given), callId)
    requires var fed := FeedAll(State(New(callId), []), given[..k]); fed.error.None? && fed.state.collected.complete
    ensures Collect(callId, given) == Collect(callId, given[..k])
  {
    var s := State(New(callId), []);
    var pdus, ptype, tail := CompletedReads(callId, given[..k]);
    var more := Flatten(given[k..]);
    assert given == given[..k] + given[k..];
    FlattenMore(given[..k], given[k..]);
    JoinIsAssociative(Flatten(pdus), tail, more);
    assert Trails(Flatten(given), pdus, ptype, tail + more, callId) <==> !Splits(tail + more);
    DrainsTo(callId, given, pdus, ptype, tail + more);
    DrainsTo(callId, given[..k], pdus, ptype, tail);
  }

  lemma DrainsTo(callId: nat, given: seq<seq<byte>>, pdus: seq<seq<byte>>, ptype: byte, tail: seq<byte>)
    requires Completes(New(callId), pdus, ptype) && Flatten(given) == Flatten(pdus) + tail && Splits(tail)
    ensures Collect(callId, given) == Finish(Completed(New(callId), pdus, ptype))
  {
    CollectDrains(callId, given);
    CompletesIt(New(callId), pdus, ptype, tail);
    PastLast(State(Completed(New(callId), pdus, ptype), tail));
  }

  /** Where what follows the reply splits, the loop answers what the collector makes
      of the whole stream, though it may not have read all of it. */
  lemma FetchIsCollect(callId: nat, given: seq<seq<byte>>)
    requires Reads(given, Flatten(given)) && !Trailed(Flatten(given), callId)
    ensures Fetch(callId, given) == Collect(callId, given)
  {
    var s := State(New(callId), []);
    var k := Stops(s, given);
    assert given == given[..k] + given[k..];
    FeedAllMore(s, given[..k], given[k..]);
    if k < |given| && FeedAll(s, given[..k]).error.None? {
      CompleteEarly(callId, given, k);
    }
  }

  /** The first read of a collector that is not complete. */
  lemma FirstRead(s: State, read: seq<byte>, more: seq<seq<byte>>)
    requires !s.collected.complete && |read| > 0 && |s.pending| == 0
    ensures var fed := Drain(State(s.collected, read));
      Fill(s, [read] + more) == if fed.error.Some? then fed else Fill(fed.state, more)
  {
    assert s.pending + read == read;
    assert ([read] + more)[1..] == more;
  }

  /** A reply with something behind it that does not split, read at once. */
  lemma ReadAtOnceFails(callId: nat, pdus: seq<seq<byte>>, ptype: byte, tail: seq<byte>)
    requires Completes(New(callId), pdus, ptype) && !Splits(tail)
    ensures var r := Fetch(callId, [Flatten(pdus) + tail]);
      && r.Err? && r.error.FragmentLengthTooSmall?
      && (Next(tail).Short? ==> r.error.length == Next(tail).length)
  {
    assert |Flatten(pdus)| >= |pdus[0]|;
    assert [Flatten(pdus) + tail] + [] == [Flatten(pdus) + tail];
    FirstRead(State(New(callId), []), Flatten(pdus) + tail, []);
    CompletesIt(New(callId), pdus, ptype, tail);
    PastLast(State(Completed(New(callId), pdus, ptype), tail));
  }

  /** A reply, read whole, with whatever is left unread behind it. */
  lemma ReadUpToAnswers(callId: nat, pdus: seq<seq<byte>>, ptype: byte, tail: seq<byte>)
    requires Completes(New(callId), pdus, ptype)
    ensures Fetch(callId, [Flatten(pdus), tail]) == Ok(Answer(ptype, Stubs(pdus, ptype)))
  {
    assert |Flatten(pdus)| >= |pdus[0]|;
    assert [Flatten(pdus)] + [tail] == [Flatten(pdus), tail];
    FirstRead(State(New(callId), []), Flatten(pdus), [tail]);
    assert Flatten(pdus) + [] == Flatten(pdus);
    CompletesIt(New(callId), pdus, ptype, []);
    PastLast(State(Completed(New(callId), pdus, ptype), []));
    assert [] + Stubs(pdus, ptype) == Stubs(pdus, ptype);
  }

  lemma TwoReads(a: seq<byte>, b: seq<byte>)
    ensures Flatten([a, b]) == a + b
  {
    assert [a, b] == [a] + [b];
    FlattenMore([a], [b]);
    FeedingAtOnce(a);
    FeedingAtOnce(b);
  }

  /** A stream in which what follows the reply does not split is answered when it
      is read up to there, and fails when it is read at once. */
  lemma TrailedBothWays(callId: nat, stream: seq<byte>, pdus: seq<seq<byte>>, ptype: byte, tail: seq<byte>)
    requires Trails(stream, pdus, ptype, tail, callId)
    ensures Reads([stream], stream) && Reads([Flatten(pdus), tail], stream)
    ensures Fetch(callId, [Flatten(pdus), tail]) != Fetch(callId, [stream])
  {
    FeedingAtOnce(stream);
    TwoReads(Flatten(pdus), tail);
    assert |Flatten(pdus)| >= |pdus[0]| && |tail| > 0;
    ReadUpToAnswers(callId, pdus, ptype, tail);
    ReadAtOnceFails(callId, pdus, ptype, tail);
  }

  /** A fragment that is a reply by itself. */
  lemma OneFragment(callId: nat, share: Share)
    requires callId <= 0xFFFF_FFFF && share.Fits() && |share.stub| <= STUB_CAP
    requires First(share.flags) && Last(share.flags)
    ensures var pdu := Fragment(callId, share);
      && Completes(New(callId), [pdu], RESPONSE) && Flatten([pdu]) == pdu && Stubs([pdu], RESPONSE) == share.stub
  {
    var pdu := Fragment(callId, share);
    FragmentIsPart(callId, share);
    OnePartCompletes(New(callId), pdu, RESPONSE);
    OneCompletes(New(callId), pdu, RESPONSE);
  }

  /** A reply of one empty fragment and sixteen zero bytes behind it: read apart, it
      is answered; read together, it fails. */
  lemma TrailingZeros()
    ensures var pdu, zeros := Fragment(1, Share(3, [0, 0, 0, 0, 0, 0, 0, 0], [])), seq(16, _ => 0);
      && Fetch(1, [pdu, zeros]) == Ok(Answer(RESPONSE, []))
      && Fetch(1, [pdu + zeros]) == Err(FragmentLengthTooSmall(0))
  {
    var share := Share(3, [0, 0, 0, 0, 0, 0, 0, 0], []);
    var zeros: seq<byte> := seq(16, _ => 0);
    OneFragment(1, share);
    ReadUpToAnswers(1, [Fragment(1, share)], RESPONSE, zeros);
    assert Next(zeros) == Short(0);
    ReadAtOnceFails(1, [Fragment(1, share)], RESPONSE, zeros);
  }

  /** **When it does not matter how the pipe is read**: every way of reading a stream
      answers alike if, and only if, the stream is not a reply with something behind
      it that does not split. */
  lemma ReadsAlikeExactly(callId: nat, stream: seq<byte>)
    ensures (forall a, b :: Reads(a, stream) && Reads(b, stream) ==> Fetch(callId, a) == Fetch(callId, b)) <==>
      !Trailed(stream, callId)
  {
    if Trailed(stream, callId) {
      var pdus, ptype, tail :| Trails(stream, pdus, ptype, tail, callId);
      TrailedBothWays(callId, stream, pdus, ptype, tail);
    } else {
      forall a, b | Reads(a, stream) && Reads(b, stream)
        ensures Fetch(callId, a) == Fetch(callId, b)
      {
        FetchIsCollect(callId, a);
        FetchIsCollect(callId, b);
        CollectDrains(callId, a);
        CollectDrains(callId, b);
      }
    }
  }

  lemma TrailedFails(callId: nat, given: seq<seq<byte>>)
    requires Trailed(Flatten(given), callId)
    ensures Collect(callId, given).Err? && Collect(callId, given).error.FragmentLengthTooSmall?
  {
    var pdus, ptype, tail :| Trails(Flatten(given), pdus, ptype, tail, callId);
    CollectDrains(callId, given);
    CompletesIt(New(callId), pdus, ptype, tail);
    PastLast(State(Completed(New(callId), pdus, ptype), tail));
  }

  /** **Any stub is fetched, within the cap on fragments**: what holds of the
      collector fed the fragments of a stub holds of the loop that reads them. */
  lemma FragmentedStubIsFetched(callId: nat, shares: seq<Share>, given: seq<seq<byte>>)
    requires callId <= 0xFFFF_FFFF && Cut(shares) && |Joined(shares)| <= STUB_CAP
    requires Reads(given, Flatten(Fragments(callId, shares)))
    ensures Fetch(callId, given) ==
      if |shares| <= PDU_CAP then Ok(Answer(RESPONSE, Joined(shares))) else Err(TooManyFragments)
  {
    FragmentedStubIsReassembled(callId, shares, given);
    if Trailed(Flatten(given), callId) {
      TrailedFails(callId, given);
    } else {
      FetchIsCollect(callId, given);
    }
  }

  // ---- The loop ends ----

  /** A collector that has been fed without failing. */
  ghost predicate Sound(s: State) {
    s.collected.pdus <= PDU_CAP && Next(s.pending).Starved?
  }

  /** The bytes a collector may be fed yet, less what it keeps pending. */
  function Room(s: State): int {
    (PDU_CAP - s.collected.pdus) * 0xFFFF - |s.pending|
  }

  lemma AcceptTakesRoom(c: Collected, pdu: seq<byte>)
    requires Accept(c, pdu).error.None? && !Accept(c, pdu).state.complete
    ensures !c.complete && Accept(c, pdu).state.pdus == c.pdus + 1 <= PDU_CAP
  {
  }

  lemma {:induction false} DrainTakesRoom(s: State)
    requires s.collected.pdus <= PDU_CAP && Drain(s).error.None?
    ensures Sound(Drain(s).state)
    ensures !Drain(s).state.collected.complete ==> Room(Drain(s).state) <= Room(s)
    decreases |s.pending|
  {
    if Next(s.pending).Whole? {
      var step := Accept(s.collected, Next(s.pending).pdu);
      var s' := State(step.state, Next(s.pending).rest);
      DrainTakesRoom(s');
      if step.state.complete {
        PastLast(s');
      } else {
        AcceptTakesRoom(s.collected, Next(s.pending).pdu);
      }
    }
  }

  /** Each read takes room, unless it fails or completes the reply. */
  lemma FeedTakesRoom(s: State, read: seq<byte>)
    requires Sound(s) && Feed(s, read).error.None?
    ensures Sound(Feed(s, read).state)
    ensures !Feed(s, read).state.collected.complete ==> Room(Feed(s, read).state) <= Room(s) - |read|
  {
    DrainTakesRoom(s.(pending := s.pending + read));
  }

  /** **No server keeps the loop reading**: however it cuts what it sends, and
      whatever that is, while the loop reads on it has been given fewer bytes than
      the cap on fragments allows, and one fragment more. */
  lemma {:induction false} ReadingIsBounded(callId: nat, given: seq<seq<byte>>)
    requires ReadOn(State(New(callId), []), given, |given|)
    ensures |Flatten(given)| < (PDU_CAP + 1) * 0xFFFF
  {
    var s := State(New(callId), []);
    assert given[..|given|] == given;
    BoundariesDoNotMatter(s, given);
    FeedTakesRoom(s, Flatten(given));
  }
}
