/** Everything a collector can make of a stream, told from the bytes alone: the PDUs
    that are the reply's, one after another, and the first thing after them that is
    not. */
module PduOutcomes {
  import opened Wrappers
  import opened Pdu
  import opened PduProofs

  /** The number that bytes spell, least significant first. */
  function Little(bytes: seq<byte>): nat {
    if |bytes| == 0 then 0 else bytes[0] + 0x100 * Little(bytes[1..])
  }

  lemma LittleReads(bytes: seq<byte>, at: nat)
    requires at + 2 <= |bytes|
    ensures Read16(bytes, at) == Little(bytes[at..at + 2])
    ensures at + 4 <= |bytes| ==> Read32(bytes, at) == Little(bytes[at..at + 4])
  {
    assert bytes[at..at + 2] == [bytes[at], bytes[at + 1]];
    LittleOfTwo(bytes[at], bytes[at + 1]);
    if at + 4 <= |bytes| {
      var two := [bytes[at + 2], bytes[at + 3]];
      LittleOfTwo(bytes[at + 2], bytes[at + 3]);
      assert bytes[at..at + 4][1..] == [bytes[at + 1]] + two && ([bytes[at + 1]] + two)[1..] == two;
    }
  }

  lemma LittleOfTwo(a: byte, b: byte)
    ensures Little([a, b]) == a + 0x100 * b
  {
    var one := [b];
    assert one[1..] == [] && Little(one) == b;
    assert [a, b][1..] == one;
  }

  /** Where a PDU's share of the payload begins: a response says more of itself first. */
  function BodyAt(pdu: seq<byte>): nat
    requires |pdu| >= 16
  {
    if pdu[2] == 2 then 24 else 16
  }

  /** The shares of the PDUs, joined. */
  function Bodies(pdus: seq<seq<byte>>): seq<byte> {
    if |pdus| == 0 then []
    else
      var pdu := pdus[|pdus| - 1];
      Bodies(pdus[..|pdus| - 1]) + if |pdu| >= 16 && |pdu| >= BodyAt(pdu) then pdu[BodyAt(pdu)..] else []
  }

  /** The PDU says it is the reply's last. */
  predicate Closes(pdu: seq<byte>) { |pdu| >= 16 && pdu[3] / 2 % 2 == 1 }

  /** What a PDU fails the reply to `callId` with, after the PDUs before it: it is not of
      the protocol, or not of the call; it is a fault; it does not open a reply, where
      it is the first; it is of another type than the first; it is one too many; it is
      too short for what it is; or with it the payload is too long. */
  function Refusal(callId: nat, before: seq<seq<byte>>, pdu: seq<byte>): Option<PduError>
    requires |pdu| >= 16 && (|before| > 0 ==> |before[0]| >= 16)
  {
    if pdu[0] != 5 || pdu[1] != 0 then Some(Version(pdu[0], pdu[1]))
    else if pdu[4..8] != [16, 0, 0, 0] then Some(DataRepresentation(pdu[4..8]))
    else if Little(pdu[12..16]) != callId then Some(CallId(callId, Little(pdu[12..16])))
    else if pdu[2] == 3 then Some(Fault(if |pdu| < 28 then 0 else Little(pdu[24..28])))
    else if |before| == 0 && pdu[3] % 2 == 0 then Some(NotFirstFragment)
    else if |before| > 0 && pdu[2] != before[0][2] then Some(UnexpectedType(before[0][2], pdu[2]))
    else if |before| >= 1_972 then Some(TooManyFragments)
    else if |pdu| < BodyAt(pdu) then Some(Truncated(BodyAt(pdu), |pdu|))
    else if |Bodies(before)| + |pdu| - BodyAt(pdu) > 8_388_608 then Some(StubTooLarge)
    else None
  }

  /** PDUs of one reply so far: each is as long as it says and is refused by nothing, and
      none but the last says it is the last. */
  ghost predicate Good(callId: nat, pdus: seq<seq<byte>>) {
    forall i :: 0 <= i < |pdus| ==>
      && |pdus[i]| >= 16 && |pdus[0]| >= 16 && Little(pdus[i][8..10]) == |pdus[i]|
      && Refusal(callId, pdus[..i], pdus[i]).None?
      && (Closes(pdus[i]) ==> i == |pdus| - 1)
  }

  predicate Closed(pdus: seq<seq<byte>>) { |pdus| > 0 && Closes(pdus[|pdus| - 1]) }

  /** The first length below a header's that what follows a reply declares. */
  function ShortIn(bytes: seq<byte>): Option<nat>
    decreases |bytes|
  {
    if |bytes| < 16 then None
    else
      var length := Little(bytes[8..10]);
      if length < 16 then Some(length)
      else if |bytes| < length then None
      else ShortIn(bytes[length..])
  }

  /** The stream is the PDUs `pdus` of a reply to `callId`, and then `rest`, which is what
      becomes of the reply: with the last PDU among them it is answered, unless what
      follows declares a length it cannot have; and else it is refused for that, refused
      with the next PDU, or never finished. */
  ghost predicate Explains(stream: seq<byte>, pdus: seq<seq<byte>>, rest: seq<byte>, callId: nat,
                           r: Result<Answer, PduError>) {
    && stream == Flatten(pdus) + rest && Good(callId, pdus)
    && if Closed(pdus) then r == Replied(pdus, rest) else EndsIn(callId, pdus, rest, r)
  }

  /** What becomes of a reply that is whole. */
  function Replied(pdus: seq<seq<byte>>, rest: seq<byte>): Result<Answer, PduError>
    requires |pdus| > 0 && |pdus[0]| >= 16
  {
    if ShortIn(rest).Some? then Err(FragmentLengthTooSmall(ShortIn(rest).value))
    else Ok(Answer(pdus[0][2], Bodies(pdus)))
  }

  /** What becomes of one that is not. */
  predicate EndsIn(callId: nat, pdus: seq<seq<byte>>, rest: seq<byte>, r: Result<Answer, PduError>)
    requires |pdus| > 0 ==> |pdus[0]| >= 16
  {
    if |rest| < 16 then r == Err(NoLastFragment(|pdus|))
    else
      var length := Little(rest[8..10]);
      if length < 16 then r == Err(FragmentLengthTooSmall(length))
      else if |rest| < length then r == Err(NoLastFragment(|pdus|))
      else
        var refusal := Refusal(callId, pdus, rest[..length]);
        refusal.Some? && r == Err(refusal.value)
  }

  // ---- The collector, beside the PDUs it has taken ----

  /** What has been collected of the PDUs. */
  function Of(callId: nat, pdus: seq<seq<byte>>): Collected
    requires |pdus| > 0 ==> |pdus[0]| >= 16
  {
    Collected(callId, if |pdus| > 0 then Some(pdus[0][2]) else None, Bodies(pdus), |pdus|, Closed(pdus))
  }

  /** The header of a PDU, told from its bytes. */
  lemma HeaderIs(pdu: seq<byte>)
    requires |pdu| >= 16
    ensures Parse(pdu) ==
      if pdu[0] != 5 || pdu[1] != 0 then Err(Version(pdu[0], pdu[1]))
      else if pdu[4..8] != [16, 0, 0, 0] then Err(DataRepresentation(pdu[4..8]))
      else Ok(Header(pdu[2], pdu[3], Little(pdu[12..16])))
    ensures FaultStatus(pdu) == if |pdu| < 28 then 0 else Little(pdu[24..28])
  {
    LittleReads(pdu, 12);
    if |pdu| >= 28 {
      LittleReads(pdu, 24);
    }
  }

  lemma AcceptRefuses(callId: nat, pdus: seq<seq<byte>>, pdu: seq<byte>)
    requires |pdu| >= 16 && (|pdus| > 0 ==> |pdus[0]| >= 16) && !Closed(pdus)
    ensures Accept(Of(callId, pdus), pdu).error == Refusal(callId, pdus, pdu)
  {
    HeaderIs(pdu);
  }

  lemma AcceptTakes(callId: nat, pdus: seq<seq<byte>>, pdu: seq<byte>)
    requires |pdu| >= 16 && (|pdus| > 0 ==> |pdus[0]| >= 16) && !Closed(pdus) && Refusal(callId, pdus, pdu).None?
    ensures Accept(Of(callId, pdus), pdu).state == Of(callId, pdus + [pdu])
  {
    HeaderIs(pdu);
    OfMore(callId, pdus, pdu);
  }

  lemma OfMore(callId: nat, pdus: seq<seq<byte>>, pdu: seq<byte>)
    requires |pdu| >= 16 && |pdu| >= BodyAt(pdu) && (|pdus| > 0 ==> |pdus[0]| >= 16)
    ensures Of(callId, pdus + [pdu]) ==
      Collected(callId, Some(if |pdus| > 0 then pdus[0][2] else pdu[2]), Bodies(pdus) + pdu[BodyAt(pdu)..],
                |pdus| + 1, Closes(pdu))
  {
    assert (pdus + [pdu])[..|pdus|] == pdus;
  }

  lemma GoodMore(callId: nat, pdus: seq<seq<byte>>, pdu: seq<byte>)
    requires Good(callId, pdus) && !Closed(pdus) && |pdu| >= 16 && Little(pdu[8..10]) == |pdu|
    requires Refusal(callId, pdus, pdu).None?
    ensures Good(callId, pdus + [pdu])
  {
    var more := pdus + [pdu];
    forall i | 0 <= i < |more|
      ensures |more[i]| >= 16 && |more[0]| >= 16 && Little(more[i][8..10]) == |more[i]|
      ensures Refusal(callId, more[..i], more[i]).None? && (Closes(more[i]) ==> i == |more| - 1)
    {
      assert more[..i] == pdus[..i];
      assert i < |pdus| ==> more[i] == pdus[i];
    }
  }

  lemma GoodLess(callId: nat, pdus: seq<seq<byte>>)
    requires Good(callId, pdus) && |pdus| > 0
    ensures Good(callId, pdus[..|pdus| - 1]) && !Closed(pdus[..|pdus| - 1])
  {
    var less := pdus[..|pdus| - 1];
    forall i | 0 <= i < |less|
      ensures |less[i]| >= 16 && |less[0]| >= 16 && Little(less[i][8..10]) == |less[i]|
      ensures Refusal(callId, less[..i], less[i]).None? && !Closes(less[i])
    {
      assert less[..i] == pdus[..i];
    }
  }

  /** The next PDU of what is pending, told from its bytes. */
  lemma NextIs(pending: seq<byte>)
    ensures |pending| < 16 ==> Next(pending) == Starved
    ensures |pending| >= 16 ==>
      var length := Little(pending[8..10]);
      Next(pending) ==
        if length < 16 then Short(length)
        else if |pending| < length then Starved
        else Whole(pending[..length], pending[length..])
  {
    if |pending| >= 16 {
      LittleReads(pending, 8);
    }
  }

  /** One PDU more, taken. */
  lemma DrainTakes(callId: nat, pdus: seq<seq<byte>>, pdu: seq<byte>, rest: seq<byte>)
    requires Good(callId, pdus + [pdu])
    ensures Good(callId, pdus)
    ensures Drain(State(Of(callId, pdus), pdu + rest)) == Drain(State(Of(callId, pdus + [pdu]), rest))
  {
    var more, pending := pdus + [pdu], pdu + rest;
    assert more[..|pdus|] == pdus && more[|pdus|] == pdu;
    GoodLess(callId, more);
    assert pending[8..10] == pdu[8..10] && pending[..|pdu|] == pdu && pending[|pdu|..] == rest;
    NextIs(pending);
    AcceptRefuses(callId, pdus, pdu);
    AcceptTakes(callId, pdus, pdu);
  }

  lemma FlattenLast(pdus: seq<seq<byte>>, rest: seq<byte>)
    requires |pdus| > 0
    ensures Flatten(pdus) + rest == Flatten(pdus[..|pdus| - 1]) + (pdus[|pdus| - 1] + rest)
  {
    var less, pdu := pdus[..|pdus| - 1], pdus[|pdus| - 1];
    assert pdus == less + [pdu];
    FlattenMore(less, [pdu]);
    assert Flatten([pdu]) == pdu;
    JoinIsAssociative(Flatten(less), pdu, rest);
  }

  lemma {:induction false} DrainTakesAll(callId: nat, pdus: seq<seq<byte>>, rest: seq<byte>)
    requires Good(callId, pdus)
    ensures Drain(State(New(callId), Flatten(pdus) + rest)) == Drain(State(Of(callId, pdus), rest))
    decreases |pdus|
  {
    if |pdus| == 0 {
      assert Flatten(pdus) + rest == rest;
    } else {
      var n := |pdus| - 1;
      var less, pdu := pdus[..n], pdus[n];
      GoodLess(callId, pdus);
      FlattenLast(pdus, rest);
      DrainTakesAll(callId, less, pdu + rest);
      assert pdus == less + [pdu];
      DrainTakes(callId, less, pdu, rest);
    }
  }

  /** Past the last PDU, only a length can fail. */
  lemma {:induction false} PastLastIs(s: State)
    requires s.collected.complete
    ensures var drained := Drain(s);
      && drained.state.collected == s.collected
      && drained.error ==
           if ShortIn(s.pending).None? then None else Some(FragmentLengthTooSmall(ShortIn(s.pending).value))
    decreases |s.pending|
  {
    NextIs(s.pending);
    if Next(s.pending).Whole? {
      PastLastIs(State(s.collected, Next(s.pending).rest));
    }
  }

  /** What a collector made of a stream is this. */
  predicate Comes(drained: Outcome, r: Result<Answer, PduError>) {
    && r == (if drained.error.Some? then Err(drained.error.value) else Finish(drained.state.collected))
    && (drained.error.None? && !drained.state.collected.complete <==> r.Err? && r.error.NoLastFragment?)
  }

  lemma WholeComes(callId: nat, pdus: seq<seq<byte>>, rest: seq<byte>)
    requires Closed(pdus) && |pdus[0]| >= 16
    ensures Comes(Drain(State(Of(callId, pdus), rest)), Replied(pdus, rest))
  {
    PastLastIs(State(Of(callId, pdus), rest));
  }

  lemma EndComes(callId: nat, pdus: seq<seq<byte>>, rest: seq<byte>, r: Result<Answer, PduError>)
    requires Good(callId, pdus) && !Closed(pdus) && EndsIn(callId, pdus, rest, r)
    ensures Comes(Drain(State(Of(callId, pdus), rest)), r)
  {
    NextIs(rest);
    if Next(rest).Whole? {
      AcceptRefuses(callId, pdus, Next(rest).pdu);
    }
  }

  /** What explains an outcome brings it about. */
  lemma ExplainsDrain(callId: nat, stream: seq<byte>, pdus: seq<seq<byte>>, rest: seq<byte>,
                      r: Result<Answer, PduError>)
    requires Explains(stream, pdus, rest, callId, r)
    ensures Comes(Drain(State(New(callId), stream)), r)
  {
    DrainTakesAll(callId, pdus, rest);
    if Closed(pdus) {
      WholeComes(callId, pdus, rest);
    } else {
      EndComes(callId, pdus, rest, r);
    }
  }

  /** The PDU that `rest` begins with is one more of the reply. */
  lemma OneMore(callId: nat, pdus: seq<seq<byte>>, rest: seq<byte>)
    requires Good(callId, pdus) && !Closed(pdus) && |rest| >= 16 && 16 <= Little(rest[8..10]) <= |rest|
    requires Refusal(callId, pdus, rest[..Little(rest[8..10])]).None?
    ensures var length := Little(rest[8..10]);
      var more := pdus + [rest[..length]];
      Good(callId, more) && Flatten(pdus) + rest == Flatten(more) + rest[length..]
  {
    var length := Little(rest[8..10]);
    var pdu := rest[..length];
    assert pdu[8..10] == rest[8..10];
    GoodMore(callId, pdus, pdu);
    FlattenMore(pdus, [pdu]);
    assert Flatten([pdu]) == pdu;
    JoinIsAssociative(Flatten(pdus), pdu, rest[length..]);
    assert rest == pdu + rest[length..];
  }

  /** Every stream has something that explains what becomes of it. */
  lemma {:induction false} SomethingExplains(callId: nat, stream: seq<byte>, pdus: seq<seq<byte>>, rest: seq<byte>)
    returns (all: seq<seq<byte>>, rest': seq<byte>, r: Result<Answer, PduError>)
    requires Good(callId, pdus) && stream == Flatten(pdus) + rest
    ensures Explains(stream, all, rest', callId, r)
    decreases |rest|
  {
    all, rest' := pdus, rest;
    if Closed(pdus) {
      r := Replied(pdus, rest);
    } else if |rest| < 16 || Little(rest[8..10]) > |rest| {
      r := Err(NoLastFragment(|pdus|));
    } else if Little(rest[8..10]) < 16 {
      r := Err(FragmentLengthTooSmall(Little(rest[8..10])));
    } else {
      var length := Little(rest[8..10]);
      var pdu := rest[..length];
      if Refusal(callId, pdus, pdu).Some? {
        r := Err(Refusal(callId, pdus, pdu).value);
      } else {
        OneMore(callId, pdus, rest);
        all, rest', r := SomethingExplains(callId, stream, pdus + [pdu], rest[length..]);
      }
    }
  }

  /** The stream is the beginning of a reply, so far, and not the end of it. */
  ghost predicate Unfinished(callId: nat, stream: seq<byte>) {
    exists pdus, rest :: Explains(stream, pdus, rest, callId, Err(NoLastFragment(|pdus|)))
  }

  lemma NeverFinished(stream: seq<byte>, pdus: seq<seq<byte>>, rest: seq<byte>, callId: nat,
                      r: Result<Answer, PduError>)
    requires Explains(stream, pdus, rest, callId, r)
    ensures r.Err? && r.error.NoLastFragment? ==> r == Err(NoLastFragment(|pdus|)) && Unfinished(callId, stream)
  {
  }

  lemma DrainsUnfinished(callId: nat, stream: seq<byte>)
    ensures var drained := Drain(State(New(callId), stream));
      Unfinished(callId, stream) <==> drained.error.None? && !drained.state.collected.complete
  {
    if pdus, rest :| Explains(stream, pdus, rest, callId, Err(NoLastFragment(|pdus|))) {
      ExplainsDrain(callId, stream, pdus, rest, Err(NoLastFragment(|pdus|)));
    }
    assert stream == Flatten([]) + stream;
    var pdus, rest, r := SomethingExplains(callId, stream, [], stream);
    ExplainsDrain(callId, stream, pdus, rest, r);
    NeverFinished(stream, pdus, rest, callId, r);
  }

  lemma ExplainsCollect(callId: nat, chunks: seq<seq<byte>>, pdus: seq<seq<byte>>, rest: seq<byte>,
                        r: Result<Answer, PduError>)
    requires Explains(Flatten(chunks), pdus, rest, callId, r)
    ensures Collect(callId, chunks) == r
  {
    CollectDrains(callId, chunks);
    ExplainsDrain(callId, Flatten(chunks), pdus, rest, r);
  }

  /** **What becomes of any stream**: fed however it is cut, a collector makes of it what
      its bytes say, the answer or the one failure, and nothing else. */
  lemma CollectsAsExplained(callId: nat, chunks: seq<seq<byte>>, r: Result<Answer, PduError>)
    ensures Collect(callId, chunks) == r <==> exists pdus, rest :: Explains(Flatten(chunks), pdus, rest, callId, r)
  {
    if pdus, rest :| Explains(Flatten(chunks), pdus, rest, callId, r) {
      ExplainsCollect(callId, chunks, pdus, rest, r);
    }
    assert Flatten(chunks) == Flatten([]) + Flatten(chunks);
    var pdus, rest, r' := SomethingExplains(callId, Flatten(chunks), [], Flatten(chunks));
    ExplainsCollect(callId, chunks, pdus, rest, r');
  }
}
