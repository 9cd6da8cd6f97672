/** What the reader accepts is nothing but what it should: all that it reads is a tree,
    and a `responseToken` it finds is where one belongs. */
module SpnegoExact {
  import opened Wrappers
  import opened Spnego
  import opened SpnegoProofs

  /** The bytes begin with the tree, which a reader at this depth finds the end of. */
  ghost predicate Begins(bytes: seq<byte>, t: Tree, rest: seq<byte>, depth: nat) {
    bytes == Encode(t) + rest && Good(t) && depth + Levels(t) <= 16
  }

  // ---- Whatever is read is a tree ----

  lemma LengthIsDeclared(bytes: seq<byte>)
    requires |bytes| >= 2 && bytes[1] != 0x80 && ReadLength(bytes).Ok?
    ensures var (length, at) := ReadLength(bytes).value; Declares(bytes[1..at], length)
  {
  }

  lemma DefiniteIsTree(bytes: seq<byte>, depth: nat) returns (t: Tree, rest: seq<byte>)
    requires ReadTlv(bytes, depth).Ok? && bytes[1] != 0x80
    ensures Begins(bytes, t, rest, depth) && (IsEnd(t) <==> bytes[0] == 0 && bytes[1] == 0)
    ensures ReadTlv(bytes, depth).value == Tlv(t.tag, Content(t), |Encode(t)|)
  {
    var (length, at) := ReadLength(bytes).value;
    LengthIsDeclared(bytes);
    t, rest := Leaf(bytes[0], bytes[1..at], bytes[at..at + length]), bytes[at + length..];
    assert bytes == [bytes[0]] + bytes[1..at] + bytes[at..at + length] + rest;
  }

  lemma IndefiniteIs(bytes: seq<byte>, ts: Trees, end: nat)
    requires |bytes| >= 2 && bytes[1] == 0x80
    requires end + 4 <= |bytes| && bytes[2..][end] == 0 && bytes[2..][end + 1] == 0
    requires bytes[2..][0..end] == EncodeAll(ts)
    ensures bytes == Encode(Node(bytes[0], Indefinite, ts)) + bytes[2..][end + 2..]
  {
    var body := bytes[2..];
    assert bytes == [bytes[0], 0x80] + body;
    assert body == body[0..end] + [0, 0] + body[end + 2..];
  }

  /** **All that is read is a tree**, which the bytes begin with. */
  lemma {:induction false} ReadIsTree(bytes: seq<byte>, depth: nat) returns (t: Tree, rest: seq<byte>)
    requires ReadTlv(bytes, depth).Ok?
    ensures Begins(bytes, t, rest, depth) && (IsEnd(t) <==> bytes[0] == 0 && bytes[1] == 0)
    ensures ReadTlv(bytes, depth).value == Tlv(t.tag, Content(t), |Encode(t)|)
    decreases |bytes|, 0, 0
  {
    if bytes[1] == 0x80 {
      var body := bytes[2..];
      ReadStep(bytes, depth);
      var ts, end := ScanIsTrees(bytes[0], body, 0, depth, ReadTlv(bytes, depth).value);
      t, rest := Node(bytes[0], Indefinite, ts), body[end + 2..];
      IndefiniteIs(bytes, ts, end);
      LevelsFit(ts, depth + 1);
    } else {
      t, rest := DefiniteIsTree(bytes, depth);
    }
  }

  /** Trees that a reader at this depth finds the ends of stand from `at` up to an
      end-of-contents pair at `end`. */
  ghost predicate TreesUpTo(body: seq<byte>, at: nat, end: nat, ts: Trees, depth: nat) {
    && at <= end && end + 2 <= |body| && body[end] == 0 && body[end + 1] == 0
    && body[at..end] == EncodeAll(ts) && AllGood(ts) && AllFit(ts, depth)
  }

  lemma OneMoreTree(body: seq<byte>, at: nat, next: nat, t: Tree, rest: seq<byte>, others: Trees, end: nat, depth: nat)
    requires at <= |body| && Begins(body[at..], t, rest, depth) && !IsEnd(t)
    requires next == at + |Encode(t)| && TreesUpTo(body, next, end, others, depth)
    ensures TreesUpTo(body, at, end, Cons(t, others), depth)
  {
    assert body[at..next] == body[at..][..|Encode(t)|] == Encode(t);
    assert body[at..end] == body[at..next] + body[next..end];
  }

  /** Scanning on from `at` comes to this value. */
  predicate ScansTo(tag: byte, body: seq<byte>, at: nat, depth: nat, scanned: Tlv) {
    at <= |body| && Scan(tag, body, at, depth) == Ok(scanned)
  }

  lemma EndStops(tag: byte, body: seq<byte>, at: nat, depth: nat, scanned: Tlv)
    requires ScansTo(tag, body, at, depth, scanned)
    ensures at + 2 <= |body|
    ensures body[at] == 0 && body[at + 1] == 0 ==> scanned == Tlv(tag, body[..at], 2 + at + 2)
  {
  }

  lemma ScansOn(tag: byte, body: seq<byte>, at: nat, depth: nat, scanned: Tlv) returns (inner: Tlv)
    requires at + 2 <= |body| && ScansTo(tag, body, at, depth, scanned) && (body[at] != 0 || body[at + 1] != 0)
    ensures ReadTlv(body[at..], depth + 1) == Ok(inner) && 2 <= inner.consumed <= |body| - at
    ensures ScansTo(tag, body, at + inner.consumed, depth, scanned)
  {
    inner := ReadTlv(body[at..], depth + 1).value;
  }

  /** What stands where no end does is a tree, and scanning goes past it. */
  lemma {:induction false} NextIsTree(tag: byte, body: seq<byte>, at: nat, depth: nat, scanned: Tlv)
    returns (t: Tree, rest: seq<byte>, next: nat)
    requires at + 2 <= |body| && ScansTo(tag, body, at, depth, scanned) && (body[at] != 0 || body[at + 1] != 0)
    ensures Begins(body[at..], t, rest, depth + 1) && !IsEnd(t)
    ensures at < next == at + |Encode(t)| <= |body| && ScansTo(tag, body, next, depth, scanned)
    decreases |body| + 1, |body| - at, 0
  {
    var inner := ScansOn(tag, body, at, depth, scanned);
    t, rest := ReadIsTree(body[at..], depth + 1);
    next := at + inner.consumed;
  }

  /** What is scanned is trees, and an end-of-contents pair after them. */
  lemma {:induction false} ScanIsTrees(tag: byte, body: seq<byte>, at: nat, depth: nat, scanned: Tlv)
    returns (ts: Trees, end: nat)
    requires at <= |body| && ScansTo(tag, body, at, depth, scanned)
    ensures TreesUpTo(body, at, end, ts, depth + 1) && scanned == Tlv(tag, body[..end], 2 + end + 2)
    decreases |body| + 1, |body| - at, 1
  {
    EndStops(tag, body, at, depth, scanned);
    if body[at] == 0 && body[at + 1] == 0 {
      ts, end := Nil, at;
    } else {
      var t, rest, next := NextIsTree(tag, body, at, depth, scanned);
      var others;
      others, end := ScanIsTrees(tag, body, next, depth, scanned);
      ts := Cons(t, others);
      OneMoreTree(body, at, next, t, rest, others, end, depth + 1);
    }
  }

  /** **Exactly the trees are read**, each as what it holds. */
  lemma ReadsExactly(bytes: seq<byte>, depth: nat, tlv: Tlv)
    ensures ReadTlv(bytes, depth) == Ok(tlv)
      <==> exists t, rest :: Begins(bytes, t, rest, depth) && tlv == Tlv(t.tag, Content(t), |Encode(t)|)
  {
    if ReadTlv(bytes, depth) == Ok(tlv) {
      var t, rest := ReadIsTree(bytes, depth);
    }
    if t, rest :| Begins(bytes, t, rest, depth) && tlv == Tlv(t.tag, Content(t), |Encode(t)|) {
      ReadsTree(t, rest, depth);
    }
  }

  // ---- The token is where it belongs ----

  /** The bytes begin with a value of this tag and content, read at this depth. */
  ghost predicate Holds(bytes: seq<byte>, depth: nat, tag: byte, content: seq<byte>, rest: seq<byte>) {
    exists t :: Begins(bytes, t, rest, depth) && t.tag == tag && Content(t) == content
  }

  lemma ReadHolds(bytes: seq<byte>, depth: nat)
    ensures ReadTlv(bytes, depth).Ok? ==>
      var tlv := ReadTlv(bytes, depth).value;
      Holds(bytes, depth, tlv.tag, tlv.value, bytes[tlv.consumed..])
    ensures forall tag, content, rest :: Holds(bytes, depth, tag, content, rest) ==>
      var read := ReadTlv(bytes, depth);
      read.Ok? && read.value.tag == tag && read.value.value == content && bytes[read.value.consumed..] == rest
  {
    if ReadTlv(bytes, depth).Ok? {
      var t, rest := ReadIsTree(bytes, depth);
      assert rest == bytes[|Encode(t)|..];
    }
    forall tag, content, rest | Holds(bytes, depth, tag, content, rest)
      ensures var read := ReadTlv(bytes, depth);
        read.Ok? && read.value.tag == tag && read.value.value == content && bytes[read.value.consumed..] == rest
    {
      var t :| Begins(bytes, t, rest, depth) && t.tag == tag && Content(t) == content;
      ReadsTree(t, rest, depth);
    }
  }

  /** Among the fields, after any of the other three kinds, is one that holds the token
      in an octet string. */
  ghost predicate InFields(fields: seq<byte>, token: seq<byte>)
    decreases |fields|
  {
    exists tag, content, rest :: Holds(fields, 3, tag, content, rest)
      && if tag == 0xA2 then exists more :: Holds(content, 4, 0x04, token, more)
         else tag in {0xA0, 0xA1, 0xA3} && |rest| < |fields| && InFields(rest, token)
  }

  lemma {:induction false} FindsExactly(fields: seq<byte>, token: seq<byte>)
    ensures FindToken(fields) == Ok(token) <==> InFields(fields, token)
    decreases |fields|
  {
    ReadHolds(fields, 3);
    if ReadTlv(fields, 3).Ok? {
      var field := ReadTlv(fields, 3).value;
      ReadHolds(field.value, 4);
      FindsExactly(fields[field.consumed..], token);
    }
  }

  /** A `NegTokenResp` with the token: a sequence under its tag, and the token among the
      fields of that. */
  ghost predicate InResponse(bytes: seq<byte>, token: seq<byte>) {
    exists content, rest, fields, more ::
      Holds(bytes, 1, 0xA1, content, rest) && Holds(content, 2, 0x30, fields, more) && InFields(fields, token)
  }

  lemma BodyExactly(bytes: seq<byte>, token: seq<byte>)
    ensures FromBody(bytes) == Ok(token) <==> InResponse(bytes, token)
  {
    ReadHolds(bytes, 1);
    if ReadTlv(bytes, 1).Ok? {
      var content := ReadTlv(bytes, 1).value.value;
      ReadHolds(content, 2);
      if ReadTlv(content, 2).Ok? {
        FindsExactly(ReadTlv(content, 2).value.value, token);
      }
    }
  }

  /** A token answers with `token`: it is a response with it, or a wrapper with an object
      identifier and then one. */
  ghost predicate AnswersWith(bytes: seq<byte>, token: seq<byte>) {
    exists tag, content, rest :: Holds(bytes, 0, tag, content, rest)
      && if tag == 0x60 then InWrapper(content, token) else InResponse(bytes, token)
  }

  ghost predicate InWrapper(content: seq<byte>, token: seq<byte>) {
    exists oid, response :: Holds(content, 1, 0x06, oid, response) && InResponse(response, token)
  }

  lemma WrapperExactly(content: seq<byte>, token: seq<byte>)
    ensures var oid := Expect(content, 0x06, 1);
      (oid.Ok? && FromBody(content[oid.value.consumed..]) == Ok(token)) <==> InWrapper(content, token)
  {
    ReadHolds(content, 1);
    if ReadTlv(content, 1).Ok? {
      BodyExactly(content[ReadTlv(content, 1).value.consumed..], token);
    }
  }

  /** **Exactly such tokens are answered with**: a `responseToken` is found when, and only
      when, it is where it belongs. */
  lemma FoundExactly(bytes: seq<byte>, token: seq<byte>)
    ensures ResponseToken(bytes) == Ok(token) <==> AnswersWith(bytes, token)
  {
    ReadHolds(bytes, 0);
    if ReadTlv(bytes, 0).Ok? {
      BodyExactly(bytes, token);
      WrapperExactly(ReadTlv(bytes, 0).value.value, token);
    }
  }

  // ---- What is refused is refused for cause ----

  /** Why a value is not read whose fault is in its own first bytes: it is too deep; it has
      no length; or that has more bytes than a machine word, or fewer than it says. And
      then, why one is not that has fewer bytes than its length. */
  lemma RefusedForCause(bytes: seq<byte>, depth: nat)
    ensures depth > 16 ==> ReadTlv(bytes, depth) == Err(TooDeep)
    ensures depth <= 16 && |bytes| < 2 ==> ReadTlv(bytes, depth) == Err(Truncated(|bytes|))
    ensures depth <= 16 && |bytes| >= 2 && bytes[1] > 0x88 ==> ReadTlv(bytes, depth) == Err(LengthTooLarge)
    ensures depth <= 16 && |bytes| >= 2 && 0x80 < bytes[1] <= 0x88 && |bytes| < bytes[1] - 0x7E ==>
      ReadTlv(bytes, depth) == Err(Truncated(2))
  {
  }

  lemma RefusedCutShort(tag: byte, header: seq<byte>, length: nat, rest: seq<byte>, depth: nat)
    requires depth <= 16 && Declares(header, length) && |rest| < length
    ensures ReadTlv([tag] + header + rest, depth) == Err(Truncated(1 + |header|))
  {
    ReadsLength(tag, header, length, rest);
    assert ([tag] + header + rest)[1] == header[0];
  }

  /** Scanning on from `at` comes to no end. */
  predicate Unended(tag: byte, body: seq<byte>, at: nat, depth: nat) {
    at <= |body| && Scan(tag, body, at, depth) == Err(UnterminatedIndefinite)
  }

  lemma UnendedAfter(tag: byte, body: seq<byte>, at: nat, next: nat, t: Tree, after: seq<byte>, depth: nat)
    requires at <= |body| && Begins(body[at..], t, after, depth + 1) && !IsEnd(t)
    requires next == at + |Encode(t)| && Unended(tag, body, next, depth)
    ensures Unended(tag, body, at, depth)
  {
    NoEndAt(body, at, t, after);
    ReadsTree(t, after, depth + 1);
    ScanStep(tag, body, at, depth);
  }

  lemma HeadApart(body: seq<byte>, at: nat, ts: Trees, rest: seq<byte>, depth: nat)
    returns (next: nat, after: seq<byte>)
    requires ts.Cons? && at <= |body| && body[at..] == EncodeAll(ts) + rest && AllGood(ts) && AllFit(ts, depth)
    ensures Begins(body[at..], ts.head, after, depth) && !IsEnd(ts.head) && AllGood(ts.tail) && AllFit(ts.tail, depth)
    ensures next == at + |Encode(ts.head)| <= |body| && body[next..] == EncodeAll(ts.tail) + rest
  {
    next, after := at + |Encode(ts.head)|, EncodeAll(ts.tail) + rest;
    assert body[at..] == Encode(ts.head) + after;
    assert body[next..] == body[at..][|Encode(ts.head)|..];
  }

  /** Trees and no end of them. */
  lemma {:induction false} RefusedUnended(tag: byte, body: seq<byte>, at: nat, ts: Trees, rest: seq<byte>, depth: nat)
    requires at <= |body| && body[at..] == EncodeAll(ts) + rest && |rest| < 2
    requires AllGood(ts) && AllFit(ts, depth + 1)
    ensures Unended(tag, body, at, depth)
    decreases ts
  {
    if ts.Cons? {
      var next, after := HeadApart(body, at, ts, rest, depth + 1);
      RefusedUnended(tag, body, next, ts.tail, rest, depth);
      UnendedAfter(tag, body, at, next, ts.head, after, depth);
    }
  }

  /** A value under another tag than the one that belongs there is refused by both tags, and
      fields that come to an end by that. */
  lemma RefusedByTag(bytes: seq<byte>, depth: nat, tag: byte, content: seq<byte>, rest: seq<byte>, wanted: byte)
    requires Holds(bytes, depth, tag, content, rest)
    ensures tag != wanted ==> Expect(bytes, wanted, depth) == Err(UnexpectedTag(wanted, tag))
    ensures depth == 3 && tag !in {0xA0, 0xA1, 0xA2, 0xA3} ==> FindToken(bytes) == Err(UnexpectedTag(0xA2, tag))
    ensures depth == 3 && tag in {0xA0, 0xA1, 0xA3} && |rest| == 0 ==> FindToken(bytes) == Err(NoResponseToken)
  {
    ReadHolds(bytes, depth);
  }
}
