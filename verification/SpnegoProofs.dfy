/** What the token codec promises: reading undoes writing, what is written is
    minimal, and a `responseToken` is found however its levels are encoded. */
module SpnegoProofs {
  import opened Wrappers
  import opened Spnego

  // ---- Lengths ----

  lemma {:induction false} BigEndianOfSignificant(n: nat)
    ensures BigEndian(Significant(n)) == n
  {
    if n > 0 {
      BigEndianOfSignificant(n / 0x100);
      assert Significant(n)[..|Significant(n)| - 1] == Significant(n / 0x100);
    }
  }

  /** No big-endian form of a number is shorter than its significant bytes, and
      none other is as short. */
  lemma {:induction false} SignificantIsShortest(raw: seq<byte>)
    ensures |Significant(BigEndian(raw))| <= |raw|
    ensures |Significant(BigEndian(raw))| == |raw| ==> Significant(BigEndian(raw)) == raw
  {
    if |raw| > 0 {
      var most, last := raw[..|raw| - 1], raw[|raw| - 1];
      SignificantIsShortest(most);
      assert raw == most + [last];
      assert BigEndian(raw) / 0x100 == BigEndian(most) && BigEndian(raw) % 0x100 == last as int;
    }
  }

  lemma {:induction false} BigEndianFits(raw: seq<byte>)
    ensures BigEndian(raw) < Power(|raw|)
  {
    if |raw| > 0 {
      BigEndianFits(raw[..|raw| - 1]);
    }
  }

  /** The first byte weighs the most. */
  lemma {:induction false} FirstByteWeighs(raw: seq<byte>)
    requires |raw| > 0
    ensures BigEndian(raw) == raw[0] * Power(|raw| - 1) + BigEndian(raw[1..])
  {
    if |raw| > 1 {
      var most := raw[..|raw| - 1];
      FirstByteWeighs(most);
      assert raw[1..][..|raw| - 2] == most[1..];
      assert Power(|raw| - 1) == 0x100 * Power(|raw| - 2);
    }
  }

  lemma {:induction false} PowerGrows(a: nat, b: nat)
    requires a <= b
    ensures Power(a) <= Power(b)
    decreases b
  {
    if a < b {
      PowerGrows(a, b - 1);
    }
  }

  /** The bytes `header` are a definite length of `length`: its short form, or a
      long form, padded or not. */
  predicate Declares(header: seq<byte>, length: nat) {
    && |header| > 0
    && if header[0] < 0x80 then |header| == 1 && header[0] as nat == length
       else 0x80 + 1 <= header[0] as int == 0x80 + |header| - 1 <= 0x80 + 8 && BigEndian(header[1..]) == length
  }

  lemma PutLengthDeclares(length: nat)
    requires length < WORD
    ensures Declares(PutLength(length), length)
  {
    if length >= 0x80 {
      SignificantFits(length, 8);
      BigEndianOfSignificant(length);
      assert PutLength(length)[1..] == Significant(length);
    }
  }

  /** **What is written is minimal**: of all definite lengths that declare the same,
      the written one is the shortest, and the only one as short. */
  lemma PutLengthIsMinimal(header: seq<byte>, length: nat)
    requires Declares(header, length)
    ensures length < WORD
    ensures |PutLength(length)| <= |header|
    ensures |PutLength(length)| == |header| ==> header == PutLength(length)
  {
    if header[0] >= 0x80 {
      var raw := header[1..];
      BigEndianFits(raw);
      PowerGrows(|raw|, 8);
      assert Power(8) == WORD;
      SignificantIsShortest(raw);
      assert header == [header[0]] + raw;
    }
  }

  lemma ReadsLength(tag: byte, header: seq<byte>, length: nat, rest: seq<byte>)
    requires Declares(header, length)
    ensures ReadLength([tag] + header + rest) == Ok((length, 1 + |header|))
    ensures header[0] != 0x80
  {
    var bytes := [tag] + header + rest;
    assert bytes[1] == header[0];
    if header[0] >= 0x80 {
      assert bytes[2..1 + |header|] == header[1..];
    }
  }

  /** A tag-length-value of definite length reads back, whatever follows it. */
  lemma ReadsDefinite(tag: byte, header: seq<byte>, value: seq<byte>, rest: seq<byte>, depth: nat)
    requires Declares(header, |value|)
    ensures ReadTlv([tag] + header + value + rest, depth) ==
      if depth > 16 then Err(TooDeep) else Ok(Tlv(tag, value, 1 + |header| + |value|))
  {
    var bytes := [tag] + header + value + rest;
    ReadsLength(tag, header, |value|, value + rest);
    assert bytes == [tag] + header + (value + rest);
    assert bytes[1] == header[0];
    assert bytes[1 + |header|..1 + |header| + |value|] == value;
  }

  /** **Reading undoes writing**, whatever follows, at every depth there is. */
  lemma ReadUndoesPut(tag: byte, value: seq<byte>, rest: seq<byte>, depth: nat)
    requires |value| < WORD && depth <= 16
    ensures ReadTlv(PutTlv(tag, value) + rest, depth) == Ok(Tlv(tag, value, |PutTlv(tag, value)|))
  {
    PutLengthDeclares(|value|);
    ReadsDefinite(tag, PutLength(|value|), value, rest, depth);
  }

  // ---- Reading looks no further than what it reads ----

  lemma {:induction false} ReadMore(bytes: seq<byte>, more: seq<byte>, depth: nat)
    requires ReadTlv(bytes, depth).Ok?
    ensures ReadTlv(bytes + more, depth) == ReadTlv(bytes, depth)
    decreases |bytes|, 0
  {
    if bytes[1] == 0x80 {
      ScanMore(bytes[0], bytes[2..], 0, more, depth);
      assert (bytes + more)[2..] == bytes[2..] + more;
    } else {
      var length := ReadLength(bytes).value;
      assert bytes[1] > 0x80 ==> (bytes + more)[2..length.1] == bytes[2..length.1];
      assert (bytes + more)[length.1..length.1 + length.0] == bytes[length.1..length.1 + length.0];
    }
  }

  lemma AroundMore(body: seq<byte>, at: nat, more: seq<byte>)
    requires at <= |body|
    ensures (body + more)[..at] == body[..at] && (body + more)[at..] == body[at..] + more
  {
  }

  lemma {:induction false} ScanMore(tag: byte, body: seq<byte>, at: nat, more: seq<byte>, depth: nat)
    requires at <= |body| && Scan(tag, body, at, depth).Ok?
    ensures Scan(tag, body + more, at, depth) == Scan(tag, body, at, depth)
    decreases |body| + 1, |body| - at
  {
    AroundMore(body, at, more);
    if body[at] != 0 || body[at + 1] != 0 {
      ReadMore(body[at..], more, depth + 1);
      ScanMore(tag, body, at + ReadTlv(body[at..], depth + 1).value.consumed, more, depth);
    }
  }

  // ---- Tokens as trees, each level encoded as its writer chose ----

  /** How a level gives its length: in these definite bytes, or not at all. */
  datatype Form = Definite(header: seq<byte>) | Indefinite

  datatype Tree =
    | Leaf(tag: byte, header: seq<byte>, value: seq<byte>)
    | Node(tag: byte, form: Form, children: Trees)

  datatype Trees = Nil | Cons(head: Tree, tail: Trees)

  /** A tree's definite lengths are those of its contents, and nothing in it is to be
      taken for an end-of-contents pair. */
  ghost predicate Good(t: Tree)
    decreases t, 0
  {
    match t
    case Leaf(_, header, value) => Declares(header, |value|)
    case Node(_, form, children) =>
      AllGood(children) && (form.Definite? ==> Declares(form.header, |EncodeAll(children)|))
  }

  ghost predicate AllGood(ts: Trees)
    decreases ts, 1
  {
    ts.Nil? || (Good(ts.head) && !IsEnd(ts.head) && AllGood(ts.tail))
  }

  /** It is encoded as the pair of zero octets that ends a level of indefinite length. */
  predicate IsEnd(t: Tree) {
    t.tag == 0 && !(t.Node? && t.form.Indefinite?) && Header(t) == [0]
  }

  /** The definite length a tree is given. */
  function Header(t: Tree): seq<byte>
    requires !(t.Node? && t.form.Indefinite?)
  {
    if t.Leaf? then t.header else t.form.header
  }

  function Content(t: Tree): seq<byte>
    decreases t, 0
  {
    match t
    case Leaf(_, _, value) => value
    case Node(_, _, children) => EncodeAll(children)
  }

  function Encode(t: Tree): (bytes: seq<byte>)
    ensures |bytes| > 0 && bytes[0] == t.tag
    decreases t, 1
  {
    match t
    case Leaf(tag, header, value) => [tag] + header + value
    case Node(tag, Definite(header), children) => [tag] + header + EncodeAll(children)
    case Node(tag, Indefinite, children) => [tag, 0x80] + EncodeAll(children) + [0, 0]
  }

  function EncodeAll(ts: Trees): seq<byte>
    decreases ts, 2
  {
    if ts.Nil? then [] else Encode(ts.head) + EncodeAll(ts.tail)
  }

  /** How many levels below a tree a reader has to go to find its end. */
  function Levels(t: Tree): nat
    decreases t, 0
  {
    if t.Node? && t.form.Indefinite? && t.children.Cons? then 1 + MostLevels(t.children) else 0
  }

  function MostLevels(ts: Trees): nat
    decreases ts, 1
  {
    if ts.Nil? then 0
    else if Levels(ts.head) >= MostLevels(ts.tail) then Levels(ts.head) else MostLevels(ts.tail)
  }

  predicate Fits(t: Tree, depth: nat) { depth + Levels(t) <= 16 }

  predicate AllFit(ts: Trees, depth: nat) {
    ts.Nil? || (Fits(ts.head, depth) && AllFit(ts.tail, depth))
  }

  /** What reading a tree at a depth comes to. */
  function ReadAs(t: Tree, depth: nat): Result<Tlv, SpnegoError> {
    if Fits(t, depth) then Ok(Tlv(t.tag, Content(t), |Encode(t)|)) else Err(TooDeep)
  }

  lemma {:induction false} LevelsFit(ts: Trees, depth: nat)
    ensures ts.Cons? ==> (AllFit(ts, depth) <==> depth + MostLevels(ts) <= 16)
  {
    if ts.Cons? {
      LevelsFit(ts.tail, depth);
    }
  }

  /** **A tree reads back**: to its tag, its content and its length, however each
      of its levels is encoded and whatever follows it, exactly when the reader
      need not go deeper than it will. */
  lemma {:induction false} ReadsTree(t: Tree, rest: seq<byte>, depth: nat)
    requires Good(t)
    ensures ReadTlv(Encode(t) + rest, depth) == ReadAs(t, depth)
    decreases t, 0
  {
    match t
    case Leaf(tag, header, value) =>
      ReadsDefinite(tag, header, value, rest, depth);
    case Node(tag, Definite(header), children) =>
      ReadsDefinite(tag, header, EncodeAll(children), rest, depth);
    case Node(tag, Indefinite, children) =>
      ReadsIndefinite(tag, children, rest, depth);
  }

  /** What is left of `body` at `at` is the trees, an end-of-contents pair and
      `rest`. */
  ghost predicate StandAt(ts: Trees, body: seq<byte>, at: nat, rest: seq<byte>) {
    at <= |body| && body[at..] == EncodeAll(ts) + ([0, 0] + rest)
  }

  lemma StandInside(ts: Trees, body: seq<byte>, at: nat, rest: seq<byte>)
    requires StandAt(ts, body, at, rest)
    ensures at + |EncodeAll(ts)| + 2 <= |body|
  {
    assert |body[at..]| == |EncodeAll(ts)| + 2 + |rest|;
  }

  lemma IndefiniteBody(tag: byte, children: Trees, rest: seq<byte>)
    ensures var bytes := Encode(Node(tag, Indefinite, children)) + rest;
      && |bytes| >= 2 && bytes[0] == tag && bytes[1] == 0x80
      && StandAt(children, bytes[2..], 0, rest)
      && |bytes[2..]| >= |EncodeAll(children)| && bytes[2..][..|EncodeAll(children)|] == EncodeAll(children)
  {
    var body := (Encode(Node(tag, Indefinite, children)) + rest)[2..];
    assert body == EncodeAll(children) + ([0, 0] + rest);
    assert body[0..] == body;
  }

  lemma ReadStep(bytes: seq<byte>, depth: nat)
    requires |bytes| >= 2 && bytes[1] == 0x80
    ensures ReadTlv(bytes, depth) == if depth > 16 then Err(TooDeep) else Scan(bytes[0], bytes[2..], 0, depth)
  {
  }

  lemma {:induction false} ReadsIndefinite(tag: byte, children: Trees, rest: seq<byte>, depth: nat)
    requires AllGood(children)
    ensures ReadTlv(Encode(Node(tag, Indefinite, children)) + rest, depth) ==
      ReadAs(Node(tag, Indefinite, children), depth)
    decreases children, 2
  {
    var bytes := Encode(Node(tag, Indefinite, children)) + rest;
    IndefiniteBody(tag, children, rest);
    ReadStep(bytes, depth);
    if depth <= 16 {
      ScansTrees(tag, bytes[2..], 0, |EncodeAll(children)|, children, rest, depth);
      LevelsFit(children, depth + 1);
    }
  }

  /** What scanning a body to `end` comes to. */
  function ScanAs(tag: byte, body: seq<byte>, end: nat, fits: bool): Result<Tlv, SpnegoError> {
    if !fits then Err(TooDeep)
    else if end <= |body| then Ok(Tlv(tag, body[..end], 2 + end + 2))
    else Err(UnterminatedIndefinite)
  }

  lemma ScanEnds(tag: byte, body: seq<byte>, at: nat, rest: seq<byte>, depth: nat)
    requires StandAt(Nil, body, at, rest)
    ensures Scan(tag, body, at, depth) == ScanAs(tag, body, at, true)
  {
    StandInside(Nil, body, at, rest);
    assert body[at] == body[at..][0] && body[at + 1] == body[at..][1];
  }

  /** Where a tree stands that is no end, none is seen. */
  lemma NoEndAt(body: seq<byte>, at: nat, t: Tree, after: seq<byte>)
    requires Good(t) && !IsEnd(t) && at <= |body| && body[at..] == Encode(t) + after
    ensures at + 2 <= at + |Encode(t)| <= |body| && (body[at] != 0 || body[at + 1] != 0)
  {
    assert body[at] == body[at..][0] && body[at + 1] == body[at..][1];
    assert |Encode(t)| >= 2 && (Encode(t)[0] != 0 || Encode(t)[1] != 0);
  }

  lemma ScanStep(tag: byte, body: seq<byte>, at: nat, depth: nat)
    requires at + 2 <= |body| && (body[at] != 0 || body[at + 1] != 0)
    ensures var inner := ReadTlv(body[at..], depth + 1);
      Scan(tag, body, at, depth) == if inner.Err? then inner else Scan(tag, body, at + inner.value.consumed, depth)
  {
  }

  /** The first of the trees is read, and the others stand after it. */
  lemma {:induction false} HeadReads(body: seq<byte>, at: nat, ts: Trees, rest: seq<byte>, depth: nat)
    requires ts.Cons? && AllGood(ts) && StandAt(ts, body, at, rest)
    ensures var next := at + |Encode(ts.head)|;
      && at + 2 <= next <= |body| && (body[at] != 0 || body[at + 1] != 0) && StandAt(ts.tail, body, next, rest)
    ensures ReadTlv(body[at..], depth) == ReadAs(ts.head, depth)
    decreases ts, 0, 0
  {
    var next, after := at + |Encode(ts.head)|, EncodeAll(ts.tail) + ([0, 0] + rest);
    StandInside(ts, body, at, rest);
    assert body[at..] == Encode(ts.head) + after;
    NoEndAt(body, at, ts.head, after);
    assert body[next..] == body[at..][|Encode(ts.head)|..];
    ReadsTree(ts.head, after, depth);
  }

  lemma HeadLength(ts: Trees)
    requires ts.Cons?
    ensures |EncodeAll(ts)| == |Encode(ts.head)| + |EncodeAll(ts.tail)|
  {
  }

  /** Scanning goes past the first of the trees, unless it is too deep. */
  lemma {:induction false} ScansHead(tag: byte, body: seq<byte>, at: nat, ts: Trees, rest: seq<byte>, depth: nat)
    returns (next: nat)
    requires ts.Cons? && AllGood(ts) && StandAt(ts, body, at, rest)
    ensures next == at + |Encode(ts.head)| <= |body| && StandAt(ts.tail, body, next, rest)
    ensures next + |EncodeAll(ts.tail)| == at + |EncodeAll(ts)|
    ensures Scan(tag, body, at, depth) ==
      if Fits(ts.head, depth + 1) then Scan(tag, body, next, depth) else Err(TooDeep)
    decreases ts, 0, 1
  {
    HeadReads(body, at, ts, rest, depth + 1);
    HeadLength(ts);
    ScanStep(tag, body, at, depth);
    next := at + |Encode(ts.head)|;
  }

  /** Scanning goes past all of the trees, which stand up to `end`. */
  lemma {:induction false} ScansTrees(tag: byte, body: seq<byte>, at: nat, end: nat, ts: Trees, rest: seq<byte>,
                                      depth: nat)
    requires AllGood(ts) && StandAt(ts, body, at, rest) && end == at + |EncodeAll(ts)|
    ensures Scan(tag, body, at, depth) == ScanAs(tag, body, end, AllFit(ts, depth + 1))
    decreases ts, 1
  {
    if ts.Nil? {
      ScanEnds(tag, body, at, rest, depth);
    } else {
      var next := ScansHead(tag, body, at, ts, rest, depth);
      ScansTrees(tag, body, next, end, ts.tail, rest, depth);
    }
  }

  // ---- The responseToken, wherever it is ----

  function Joined(ts: Trees, us: Trees): Trees {
    if ts.Nil? then us else Cons(ts.head, Joined(ts.tail, us))
  }

  /** A `NegTokenResp` as a server may encode it: the form of each of its levels,
      the fields before the `responseToken` and after, and what may follow within
      a level that the grammar does not look at. */
  datatype Response = Response(
    form: Form, sequenceForm: Form, before: Trees, tokenForm: Form, octets: Tree,
    afterOctets: Trees, after: Trees, afterSequence: Trees)
  {
    function Field(): Tree { Node(0xA2, tokenForm, Cons(octets, afterOctets)) }

    function Sequence(): Tree { Node(0x30, sequenceForm, Joined(before, Cons(Field(), after))) }

    function Tree(): Tree { Node(0xA1, form, Cons(Sequence(), afterSequence)) }

    ghost predicate Shaped() { Good(Tree()) && octets.tag == 0x04 && OtherFields(before) }

    /** Whether the reader finds the end of everything it reads. */
    predicate Shallow() {
      Fits(Tree(), 1) && Fits(Sequence(), 2) && AllFit(before, 3) && Fits(Field(), 3) && Fits(octets, 4)
    }

    /** What the response comes to. */
    function Token(): Result<seq<byte>, SpnegoError> {
      if Shallow() then Ok(Content(octets)) else Err(TooDeep)
    }
  }

  predicate OtherFields(ts: Trees) {
    ts.Nil? || (IsField(ts.head.tag) && ts.head.tag != 0xA2 && OtherFields(ts.tail))
  }

  lemma {:induction false} JoinedIsGood(ts: Trees, us: Trees)
    requires AllGood(Joined(ts, us))
    ensures AllGood(ts) && AllGood(us)
  {
    if ts.Cons? {
      JoinedIsGood(ts.tail, us);
    }
  }

  lemma FirstChildIsGood(t: Tree)
    requires Good(t) && t.Node? && t.children.Cons?
    ensures Good(t.children.head) && AllGood(t.children.tail)
  {
    assert AllGood(t.children);
  }

  lemma LevelsAreGood(r: Response)
    requires r.Shaped()
    ensures Good(r.Sequence()) && AllGood(r.before) && Good(r.Field()) && AllGood(r.after) && Good(r.octets)
  {
    FirstChildIsGood(r.Tree());
    assert AllGood(Joined(r.before, Cons(r.Field(), r.after)));
    JoinedIsGood(r.before, Cons(r.Field(), r.after));
    FirstChildIsGood(r.Field());
  }

  lemma {:induction false} FindsToken(r: Response, before: Trees)
    requires AllGood(before) && OtherFields(before) && AllGood(r.after)
    requires Good(r.Field()) && Good(r.octets) && r.octets.tag == 0x04
    ensures FindToken(EncodeAll(Joined(before, Cons(r.Field(), r.after)))) ==
      if AllFit(before, 3) && Fits(r.Field(), 3) && Fits(r.octets, 4) then Ok(Content(r.octets)) else Err(TooDeep)
    decreases before
  {
    if before.Nil? {
      ReadsTree(r.Field(), EncodeAll(r.after), 3);
      ReadsTree(r.octets, EncodeAll(r.afterOctets), 4);
    } else {
      var rest := EncodeAll(Joined(before.tail, Cons(r.Field(), r.after)));
      ReadsTree(before.head, rest, 3);
      assert (Encode(before.head) + rest)[|Encode(before.head)|..] == rest;
      FindsToken(r, before.tail);
    }
  }

  lemma BodyReads(r: Response, rest: seq<byte>)
    requires r.Shaped()
    ensures FromBody(Encode(r.Tree()) + rest) == r.Token()
  {
    LevelsAreGood(r);
    ReadsTree(r.Tree(), rest, 1);
    ReadsTree(r.Sequence(), EncodeAll(r.afterSequence), 2);
    FindsToken(r, r.before);
  }

  /** **The token is found without a wrapper**, whatever the encoding of each
      level, exactly when no level is too deep. */
  lemma ResponseReads(r: Response, rest: seq<byte>)
    requires r.Shaped()
    ensures ResponseToken(Encode(r.Tree()) + rest) == r.Token()
  {
    ReadsTree(r.Tree(), rest, 0);
    BodyReads(r, rest);
  }

  /** **And with one.** */
  lemma WrappedResponseReads(form: Form, oid: Tree, r: Response, after: Trees, rest: seq<byte>)
    requires oid.tag == 0x06 && r.Shaped()
    requires Good(Node(0x60, form, Cons(oid, Cons(r.Tree(), after))))
    ensures var wrapper := Node(0x60, form, Cons(oid, Cons(r.Tree(), after)));
      ResponseToken(Encode(wrapper) + rest) ==
        if Fits(wrapper, 0) && Fits(oid, 1) then r.Token() else Err(TooDeep)
  {
    var wrapper := Node(0x60, form, Cons(oid, Cons(r.Tree(), after)));
    var body := Encode(r.Tree()) + EncodeAll(after);
    FirstChildIsGood(wrapper);
    ReadsTree(wrapper, rest, 0);
    ReadsTree(oid, body, 1);
    assert EncodeAll(Cons(r.Tree(), after)) == body;
    assert Content(wrapper) == Encode(oid) + body;
    assert (Encode(oid) + body)[|Encode(oid)|..] == body;
    BodyReads(r, EncodeAll(after));
  }

  // ---- What the client writes ----

  function Der(tag: byte, value: seq<byte>): Tree
    requires |value| < WORD
  {
    Leaf(tag, PutLength(|value|), value)
  }

  /** The response the client writes, with its levels in these forms instead. */
  function Rewritten(token: seq<byte>, mic: seq<byte>, form: Form, sequence: Form, tokenForm: Form, micForm: Form)
    : Response
    requires |token| < WORD && |mic| < WORD
  {
    var check := Node(0xA3, micForm, Cons(Der(0x04, mic), Nil));
    Response(form, sequence, Nil, tokenForm, Der(0x04, token), Nil, Cons(check, Nil), Nil)
  }

  lemma OneDeeper(t: Tree, n: nat)
    requires t.Node? && MostLevels(t.children) <= n
    ensures Levels(t) <= n + 1
  {
  }

  lemma MostOfTwo(a: Tree, b: Tree, n: nat)
    requires Levels(a) <= n && Levels(b) <= n
    ensures MostLevels(Cons(a, Nil)) <= n && MostLevels(Cons(a, Cons(b, Nil))) <= n
  {
    assert MostLevels(Cons(b, Nil)) <= n;
  }

  lemma RewrittenIsShallow(r: Response)
    requires r.before == Nil && r.octets.Leaf? && r.afterOctets == Nil && r.afterSequence == Nil
    requires r.after.Cons? && r.after.tail == Nil
    requires r.after.head.Node? && r.after.head.children.Cons? && r.after.head.children.head.Leaf?
      && r.after.head.children.tail == Nil
    ensures r.Shallow() && Levels(r.Tree()) <= 3
  {
    var check := r.after.head;
    MostOfTwo(r.octets, r.octets, 0);
    OneDeeper(r.Field(), 0);
    MostOfTwo(check.children.head, check.children.head, 0);
    OneDeeper(check, 0);
    MostOfTwo(r.Field(), check, 1);
    OneDeeper(r.Sequence(), 1);
    MostOfTwo(r.Sequence(), r.Sequence(), 2);
    OneDeeper(r.Tree(), 2);
  }

  /** **What the client writes reads back, re-encoded or not**: with any of its
      constructed levels of indefinite length, or of a padded definite one, the
      token is what was written. */
  lemma RewrittenReads(token: seq<byte>, mic: seq<byte>, form: Form, sequence: Form, tokenForm: Form, micForm: Form,
                       rest: seq<byte>)
    requires |token| < WORD && |mic| < WORD
    requires Good(Rewritten(token, mic, form, sequence, tokenForm, micForm).Tree())
    ensures ResponseToken(Encode(Rewritten(token, mic, form, sequence, tokenForm, micForm).Tree()) + rest) == Ok(token)
  {
    var r := Rewritten(token, mic, form, sequence, tokenForm, micForm);
    ResponseReads(r, rest);
    RewrittenIsShallow(r);
  }

  /** The same, in a GSS-API wrapper of any form. */
  lemma RewrittenReadsWrapped(token: seq<byte>, mic: seq<byte>, form: Form, sequence: Form, tokenForm: Form,
                              micForm: Form, wrapperForm: Form, oid: seq<byte>, rest: seq<byte>)
    requires |token| < WORD && |mic| < WORD && |oid| < WORD
    requires Good(Wrapped(wrapperForm, oid, Rewritten(token, mic, form, sequence, tokenForm, micForm)))
    ensures ResponseToken(
      Encode(Wrapped(wrapperForm, oid, Rewritten(token, mic, form, sequence, tokenForm, micForm))) + rest) == Ok(token)
  {
    var r := Rewritten(token, mic, form, sequence, tokenForm, micForm);
    var wrapper := Wrapped(wrapperForm, oid, r);
    RewrittenIsShallow(r);
    MostOfTwo(Der(0x06, oid), r.Tree(), 3);
    OneDeeper(wrapper, 3);
    FirstChildIsGood(wrapper);
    WrappedResponseReads(wrapperForm, Der(0x06, oid), r, Nil, rest);
  }

  function Wrapped(form: Form, oid: seq<byte>, r: Response): Tree
    requires |oid| < WORD
  {
    Node(0x60, form, Cons(Der(0x06, oid), Cons(r.Tree(), Nil)))
  }

  function DerForm(content: seq<byte>): Form
    requires |content| < WORD
  {
    Definite(PutLength(|content|))
  }

  /** The client's own encoding is the one with every level definite and minimal. */
  lemma NegTokenRespIsDer(token: seq<byte>, mic: seq<byte>)
    returns (form: Form, sequence: Form, tokenForm: Form, micForm: Form)
    requires |token| + |mic| + 128 < WORD
    ensures Good(Rewritten(token, mic, form, sequence, tokenForm, micForm).Tree())
    ensures Encode(Rewritten(token, mic, form, sequence, tokenForm, micForm).Tree()) == NegTokenResp(token, mic)
  {
    LengthIsShort(|token|);
    LengthIsShort(|mic|);
    var octets, check := PutTlv(0x04, token), PutTlv(0x04, mic);
    LengthIsShort(|octets|);
    LengthIsShort(|check|);
    var fields := PutTlv(0xA2, octets) + PutTlv(0xA3, check);
    LengthIsShort(|fields|);
    form, sequence := DerForm(PutTlv(0x30, fields)), DerForm(fields);
    tokenForm, micForm := DerForm(octets), DerForm(check);
    var r := Rewritten(token, mic, form, sequence, tokenForm, micForm);
    DerIsGood(0x04, token);
    DerIsGood(0x04, mic);
    NodeIsDer(0xA2, octets, r.Field());
    NodeIsDer(0xA3, check, r.after.head);
    NodeIsDer(0x30, fields, r.Sequence());
    NodeIsDer(0xA1, PutTlv(0x30, fields), r.Tree());
  }

  lemma DerIsGood(tag: byte, value: seq<byte>)
    requires |value| < WORD
    ensures Good(Der(tag, value)) && Encode(Der(tag, value)) == PutTlv(tag, value)
  {
    PutLengthDeclares(|value|);
  }

  lemma NodeIsDer(tag: byte, content: seq<byte>, t: Tree)
    requires |content| < WORD
    requires t.Node? && t.tag == tag && t.form == DerForm(content)
    requires AllGood(t.children) && EncodeAll(t.children) == content
    ensures Good(t) && Encode(t) == PutTlv(tag, content)
  {
    PutLengthDeclares(|content|);
  }

  /** **The exchange's round trip.** */
  lemma ResponseTokenOfNegTokenResp(token: seq<byte>, mic: seq<byte>)
    requires |token| + |mic| + 128 < WORD
    ensures ResponseToken(NegTokenResp(token, mic)) == Ok(token)
  {
    var form, sequence, tokenForm, micForm := NegTokenRespIsDer(token, mic);
    RewrittenReads(token, mic, form, sequence, tokenForm, micForm, []);
    assert NegTokenResp(token, mic) + [] == NegTokenResp(token, mic);
  }
}
