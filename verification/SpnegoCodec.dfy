/** The codec as the session runs it: cursors that walk a buffer. */
module InPlaceSpnego {
  import opened Wrappers
  import S = Spnego

  /** Reads one tag-length-value. */
  method ReadTlv(bytes: seq<byte>, depth: nat) returns (r: Result<S.Tlv, S.SpnegoError>)
    ensures r == S.ReadTlv(bytes, depth)
    decreases |bytes|, 0
  {
    if depth > S.MAX_DEPTH {
      return Err(S.TooDeep);
    }
    if |bytes| < 2 {
      return Err(S.Truncated(|bytes|));
    }
    var tag, first := bytes[0], bytes[1];
    if first == 0x80 {
      r := ReadIndefinite(tag, bytes[2..], depth);
      return;
    }
    var length, header := first as nat, 2;
    if first > 0x80 {
      var count := first as nat - 0x80;
      if count > 8 {
        return Err(S.LengthTooLarge);
      }
      if |bytes| < 2 + count {
        return Err(S.Truncated(2));
      }
      var raw := bytes[2..2 + count];
      length, header := 0, 2 + count;
      for i := 0 to count
        invariant length == S.BigEndian(raw[..i])
      {
        length := 0x100 * length + raw[i] as nat;
        assert raw[..i + 1][..i] == raw[..i];
      }
      assert raw[..count] == raw;
    }
    if |bytes| < header + length {
      return Err(S.Truncated(header));
    }
    return Ok(S.Tlv(tag, bytes[header..header + length], header + length));
  }

  method Expect(bytes: seq<byte>, tag: byte, depth: nat) returns (r: Result<S.Tlv, S.SpnegoError>)
    ensures r == S.Expect(bytes, tag, depth)
  {
    r := ReadTlv(bytes, depth);
    if r.Ok? && r.value.tag != tag {
      return Err(S.UnexpectedTag(tag, r.value.tag));
    }
  }

  /** The rest of a value of indefinite length: its contents, value by value. */
  method ReadIndefinite(tag: byte, body: seq<byte>, depth: nat) returns (r: Result<S.Tlv, S.SpnegoError>)
    ensures r == S.Scan(tag, body, 0, depth)
    decreases |body|, 1
  {
    var at := 0;
    while at + 2 <= |body|
      invariant at <= |body|
      invariant S.Scan(tag, body, at, depth) == S.Scan(tag, body, 0, depth)
      decreases |body| - at
    {
      if body[at] == 0 && body[at + 1] == 0 {
        return Ok(S.Tlv(tag, body[..at], 2 + at + 2));
      }
      r := ReadTlv(body[at..], depth + 1);
      if r.Err? {
        return;
      }
      at := at + r.value.consumed;
    }
    return Err(S.UnterminatedIndefinite);
  }

  /** Appends a tag-length-value: a length of 0x80 or more is the eight bytes of its
      word, less the leading zeros. */
  method PutTlv(out: seq<byte>, tag: byte, value: seq<byte>) returns (out': seq<byte>)
    requires |value| < S.WORD
    ensures out' == out + S.PutTlv(tag, value)
  {
    out' := out + [tag];
    var length := |value|;
    if length < 0x80 {
      out' := out' + [length as byte];
    } else {
      var significant := LengthBytes(length);
      S.SignificantFits(length, 8);
      out' := out' + [(0x80 + |significant|) as byte] + significant;
    }
    out' := out' + value;
  }

  /** The bytes of a length's word, from the first that is not zero. */
  method LengthBytes(length: nat) returns (significant: seq<byte>)
    requires 0 < length < S.WORD
    ensures significant == S.Significant(length)
  {
    var word := ToBigEndian(length);
    var leading := 0;
    while word[leading] == 0
      invariant leading < 8
      invariant S.BigEndian(word[leading..]) == length
      decreases 8 - leading
    {
      ZeroLeads(word[leading..]);
      assert word[leading..][1..] == word[leading + 1..];
      leading := leading + 1;
    }
    significant := word[leading..];
    NoZeroLeads(significant);
  }

  /** The eight bytes of a word. */
  method ToBigEndian(n: nat) returns (word: seq<byte>)
    requires n < S.WORD
    ensures |word| == 8 && S.BigEndian(word) == n
  {
    word := [];
    var rest: nat := n;
    for i := 0 to 8
      invariant |word| == i && rest * S.Power(i) + S.BigEndian(word) == n
      invariant rest < S.Power(8 - i)
    {
      NextByte(rest, word, 8 - i);
      word := [(rest % 0x100) as byte] + word;
      rest := rest / 0x100;
    }
  }

  lemma NextByte(rest: nat, word: seq<byte>, left: nat)
    requires left > 0 && rest < S.Power(left)
    ensures (rest / 0x100) * S.Power(|word| + 1) + S.BigEndian([(rest % 0x100) as byte] + word)
      == rest * S.Power(|word|) + S.BigEndian(word)
    ensures rest / 0x100 < S.Power(left - 1)
  {
    var high, low, p := rest / 0x100, rest % 0x100, S.Power(|word|);
    PrependBigEndian(low as byte, word);
    assert S.Power(|word| + 1) == 0x100 * p;
    SplitProduct(rest, high, low, p);
  }

  lemma SplitProduct(n: nat, high: nat, low: nat, p: nat)
    requires n == 0x100 * high + low
    ensures n * p == high * (0x100 * p) + low * p
  {
  }

  lemma {:induction false} PrependBigEndian(b: byte, raw: seq<byte>)
    ensures S.BigEndian([b] + raw) == b as int * S.Power(|raw|) + S.BigEndian(raw)
  {
    if |raw| == 0 {
      assert [b] + raw == [b];
    } else {
      var most, last := raw[..|raw| - 1], raw[|raw| - 1];
      PrependBigEndian(b, most);
      assert ([b] + raw)[..|raw|] == [b] + most;
    }
  }

  lemma ZeroLeads(raw: seq<byte>)
    requires |raw| > 0 && raw[0] == 0
    ensures S.BigEndian(raw[1..]) == S.BigEndian(raw)
  {
    assert raw == [0] + raw[1..];
    PrependBigEndian(0, raw[1..]);
  }

  lemma {:induction false} NoZeroLeads(raw: seq<byte>)
    requires |raw| > 0 && raw[0] != 0
    ensures S.Significant(S.BigEndian(raw)) == raw
  {
    if |raw| == 1 {
      assert raw[..0] == [];
    } else {
      var most, last := raw[..|raw| - 1], raw[|raw| - 1];
      NoZeroLeads(most);
      assert raw == most + [last];
    }
  }

  /** The `responseToken` of the token a server answers with. */
  method ResponseToken(token: seq<byte>) returns (r: Result<seq<byte>, S.SpnegoError>)
    ensures r == S.ResponseToken(token)
  {
    var outer := ReadTlv(token, 0);
    if outer.Err? {
      return Err(outer.error);
    }
    var body := token;
    if outer.value.tag == S.TAG_APPLICATION_0 {
      var oid := Expect(outer.value.value, S.TAG_OID, 1);
      if oid.Err? {
        return Err(oid.error);
      }
      body := outer.value.value[oid.value.consumed..];
    }
    var negotiation := Expect(body, S.TAG_CONTEXT_1, 1);
    if negotiation.Err? {
      return Err(negotiation.error);
    }
    var sequence := Expect(negotiation.value.value, S.TAG_SEQUENCE, 2);
    if sequence.Err? {
      return Err(sequence.error);
    }
    var rest := sequence.value.value;
    while |rest| > 0
      invariant S.FindToken(rest) == S.ResponseToken(token)
      decreases |rest|
    {
      var field := ReadTlv(rest, 3);
      if field.Err? {
        return Err(field.error);
      }
      if field.value.tag == S.TAG_CONTEXT_2 {
        var octets := Expect(field.value.value, S.TAG_OCTET_STRING, 4);
        if octets.Err? {
          return Err(octets.error);
        }
        return Ok(octets.value.value);
      }
      if !S.IsField(field.value.tag) {
        return Err(S.UnexpectedTag(S.TAG_CONTEXT_2, field.value.tag));
      }
      rest := rest[field.value.consumed..];
    }
    return Err(S.NoResponseToken);
  }
}
