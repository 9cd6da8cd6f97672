/** SPNEGO tokens (section 4.2 of RFC 4178): definite, minimal DER out, lenient
    BER in (sections 8.1.3 and 10.1 of ITU-T X.690). */
module Spnego {
  import opened Wrappers

  const TAG_APPLICATION_0: byte := 0x60
  const TAG_OID: byte := 0x06
  const TAG_OCTET_STRING: byte := 0x04
  const TAG_SEQUENCE: byte := 0x30
  const TAG_CONTEXT_0: byte := 0xA0
  const TAG_CONTEXT_1: byte := 0xA1
  const TAG_CONTEXT_2: byte := 0xA2
  const TAG_CONTEXT_3: byte := 0xA3

  const MAX_DEPTH := 16

  /** One more than the longest length a machine word holds. */
  const WORD := 0x1_0000_0000_0000_0000

  datatype SpnegoError =
    | Truncated(at: nat)
    | LengthTooLarge
    | UnexpectedTag(expected: byte, actual: byte)
    | UnterminatedIndefinite
    | TooDeep
    | NoResponseToken

  datatype Tlv = Tlv(tag: byte, value: seq<byte>, consumed: nat)

  // ---- Reading ----

  function BigEndian(raw: seq<byte>): nat {
    if |raw| == 0 then 0 else 0x100 * BigEndian(raw[..|raw| - 1]) + raw[|raw| - 1] as int
  }

  /** A definite length: how long the value is, and where it begins. */
  function ReadLength(bytes: seq<byte>): (r: Result<(nat, nat), SpnegoError>)
    requires |bytes| >= 2
    ensures r.Ok? ==> 2 <= r.value.1 <= |bytes|
  {
    if bytes[1] < 0x80 then Ok((bytes[1] as nat, 2))
    else
      var count := bytes[1] as nat - 0x80;
      if count == 0 || count > 8 then Err(LengthTooLarge)
      else if |bytes| < 2 + count then Err(Truncated(2))
      else Ok((BigEndian(bytes[2..2 + count]), 2 + count))
  }

  /** Reads one tag-length-value, of definite or indefinite length. */
  function ReadTlv(bytes: seq<byte>, depth: nat): (r: Result<Tlv, SpnegoError>)
    ensures r.Ok? ==> 2 <= r.value.consumed <= |bytes|
    decreases |bytes|, 0
  {
    if depth > MAX_DEPTH then Err(TooDeep)
    else if |bytes| < 2 then Err(Truncated(|bytes|))
    else if bytes[1] == 0x80 then Scan(bytes[0], bytes[2..], 0, depth)
    else
      var length := ReadLength(bytes);
      if length.Err? then Err(length.error)
      else
        var end := length.value.1 + length.value.0;
        if |bytes| < end then Err(Truncated(length.value.1))
        else Ok(Tlv(bytes[0], bytes[length.value.1..end], end))
  }

  /** The rest of a value of indefinite length, `at` bytes of it in: nested values,
      until two zero octets stand where one would begin. */
  function Scan(tag: byte, body: seq<byte>, at: nat, depth: nat): (r: Result<Tlv, SpnegoError>)
    requires at <= |body|
    ensures r.Ok? ==> 2 <= r.value.consumed <= |body| + 2
    decreases |body| + 1, |body| - at
  {
    if at + 2 > |body| then Err(UnterminatedIndefinite)
    else if body[at] == 0 && body[at + 1] == 0 then Ok(Tlv(tag, body[..at], 2 + at + 2))
    else
      var inner := ReadTlv(body[at..], depth + 1);
      if inner.Err? then inner else Scan(tag, body, at + inner.value.consumed, depth)
  }

  /** Reads one value, which must bear `tag`. */
  function Expect(bytes: seq<byte>, tag: byte, depth: nat): (r: Result<Tlv, SpnegoError>)
    ensures r.Ok? ==> r.value.tag == tag && 2 <= r.value.consumed <= |bytes|
  {
    var tlv := ReadTlv(bytes, depth);
    if tlv.Ok? && tlv.value.tag != tag then Err(UnexpectedTag(tag, tlv.value.tag)) else tlv
  }

  /** The `responseToken` of the fields that are left. */
  function FindToken(rest: seq<byte>): Result<seq<byte>, SpnegoError>
    decreases |rest|
  {
    if |rest| == 0 then Err(NoResponseToken)
    else
      var field := ReadTlv(rest, 3);
      if field.Err? then Err(field.error)
      else if field.value.tag == TAG_CONTEXT_2 then
        var octets := Expect(field.value.value, TAG_OCTET_STRING, 4);
        if octets.Err? then Err(octets.error) else Ok(octets.value.value)
      else if !IsField(field.value.tag) then Err(UnexpectedTag(TAG_CONTEXT_2, field.value.tag))
      else FindToken(rest[field.value.consumed..])
  }

  predicate IsField(tag: byte) {
    tag == TAG_CONTEXT_0 || tag == TAG_CONTEXT_1 || tag == TAG_CONTEXT_2 || tag == TAG_CONTEXT_3
  }

  /** The `responseToken` of a `NegTokenResp`. */
  function FromBody(body: seq<byte>): Result<seq<byte>, SpnegoError> {
    var negotiation := Expect(body, TAG_CONTEXT_1, 1);
    if negotiation.Err? then Err(negotiation.error)
    else
      var sequence := Expect(negotiation.value.value, TAG_SEQUENCE, 2);
      if sequence.Err? then Err(sequence.error) else FindToken(sequence.value.value)
  }

  /** The `responseToken` of the token a server answers with, in a GSS-API wrapper
      or without. */
  function ResponseToken(token: seq<byte>): Result<seq<byte>, SpnegoError> {
    var outer := ReadTlv(token, 0);
    if outer.Err? then Err(outer.error)
    else if outer.value.tag == TAG_APPLICATION_0 then
      var oid := Expect(outer.value.value, TAG_OID, 1);
      if oid.Err? then Err(oid.error) else FromBody(outer.value.value[oid.value.consumed..])
    else FromBody(token)
  }

  // ---- Writing ----

  /** The shortest big-endian form of a number. */
  function Significant(n: nat): seq<byte> {
    if n == 0 then [] else Significant(n / 0x100) + [(n % 0x100) as byte]
  }

  function PutLength(length: nat): seq<byte>
    requires length < WORD
  {
    if length < 0x80 then [length as byte]
    else
      SignificantFits(length, 8);
      [(0x80 + |Significant(length)|) as byte] + Significant(length)
  }

  /** A tag-length-value in DER. */
  function PutTlv(tag: byte, value: seq<byte>): seq<byte>
    requires |value| < WORD
  {
    [tag] + PutLength(|value|) + value
  }

  /** The bytes a word of `n` bytes can hold. */
  function Power(n: nat): (p: nat)
    ensures p > 0
  {
    if n == 0 then 1 else 0x100 * Power(n - 1)
  }

  lemma {:induction false} SignificantFits(n: nat, width: nat)
    requires width <= 8 && n < Power(width)
    ensures |Significant(n)| <= width
  {
    if n > 0 {
      SignificantFits(n / 0x100, width - 1);
    }
  }

  /** The `NegTokenResp` the client sends. */
  function NegTokenResp(token: seq<byte>, mic: seq<byte>): seq<byte>
    requires |token| + |mic| + 128 < WORD
  {
    LengthIsShort(|token|);
    LengthIsShort(|mic|);
    var octets := PutTlv(TAG_OCTET_STRING, token);
    var check := PutTlv(TAG_OCTET_STRING, mic);
    LengthIsShort(|octets|);
    LengthIsShort(|check|);
    var fields := PutTlv(TAG_CONTEXT_2, octets) + PutTlv(TAG_CONTEXT_3, check);
    LengthIsShort(|fields|);
    PutTlv(TAG_CONTEXT_1, PutTlv(TAG_SEQUENCE, fields))
  }

  lemma LengthIsShort(length: nat)
    requires length < WORD
    ensures 1 <= |PutLength(length)| <= 9
  {
    if length >= 0x80 {
      SignificantFits(length, 8);
    }
  }
}
