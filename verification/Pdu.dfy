/** Splitting a pipe's byte stream into connection-oriented PDUs (section 12.6 of
    DCE 1.1 RPC, C706) and assembling the reply they carry. */
module Pdu {
  import opened Wrappers

  const HEADER_LEN := 16
  const RESPONSE_PROLOGUE := 8
  const STUB_CAP := 8 * 1_024 * 1_024
  const MAX_FRAGMENT := 4_280
  const PDU_CAP := STUB_CAP / (MAX_FRAGMENT - HEADER_LEN - RESPONSE_PROLOGUE) + 1

  const RESPONSE: byte := 0x02
  const FAULT: byte := 0x03

  datatype PduError =
    | Version(major: byte, minor: byte)
    | DataRepresentation(drep: seq<byte>)
    | FragmentLengthTooSmall(length: nat)
    | UnexpectedType(expected: byte, actual: byte)
    | CallId(expectedId: nat, actualId: nat)
    | NotFirstFragment
    | NoLastFragment(pdus: nat)
    | TooManyFragments
    | StubTooLarge
    | Truncated(needed: nat, length: nat)
    | Fault(status: nat)

  // ---- Reading little-endian fields ----

  function Read16(bytes: seq<byte>, at: nat): (n: nat)
    requires at + 2 <= |bytes|
    ensures n <= 0xFFFF
  {
    bytes[at] as int + 0x100 * bytes[at + 1] as int
  }

  function Read32(bytes: seq<byte>, at: nat): nat
    requires at + 4 <= |bytes|
  {
    Read16(bytes, at) + 0x1_0000 * Read16(bytes, at + 2)
  }

  predicate First(flags: byte) { flags % 2 == 1 }

  predicate Last(flags: byte) { flags / 2 % 2 == 1 }

  // ---- The stream of PDUs ----

  datatype Split =
    | Starved
    | Short(length: nat)
    | Whole(pdu: seq<byte>, rest: seq<byte>)

  /** The next whole PDU of what is pending. */
  function Next(pending: seq<byte>): (s: Split)
    ensures s.Whole? ==> |s.pdu| >= HEADER_LEN && pending == s.pdu + s.rest
  {
    if |pending| < HEADER_LEN then Starved
    else
      var length := Read16(pending, 8);
      if length < HEADER_LEN then Short(length)
      else if |pending| < length then Starved
      else Whole(pending[..length], pending[length..])
  }

  // ---- One reply ----

  datatype Header = Header(ptype: byte, flags: byte, callId: nat)

  function Parse(pdu: seq<byte>): Result<Header, PduError> {
    if |pdu| < HEADER_LEN then Err(Truncated(HEADER_LEN, |pdu|))
    else if (pdu[0], pdu[1]) != (5, 0) then Err(Version(pdu[0], pdu[1]))
    else if pdu[4..8] != [0x10, 0x00, 0x00, 0x00] then Err(DataRepresentation(pdu[4..8]))
    else Ok(Header(pdu[2], pdu[3], Read32(pdu, 12)))
  }

  /** How much of a PDU's body comes before its share of the payload. */
  function Prologue(ptype: byte): nat {
    if ptype == RESPONSE then RESPONSE_PROLOGUE else 0
  }

  function FaultStatus(pdu: seq<byte>): nat {
    if |pdu| < HEADER_LEN + 12 then 0 else Read32(pdu, HEADER_LEN + 8)
  }

  /** What has been collected of the reply to call `callId`. */
  datatype Collected = Collected(callId: nat, ptype: Option<byte>, payload: seq<byte>, pdus: nat, complete: bool)

  function New(callId: nat): Collected {
    Collected(callId, None, [], 0, false)
  }

  datatype Step = Step(state: Collected, error: Option<PduError>)

  /** Takes one PDU: what it leaves collected, and what it fails with. */
  function Accept(c: Collected, pdu: seq<byte>): Step {
    if c.complete then Step(c, None)
    else
      var header := Parse(pdu);
      if header.Err? then Step(c, Some(header.error))
      else if header.value.callId != c.callId then Step(c, Some(CallId(c.callId, header.value.callId)))
      else if header.value.ptype == FAULT then Step(c, Some(Fault(FaultStatus(pdu))))
      else if c.ptype.None? && !First(header.value.flags) then Step(c, Some(NotFirstFragment))
      else if c.ptype.Some? && c.ptype.value != header.value.ptype then
        Step(c, Some(UnexpectedType(c.ptype.value, header.value.ptype)))
      else Append(c.(ptype := Some(header.value.ptype), pdus := c.pdus + 1), header.value, pdu)
  }

  /** Adds a PDU that belongs to the reply to its payload. */
  function Append(c: Collected, header: Header, pdu: seq<byte>): Step {
    var from := HEADER_LEN + Prologue(header.ptype);
    if c.pdus > PDU_CAP then Step(c, Some(TooManyFragments))
    else if |pdu| < from then Step(c, Some(Truncated(from, |pdu|)))
    else if |c.payload| + |pdu| - from > STUB_CAP then Step(c, Some(StubTooLarge))
    else Step(c.(payload := c.payload + pdu[from..], complete := Last(header.flags)), None)
  }

  /** A collector: what it has collected, and what it has been fed and not yet
      taken a PDU out of. */
  datatype State = State(collected: Collected, pending: seq<byte>)

  datatype Outcome = Outcome(state: State, error: Option<PduError>)

  /** Takes every whole PDU out of what is pending, up to the first that fails. */
  function Drain(s: State): Outcome
    decreases |s.pending|
  {
    match Next(s.pending)
    case Starved => Outcome(s, None)
    case Short(length) => Outcome(s, Some(FragmentLengthTooSmall(length)))
    case Whole(pdu, rest) =>
      var step := Accept(s.collected, pdu);
      if step.error.Some? then Outcome(State(step.state, rest), step.error)
      else Drain(State(step.state, rest))
  }

  function Feed(s: State, bytes: seq<byte>): Outcome {
    Drain(s.(pending := s.pending + bytes))
  }

  datatype Answer = Answer(ptype: byte, payload: seq<byte>)

  function Finish(c: Collected): Result<Answer, PduError> {
    if c.ptype.Some? && c.complete then Ok(Answer(c.ptype.value, c.payload))
    else Err(NoLastFragment(c.pdus))
  }

  /** Feeds a collector piece by piece, up to the first failure. */
  function FeedAll(s: State, chunks: seq<seq<byte>>): Outcome
    decreases |chunks|
  {
    if chunks == [] then Outcome(s, None)
    else
      var fed := Feed(s, chunks[0]);
      if fed.error.Some? then fed else FeedAll(fed.state, chunks[1..])
  }

  /** What a collector makes of all it is fed. */
  function Collect(callId: nat, chunks: seq<seq<byte>>): Result<Answer, PduError> {
    var fed := FeedAll(State(New(callId), []), chunks);
    if fed.error.Some? then Err(fed.error.value) else Finish(fed.state.collected)
  }

  /** The pipe's read loop, over what each of its reads gives: it stops once the
      reply is complete, and at a read that gives nothing. There is nothing to read
      past what is listed. */
  function Fill(s: State, given: seq<seq<byte>>): Outcome
    decreases |given|
  {
    if s.collected.complete || |given| == 0 || |given[0]| == 0 then Outcome(s, None)
    else
      var fed := Feed(s, given[0]);
      if fed.error.Some? then fed else Fill(fed.state, given[1..])
  }

  /** The reply to a call, out of the reads of the pipe. */
  function Fetch(callId: nat, given: seq<seq<byte>>): Result<Answer, PduError> {
    var filled := Fill(State(New(callId), []), given);
    if filled.error.Some? then Err(filled.error.value) else Finish(filled.state.collected)
  }

  function Flatten(parts: seq<seq<byte>>): seq<byte> {
    if parts == [] then [] else parts[0] + Flatten(parts[1..])
  }
}
