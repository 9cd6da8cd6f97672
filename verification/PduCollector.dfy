/** The collector as the pipe's read loop holds it: a stream whose pending bytes
    are taken from in place, and the reply collected so far. */
module InPlacePdu {
  import opened Wrappers
  import P = Pdu

  class PduStream {
    var pending: seq<byte>

    constructor ()
      ensures pending == []
    {
      pending := [];
    }

    /** Adds what the pipe delivered. */
    method Push(bytes: seq<byte>)
      modifies this
      ensures pending == old(pending) + bytes
    {
      pending := pending + bytes;
    }

    /** Splits one PDU off the pending bytes, which stay as they were if there is no
        whole one or its length is too small. */
    method Next() returns (r: Result<Option<seq<byte>>, P.PduError>)
      modifies this
      ensures match P.Next(old(pending))
        case Starved => r == Ok(None) && pending == old(pending)
        case Short(length) => r == Err(P.FragmentLengthTooSmall(length)) && pending == old(pending)
        case Whole(pdu, rest) => r == Ok(Some(pdu)) && pending == rest
    {
      if |pending| < P.HEADER_LEN {
        return Ok(None);
      }
      var length := P.Read16(pending, 8);
      if length < P.HEADER_LEN {
        return Err(P.FragmentLengthTooSmall(length));
      }
      if |pending| < length {
        return Ok(None);
      }
      var pdu := pending[..length];
      pending := pending[length..];
      return Ok(Some(pdu));
    }
  }

  class Collector {
    const stream: PduStream
    const callId: nat
    var ptype: Option<byte>
    var payload: seq<byte>
    var pdus: nat
    var complete: bool

    function Collected(): P.Collected
      reads this
    {
      P.Collected(callId, ptype, payload, pdus, complete)
    }

    function State(): P.State
      reads this, stream
    {
      P.State(Collected(), stream.pending)
    }

    constructor (callId: nat)
      ensures fresh(stream) && State() == P.State(P.New(callId), [])
    {
      stream := new PduStream();
      this.callId, ptype, payload, pdus, complete := callId, None, [], 0, false;
    }

    /** Appends `bytes` and drains, up to the first PDU that fails. */
    method Feed(bytes: seq<byte>) returns (error: Option<P.PduError>)
      modifies this, stream
      ensures P.Outcome(State(), error) == P.Feed(old(State()), bytes)
    {
      stream.Push(bytes);
      ghost var fed := State();
      while true
        invariant P.Drain(State()) == P.Drain(fed)
        decreases |stream.pending|
      {
        var next := stream.Next();
        if next.Err? {
          return Some(next.error);
        }
        if next.value.None? {
          return None;
        }
        error := Accept(next.value.value);
        if error.Some? {
          return;
        }
      }
    }

    /** Takes one PDU. */
    method Accept(pdu: seq<byte>) returns (error: Option<P.PduError>)
      modifies this
      ensures P.Step(Collected(), error) == P.Accept(old(Collected()), pdu)
    {
      if complete {
        return None;
      }
      var header := P.Parse(pdu);
      if header.Err? {
        return Some(header.error);
      }
      if header.value.callId != callId {
        return Some(P.CallId(callId, header.value.callId));
      }
      if header.value.ptype == P.FAULT {
        return Some(P.Fault(P.FaultStatus(pdu)));
      }
      if ptype.None? {
        if !P.First(header.value.flags) {
          return Some(P.NotFirstFragment);
        }
        ptype := Some(header.value.ptype);
      } else if ptype.value != header.value.ptype {
        return Some(P.UnexpectedType(ptype.value, header.value.ptype));
      }
      pdus := pdus + 1;
      if pdus > P.PDU_CAP {
        return Some(P.TooManyFragments);
      }
      var from := P.HEADER_LEN + P.Prologue(header.value.ptype);
      if |pdu| < from {
        return Some(P.Truncated(from, |pdu|));
      }
      if |payload| + |pdu| - from > P.STUB_CAP {
        return Some(P.StubTooLarge);
      }
      payload := payload + pdu[from..];
      complete := P.Last(header.value.flags);
      return None;
    }

    /** The assembled reply. */
    method Finish() returns (r: Result<P.Answer, P.PduError>)
      ensures r == P.Finish(Collected())
    {
      if ptype.Some? && complete {
        return Ok(P.Answer(ptype.value, payload));
      }
      return Err(P.NoLastFragment(pdus));
    }
  }
}
