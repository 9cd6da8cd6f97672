/** Reads and writes of an open file, as callers make them: a span is filled or
    written whole, or the call fails and says how far it got. */
module Files {
  import opened Wrappers
  import opened Transfer
  import C = Coverage
  import I = InPlaceProgress
  import P = Progress
  import R = ReadLoop
  import W = WriteLoop

  /** How deep a call pipelines: only a large one does. */
  function Depth(length: nat, threshold: nat): (depth: nat)
    ensures depth == if length < threshold then 1 else 4
  {
    if length >= threshold then PIPELINE_DEPTH else 1
  }

  class File {
    const conn: Connection
    /** The length as last observed: a hint, which no read is held to. */
    var len: nat

    constructor (conn: Connection, len: nat)
      ensures this.conn == conn && this.len == len
    {
      this.conn, this.len := conn, len;
    }

    /** Success means that each byte of the buffer is one that some answer gave. An
        unfilled span is reported by the first stretch no answer gave, which takes
        an answer that put the end of the file before it. */
    method ReadExactAt(buffer: array<byte>, offset: nat, server: nat -> R.Turn, others: nat -> bool)
      returns (r: Result<(), IoError>, ghost log: seq<R.Exchange>)
      requires conn.Valid()
      modifies conn, buffer
      ensures R.AskedRight(log, offset, buffer.Length)
      ensures |log| <= buffer.Length + if buffer.Length < 131_072 then 1 else 4
      ensures r.Ok? ==> R.Sourced(log, C.Span(0, buffer.Length), buffer[..], old(buffer[..]))
      ensures r.Err? && r.error.UnfilledSpan? ==>
        && R.SomeEnd(log)
        && Unfilled(log, buffer.Length, r.error.at, r.error.at + r.error.length)
      ensures r.Ok? || r.error.UnfilledSpan? || R.FailsAsAnswered(log, Some(r.error))
    {
      var wanted := buffer.Length;
      var span;
      ghost var heard;
      span, log, heard := R.ReadSpan(conn, buffer, offset, Depth(wanted, READ_PIPELINE_THRESHOLD), server, others);
      if span.Err? {
        return Err(span.error), log;
      }
      var gap := span.value.covered.Gap(wanted);
      if gap.None? {
        CoversTheSpan(log, span.value.covered.Covered(), buffer[..], old(buffer[..]));
        return Ok(()), log;
      }
      GapIsUnfilled(log, span.value.covered.Covered(), buffer[..], old(buffer[..]), gap.value);
      return Err(UnfilledSpan(gap.value.from, gap.value.to - gap.value.from)), log;
    }

    /** Reads the whole file. A short far end is the end of the file; a hole with
        given bytes beyond it is an error. */
    method ReadToEnd(server: nat -> R.Turn, others: nat -> bool)
      returns (r: Result<seq<byte>, IoError>, ghost log: seq<R.Exchange>)
      requires conn.Valid()
      modifies conn
      ensures R.AskedRight(log, 0, len) && |log| <= len + if len < 131_072 then 1 else 4
      ensures r.Ok? ==>
        && |r.value| <= len && (|r.value| < len ==> R.SomeEnd(log))
        && (forall k, p :: R.GivesAt(log, k, p) ==>
              p < |r.value| && r.value[p] == log[k].Given()[p - log[k].start])
        && (forall p :: 0 <= p < |r.value| ==> R.Given(log, p))
      ensures r.Err? && r.error.UnfilledSpan? ==>
        Unfilled(log, len, r.error.at, r.error.at + r.error.length) && R.Given(log, r.error.at + r.error.length)
      ensures r.Ok? || r.error.UnfilledSpan? || R.FailsAsAnswered(log, Some(r.error))
    {
      var buffer := new byte[len];
      ghost var was := buffer[..];
      var span;
      ghost var heard;
      span, log, heard := R.ReadSpan(conn, buffer, 0, Depth(len, READ_PIPELINE_THRESHOLD), server, others);
      if span.Err? {
        return Err(span.error), log;
      }
      ghost var covered;
      var prefix, hole;
      prefix, hole, covered := Extent(span.value.covered, len);
      if hole.Some? {
        GapIsUnfilled(log, covered, buffer[..], was, hole.value);
        return Err(UnfilledSpan(hole.value.from, hole.value.to - hole.value.from)), log;
      }
      NoHole(log, covered, buffer[..], was, prefix);
      return Ok(buffer[..prefix]), log;
    }

    /** Success means that some answer acknowledged each byte. A failure carries a
        number of first bytes, each of which some answer acknowledged. A handle the
        caller gave is closed to further writes: its prefix is final, and the same
        number. */
    method WriteAllAt(data: seq<byte>, offset: nat, handle: I.WriteProgress?,
                      server: nat -> W.Turn, others: nat -> bool)
      returns (r: Result<(), IoError>, ghost log: seq<W.Exchange>)
      requires conn.Valid() && (handle != null ==> handle.Valid())
      modifies conn, this`len, if handle == null then {} else {handle, handle.covered}
      ensures W.SentRight(log, offset, data) && (handle != null ==> handle.Valid())
      ensures handle != null && old(handle.registered) ==>
        r == Err(ProgressInUse) && log == [] && len == old(len) && handle.State() == old(handle.State())
      ensures !(handle != null && old(handle.registered)) ==>
        && (r.Ok? || r.error.WritePartial?)
        && W.FailsAsAnswered(log, if r.Ok? then None else Some(r.error.source), if |data| < 262_144 then 1 else 4)
        && (forall p :: 0 <= p < (if r.Ok? then |data| else r.error.written) ==> W.Acked(log, p))
        && len == (if r.Ok? && old(len) < offset + |data| then offset + |data| else old(len))
      ensures handle != null && !old(handle.registered) ==>
        handle.finalPrefix == Some(if r.Ok? then |data| else r.error.written)
    {
      log := [];
      var progress := handle;
      if progress == null {
        progress := new I.WriteProgress();
      }
      ghost var was := progress.State();
      var registered := progress.Register(offset);
      if !registered {
        return Err(ProgressInUse), log;
      }
      assert P.Live(was.tickets) == {};
      r, log := WriteRegistered(data, offset, progress, server, others);
      if r.Ok? && len < offset + |data| {
        len := offset + |data|;
      }
    }

    /** The write itself, and the end of its issuing. */
    method WriteRegistered(data: seq<byte>, offset: nat, progress: I.WriteProgress,
                           server: nat -> W.Turn, others: nat -> bool)
      returns (r: Result<(), IoError>, ghost log: seq<W.Exchange>)
      requires conn.Valid() && progress.Valid() && progress.issuing
      requires progress.base == offset && progress.outstanding == 0 && progress.covered.Covered() == {}
      modifies conn, progress, progress.covered
      ensures progress.Valid() && W.SentRight(log, offset, data)
      ensures r.Ok? || r.error.WritePartial?
      ensures W.FailsAsAnswered(log, if r.Ok? then None else Some(r.error.source), if |data| < 262_144 then 1 else 4)
      ensures progress.finalPrefix == Some(if r.Ok? then |data| else r.error.written)
      ensures forall p :: 0 <= p < progress.finalPrefix.value ==> W.Acked(log, p)
    {
      ghost var acked, heard;
      var depth := Depth(|data|, WRITE_PIPELINE_THRESHOLD);
      r, log, acked, heard := W.WriteSpan(conn, data, offset, depth, progress, server, others);
      ghost var s := progress.State();
      HandleAfter(log, acked, old(progress.State()), s, offset, |data|);
      if r.Err? {
        C.PrefixIsUnique(s.covered, r.error.written);
      }
      progress.DropIssuing();
    }
  }

  /** The stretch `from .. to` is the first of the span that no answer gave. */
  ghost predicate Unfilled(log: seq<R.Exchange>, length: nat, from: int, to: int) {
    && 0 <= from < to <= length
    && (forall p :: 0 <= p < from ==> R.Given(log, p))
    && (forall p :: from <= p < to ==> !R.Given(log, p))
    && (to < length ==> R.Given(log, to))
  }

  lemma CoversTheSpan(log: seq<R.Exchange>, covered: set<int>, buffer: seq<byte>, was: seq<byte>)
    requires R.Sourced(log, covered, buffer, was)
    requires |buffer| > 0 ==> C.Span(0, |buffer|) <= covered
    ensures R.Sourced(log, C.Span(0, |buffer|), buffer, was)
  {
    assert covered == C.Span(0, |buffer|);
  }

  lemma GapIsUnfilled(log: seq<R.Exchange>, covered: set<int>, buffer: seq<byte>, was: seq<byte>, gap: C.Range)
    requires R.Sourced(log, covered, buffer, was)
    requires gap.from < gap.to <= |buffer| && C.Span(0, gap.from) <= covered
    requires C.Span(gap.from, gap.to) !! covered && (gap.to < |buffer| ==> gap.to in covered)
    ensures Unfilled(log, |buffer|, gap.from, gap.to)
    ensures covered != C.Span(0, |buffer|)
  {
    assert gap.from in C.Span(gap.from, gap.to) && gap.from in C.Span(0, |buffer|);
    forall p | gap.from <= p < gap.to
      ensures !R.Given(log, p)
    {
      assert p in C.Span(gap.from, gap.to);
    }
    forall p | 0 <= p < gap.from
      ensures R.Given(log, p)
    {
      assert p in C.Span(0, gap.from);
    }
  }

  /** The prefix of a span, and the first stretch of it not covered that has
      something covered after it. */
  method Extent(c: C.Coverage, total: nat) returns (prefix: nat, hole: Option<C.Range>, ghost covered: set<int>)
    requires c.Valid()
    ensures covered == old(c.Covered())
    ensures C.Span(0, prefix) <= covered && prefix !in covered
    ensures hole.None? && total > 0 ==> C.Span(prefix, total) !! covered
    ensures hole.Some? ==>
      && hole.value.from < hole.value.to < total && C.Span(0, hole.value.from) <= covered
      && C.Span(hole.value.from, hole.value.to) !! covered && hole.value.to in covered
  {
    covered := c.Covered();
    prefix := c.Prefix();
    var gap := c.Gap(total);
    if gap.Some? && gap.value.to < total {
      return prefix, gap, covered;
    }
    if total > 0 && gap.Some? {
      var from := gap.value.from;
      assert from in C.Span(from, gap.value.to);
      assert prefix < from ==> prefix in C.Span(0, from);
    }
    return prefix, None, covered;
  }

  /** What is covered is the prefix when nothing past its end is. */
  lemma NoHole(log: seq<R.Exchange>, covered: set<int>, buffer: seq<byte>, was: seq<byte>, prefix: nat)
    requires R.Sourced(log, covered, buffer, was)
    requires C.Span(0, prefix) <= covered && (|buffer| > 0 ==> C.Span(prefix, |buffer|) !! covered)
    ensures prefix <= |buffer| && covered == C.Span(0, prefix)
    ensures forall k, p :: R.GivesAt(log, k, p) ==> p < prefix && buffer[p] == log[k].Given()[p - log[k].start]
    ensures forall p :: 0 <= p < prefix ==> R.Given(log, p)
  {
    if prefix > 0 {
      assert prefix - 1 in C.Span(0, prefix);
    }
    assert covered == C.Span(0, prefix);
    forall p | 0 <= p < prefix
      ensures R.Given(log, p)
    {
      assert p in C.Span(0, prefix);
    }
  }

  lemma NothingButAcked(log: seq<W.Exchange>, acked: set<int>, covered: set<int>, length: nat)
    requires W.Adds({}, covered, acked, 0, length) && W.Taken(log, acked)
    ensures forall p :: 0 <= p < C.PrefixOf(covered) ==> W.Acked(log, p)
    ensures acked == C.Span(0, length) ==> C.PrefixOf(covered) == length
  {
    var none: set<int> := {};
    assert none !! C.Span(0, length);
    assert acked == W.Shifted(acked, 0) <= covered;
    assert covered == acked;
    forall p | 0 <= p < C.PrefixOf(covered)
      ensures W.Acked(log, p)
    {
      assert p in C.Span(0, C.PrefixOf(covered));
    }
    if acked == C.Span(0, length) {
      C.PrefixIsUnique(covered, length);
    }
  }

  /** What the end of issuing does to a handle with no chunk out. */
  lemma StoppedFreezes(s: P.State)
    requires P.Sound(s) && s.issuing && s.outstanding == 0
    ensures P.Stopped(s).finalPrefix == Some(C.PrefixOf(s.covered))
  {
    P.NextKeepsSound(s, P.ClearIssuing);
  }

  /** What a write leaves a handle it registered with, once it stops issuing. */
  lemma HandleAfter(log: seq<W.Exchange>, acked: set<int>, was: P.State, s: P.State, offset: nat, length: nat)
    requires was.base == offset && was.covered == {} && was.outstanding == 0
    requires P.Sound(s) && W.Leaves(was, s, log, acked, offset, length) && W.Taken(log, acked)
    ensures P.Stopped(s).finalPrefix == Some(C.PrefixOf(s.covered))
    ensures forall p :: 0 <= p < C.PrefixOf(s.covered) ==> W.Acked(log, p)
    ensures acked == C.Span(0, length) ==> C.PrefixOf(s.covered) == length
  {
    NothingButAcked(log, acked, s.covered, length);
    StoppedFreezes(s);
  }
}
