/** The pipe's read loop as it runs: one collector, updated in place, and a server
    that may answer any read with anything. */
module InPlacePipe {
  import opened Wrappers
  import opened PipeProofs
  import I = InPlacePdu
  import P = Pdu

  /** What the first `n` reads of the pipe give. */
  function Given(pipe: nat -> seq<byte>, n: nat): (given: seq<seq<byte>>)
    ensures |given| == n && forall k :: 0 <= k < n ==> given[k] == pipe(k)
  {
    seq(n, k requires 0 <= k => pipe(k))
  }

  lemma GivenMore(pipe: nat -> seq<byte>, n: nat)
    ensures Given(pipe, n + 1) == Given(pipe, n) + [pipe(n)]
  {
  }

  /** What the loop has done by the time it has read `n` times from state `s`. */
  ghost predicate HasRead(s: P.State, fed: P.Outcome, pipe: nat -> seq<byte>, n: nat) {
    P.FeedAll(s, Given(pipe, n)) == fed && ReadsOn(s, Given(pipe, n), n)
  }

  lemma ReadsMore(s: P.State, now: P.State, pipe: nat -> seq<byte>, n: nat)
    requires HasRead(s, P.Outcome(now, None), pipe, n) && !now.collected.complete && |pipe(n)| > 0
    ensures HasRead(s, P.Feed(now, pipe(n)), pipe, n + 1)
  {
    GivenMore(pipe, n);
    ReadsOnMore(s, Given(pipe, n), pipe(n));
  }

  /** A collector that has failed, is complete or is given nothing is where the loop
      stops. */
  lemma StopsHere(s: P.State, fed: P.Outcome, pipe: nat -> seq<byte>, n: nat)
    requires HasRead(s, fed, pipe, n)
    requires fed.error.Some? || fed.state.collected.complete || |pipe(n)| == 0
    ensures StopsAt(s, Given(pipe, n + 1), n) && P.Fill(s, Given(pipe, n + 1)) == fed
  {
    GivenMore(pipe, n);
    ReadsOnMore(s, Given(pipe, n), pipe(n));
    FillFeeds(s, Given(pipe, n + 1), n);
  }

  /** One read that gave something. */
  method Take(collector: I.Collector, data: seq<byte>, ghost s: P.State, ghost pipe: nat -> seq<byte>, ghost n: nat)
    returns (error: Option<P.PduError>)
    requires Sound(collector.State()) && !collector.complete && data == pipe(n) && |data| > 0
    requires HasRead(s, P.Outcome(collector.State(), None), pipe, n)
    modifies collector, collector.stream
    ensures HasRead(s, P.Outcome(collector.State(), error), pipe, n + 1)
    ensures error.None? ==> Sound(collector.State())
    ensures error.None? && !collector.complete ==> Room(collector.State()) < Room(old(collector.State()))
  {
    ghost var before := collector.State();
    ReadsMore(s, before, pipe, n);
    error := collector.Feed(data);
    if error.None? {
      FeedTakesRoom(before, data);
    }
  }

  /** Reads the pipe until the reply is complete, a read gives nothing or a PDU
      fails; it ends against every pipe. `n` is how often it has read. */
  method Fill(collector: I.Collector, pipe: nat -> seq<byte>) returns (error: Option<P.PduError>, n: nat)
    requires Sound(collector.State())
    modifies collector, collector.stream
    ensures StopsAt(old(collector.State()), Given(pipe, n + 1), n)
    ensures P.Outcome(collector.State(), error) == P.Fill(old(collector.State()), Given(pipe, n + 1))
  {
    ghost var s := collector.State();
    n, error := 0, None;
    while error.None? && !collector.complete
      invariant HasRead(s, P.Outcome(collector.State(), error), pipe, n)
      invariant error.None? ==> Sound(collector.State())
      decreases error.None? && !collector.complete, Room(collector.State()) + 0xFFFF
    {
      var data := pipe(n);
      if |data| == 0 {
        break;
      }
      error := Take(collector, data, s, pipe, n);
      n := n + 1;
    }
    StopsHere(s, P.Outcome(collector.State(), error), pipe, n);
  }

  /** What the pipe would give after the loop has stopped makes no difference. */
  lemma NoFurther(s: P.State, pipe: nat -> seq<byte>, n: nat, m: nat)
    requires StopsAt(s, Given(pipe, n + 1), n) && n < m
    ensures P.Fill(s, Given(pipe, m)) == P.Fill(s, Given(pipe, n + 1))
  {
    var short, long := Given(pipe, n + 1), Given(pipe, m);
    forall j | 0 <= j <= n
      ensures long[..j] == short[..j]
      ensures ReadOn(s, short, j) <==> ReadOn(s, long, j)
    {
    }
    FillFeeds(s, long, n);
  }

  /** What the loop answers, from where the collector is. */
  function Filled(s: P.State, given: seq<seq<byte>>): Result<P.Answer, P.PduError> {
    var filled := P.Fill(s, given);
    if filled.error.Some? then Err(filled.error.value) else P.Finish(filled.state.collected)
  }

  method FillAndFinish(collector: I.Collector, pipe: nat -> seq<byte>)
    returns (r: Result<P.Answer, P.PduError>, n: nat)
    requires Sound(collector.State())
    modifies collector, collector.stream
    ensures forall m :: m > n ==> Filled(old(collector.State()), Given(pipe, m)) == r
  {
    ghost var s := collector.State();
    var error;
    error, n := Fill(collector, pipe);
    forall m | m > n
      ensures P.Fill(s, Given(pipe, m)) == P.Fill(s, Given(pipe, n + 1))
    {
      NoFurther(s, pipe, n, m);
    }
    if error.Some? {
      return Err(error.value), n;
    }
    r := collector.Finish();
  }

  /** The reads of a call: what the transaction that carried the request answered,
      if it was made and answered anything, and then those of the pipe. */
  function Delivered(transacted: Option<seq<byte>>, given: seq<seq<byte>>): seq<seq<byte>> {
    if transacted.Some? && |transacted.value| > 0 then [transacted.value] + given else given
  }

  /** What a transaction answered is as good as a first read. */
  lemma TransactedIsRead(s: P.State, callId: nat, transacted: seq<byte>, given: seq<seq<byte>>)
    requires s == P.State(P.New(callId), [])
    ensures var fed := P.Feed(s, transacted);
      P.Fetch(callId, Delivered(Some(transacted), given)) ==
        if fed.error.Some? then Err(fed.error.value) else Filled(fed.state, given)
  {
    assert s.pending + transacted == transacted;
    assert ([transacted] + given)[1..] == given;
  }

  /** One exchange: a collector of its own takes what the transaction answered, if
      the request was sent in one, and then fills from the pipe. It has read no more
      than `n + 1` times, and whatever the pipe would have given after that, the answer
      is the same. */
  method Exchange(callId: nat, transacted: Option<seq<byte>>, pipe: nat -> seq<byte>)
    returns (r: Result<P.Answer, P.PduError>, n: nat)
    ensures forall m :: m > n ==> P.Fetch(callId, Delivered(transacted, Given(pipe, m))) == r
  {
    var collector := new I.Collector(callId);
    ghost var s := collector.State();
    if transacted.None? {
      r, n := FillAndFinish(collector, pipe);
      return;
    }
    var refused := collector.Feed(transacted.value);
    if refused.Some? {
      n := 0;
      r := Err(refused.value);
      forall m | m > n
        ensures P.Fetch(callId, Delivered(transacted, Given(pipe, m))) == r
      {
        TransactedIsRead(s, callId, transacted.value, Given(pipe, m));
      }
      return;
    }
    FeedTakesRoom(s, transacted.value);
    r, n := FillAndFinish(collector, pipe);
    forall m | m > n
      ensures P.Fetch(callId, Delivered(transacted, Given(pipe, m))) == r
    {
      TransactedIsRead(s, callId, transacted.value, Given(pipe, m));
    }
  }
}
