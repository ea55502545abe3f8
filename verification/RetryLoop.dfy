/** Which attempts a streaming request makes, and what its callback gets over all of them. */
module RetryLoop {

  datatype Curl =
    | Fine | TimedOut | NoHost | NoProxy | NoConnect | RecvError | SendError | GotNothing | SslConnect
    | OtherFailure(code: int)

  predicate RetryableCurl(rc: Curl) { !rc.Fine? && !rc.OtherFailure? }

  predicate RetryableStatus(status: int) { status == 408 || status == 429 || 500 <= status <= 599 }

  /** How one request ended: the chunks its callback got, whether the end mark came, the captured body. */
  datatype Answer = Answer(chunks: seq<string>, done: bool, body: string, rc: Curl, status: int)

  /** One attempt: the request as configured, and without the proxy in case that is tried as well. */
  datatype Exchange = Exchange(first: Answer, direct: Answer)

  datatype Policy = Policy(maxRetries: int, proxy: bool)

  datatype Outcome = Outcome(status: int, body: string, sawDone: bool, failed: bool)

  /** An attempt through a proxy that fails is made once more without it. */
  predicate TriedDirectly(cfg: Policy, x: Exchange) { cfg.proxy && !x.first.rc.Fine? }

  /** The request whose end decides the attempt. */
  function Deciding(cfg: Policy, x: Exchange): Answer
  {
    if TriedDirectly(cfg, x) then x.direct else x.first
  }

  predicate Succeeded(a: Answer) { a.rc.Fine? && 200 <= a.status < 300 }

  /** Only an attempt that gave nothing is made again. */
  predicate Retryable(a: Answer)
  {
    && a.chunks == [] && !a.done && !Succeeded(a)
    && if a.rc.Fine? then RetryableStatus(a.status) else RetryableCurl(a.rc)
  }

  /** What the callback gets in one attempt. */
  function Given(cfg: Policy, x: Exchange): seq<string>
  {
    if TriedDirectly(cfg, x) then x.first.chunks + x.direct.chunks else x.first.chunks
  }

  /** What the network does in each attempt. */
  type Network = nat -> Exchange

  function MaxRetries(cfg: Policy): nat { if cfg.maxRetries < 0 then 0 else cfg.maxRetries }

  predicate GoesOn(cfg: Policy, net: Network, attempt: nat)
  {
    attempt < MaxRetries(cfg) && Retryable(Deciding(cfg, net(attempt)))
  }

  /** The last attempt that is made, from `attempt` on. */
  function Last(cfg: Policy, net: Network, attempt: nat): (last: nat)
    requires attempt <= MaxRetries(cfg)
    ensures attempt <= last <= MaxRetries(cfg) && !GoesOn(cfg, net, last)
    ensures forall k :: attempt <= k < last ==> GoesOn(cfg, net, k)
    decreases MaxRetries(cfg) - attempt
  {
    if GoesOn(cfg, net, attempt) then Last(cfg, net, attempt + 1) else attempt
  }

  /** What the callback gets in the first `n` attempts. */
  function GivenIn(cfg: Policy, net: Network, n: nat): seq<string>
  {
    if n == 0 then [] else GivenIn(cfg, net, n - 1) + Given(cfg, net(n - 1))
  }

  function Report(a: Answer): Outcome
  {
    Outcome(if a.rc.Fine? then a.status else 0, a.body, Succeeded(a) && a.done, !a.rc.Fine?)
  }

  // ---------------------------------------------------------------------------------------------
  // No duplicates
  // ---------------------------------------------------------------------------------------------

  /** The requests through a proxy that failed in the first `n` attempts gave nothing. */
  predicate FailedProxyGaveNothing(cfg: Policy, net: Network, n: nat)
  {
    forall k :: 0 <= k < n && TriedDirectly(cfg, net(k)) ==> net(k).first.chunks == []
  }

  lemma {:induction false} GivenBefore(cfg: Policy, net: Network, n: nat)
    requires forall k :: 0 <= k < n ==> GoesOn(cfg, net, k)
    ensures GivenIn(cfg, net, n) == [] <==> FailedProxyGaveNothing(cfg, net, n)
  {
    if n > 0 {
      GivenBefore(cfg, net, n - 1);
      assert GoesOn(cfg, net, n - 1);
    }
  }

  lemma JoinsTo(a: seq<string>, b: seq<string>, c: seq<string>)
    ensures a + b + c == c <==> a == [] && b == []
  {
    assert a + b + c == c ==> |a| + |b| == 0;
  }

  /** The callback gets the chunks of the one request that decides the last attempt, and nothing else,
      exactly when no failed request through a proxy gave it anything. */
  lemma ChunksComeFromOneRequest(cfg: Policy, net: Network)
    ensures
      var last := Last(cfg, net, 0);
      GivenIn(cfg, net, last + 1) == Deciding(cfg, net(last)).chunks <==> FailedProxyGaveNothing(cfg, net, last + 1)
  {
    var last := Last(cfg, net, 0);
    GivenBefore(cfg, net, last);
    var x := net(last);
    if TriedDirectly(cfg, x) {
      JoinsTo(GivenIn(cfg, net, last), x.first.chunks, x.direct.chunks);
      assert GivenIn(cfg, net, last + 1) == GivenIn(cfg, net, last) + x.first.chunks + x.direct.chunks;
    } else {
      JoinsTo(GivenIn(cfg, net, last), [], x.first.chunks);
      assert GivenIn(cfg, net, last + 1) == GivenIn(cfg, net, last) + [] + x.first.chunks;
    }
  }

  /** Without a proxy an attempt that gives a chunk or the end mark is the last one, so the callback
      gets the chunks of one attempt only; there are at most `max_retries` + 1 attempts. */
  lemma NoAttemptAfterAChunk(cfg: Policy, net: Network)
    requires !cfg.proxy
    ensures
      var last := Last(cfg, net, 0);
      && last <= MaxRetries(cfg)
      && GivenIn(cfg, net, last + 1) == net(last).first.chunks
      && forall k :: 0 <= k < last ==> net(k).first.chunks == [] && !net(k).first.done
  {
    ChunksComeFromOneRequest(cfg, net);
    var last := Last(cfg, net, 0);
    forall k | 0 <= k < last
      ensures net(k).first.chunks == [] && !net(k).first.done
    {
      assert GoesOn(cfg, net, k);
    }
  }

  /** A proxy that fails after it has let chunks through: the callback gets those and then the whole
      answer of the direct request. */
  lemma ProxyFallbackDuplicates(cfg: Policy, x: Exchange)
    requires TriedDirectly(cfg, x) && Succeeded(x.direct)
    ensures
      var net: Network := k => x;
      GivenIn(cfg, net, Last(cfg, net, 0) + 1) == x.first.chunks + x.direct.chunks
  {
    var net: Network := k => x;
    assert !GoesOn(cfg, net, 0);
    assert GivenIn(cfg, net, 1) == GivenIn(cfg, net, 0) + Given(cfg, net(0));
    assert [] + Given(cfg, x) == Given(cfg, x);
  }
}
