/** Which attempts are repeated and how long the pauses are, in numbers. */
module RetryNumbers {
  import opened Text
  import opened RetryLoop
  import opened RetryBackoff

  // ---------------------------------------------------------------------------------------------
  // Attempts
  // ---------------------------------------------------------------------------------------------

  const TRANSIENT: set<Curl> := {TimedOut, NoHost, NoProxy, NoConnect, RecvError, SendError, GotNothing, SslConnect}

  /** Another attempt follows one that is made exactly when retries are left, its deciding request gave no
      chunk and no end mark, and it ended with status 408, 429 or one from 500 to 599, or with one of eight
      transport errors, those of TRANSIENT. */
  lemma RetriedInNumbers(cfg: Policy, net: Network, k: nat)
    requires k <= Last(cfg, net, 0)
    ensures
      var a := if cfg.proxy && net(k).first.rc != Fine then net(k).direct else net(k).first;
      k < Last(cfg, net, 0) <==>
        && k < cfg.maxRetries && a.chunks == [] && !a.done
        && (a.rc == Fine ==> a.status in {408, 429} || a.status / 100 == 5)
        && (a.rc != Fine ==> a.rc in TRANSIENT)
  {
    var a := if cfg.proxy && net(k).first.rc != Fine then net(k).direct else net(k).first;
    assert a == Deciding(cfg, net(k));
    if k < Last(cfg, net, 0) {
      assert GoesOn(cfg, net, k);
    }
  }

  /** What is reported: the status, or 0 after a transport error, and the end mark only with a status from
      200 to 299. */
  lemma ReportedInNumbers(a: Answer)
    ensures Report(a).status == (if a.rc == Fine then a.status else 0) && Report(a).failed == (a.rc != Fine)
    ensures Report(a).body == a.body && (Report(a).sawDone <==> a.done && a.rc == Fine && a.status / 100 == 2)
  {
  }

  // ---------------------------------------------------------------------------------------------
  // Delays
  // ---------------------------------------------------------------------------------------------

  /** As long as nothing overflows, the delay before jitter doubles with each retry, up to the cap. */
  lemma TunedIsExponential(base: int, cap: int, attempt: nat)
    requires base > 0 && cap > 0 && attempt <= 30 && base * Pow2(attempt) < 0x8000_0000_0000_0000
    ensures Exponential(base, cap, attempt) == Min(base * Pow2(attempt), cap)
    ensures Pow2(0) == 1 && Pow2(attempt + 1) == 2 * Pow2(attempt)
  {
    Pow2Grows(0, attempt);
    assert base * Pow2(attempt) >= 0;
    WrapSmall(base * Pow2(attempt));
  }

  /** What jitter allows: nothing but the delay itself when it is 0 or less, anything up to twice the delay
      when it is 1 or more, and otherwise what is at most that share of the delay away from it. */
  lemma JitterInNumbers(exp: int, jitter: real, ms: int)
    requires exp >= 0
    ensures jitter <= 0.0 ==> (Jittered(exp, jitter, ms) <==> ms == exp)
    ensures jitter >= 1.0 ==> (Jittered(exp, jitter, ms) <==> 0 <= ms <= 2 * exp)
    ensures 0.0 < jitter < 1.0 ==>
      (Jittered(exp, jitter, ms) <==> (ms - exp) as real <= exp as real * jitter && (exp - ms) as real <= exp as real * jitter)
  {
    SpreadIsSmall(exp, jitter);
    if jitter <= 0.0 {
      assert exp as real * 0.0 == 0.0;
    } else if jitter >= 1.0 {
      assert exp as real * 1.0 == exp as real;
    } else {
      FloorBounds(exp as real * jitter, ms - exp);
      FloorBounds(exp as real * jitter, exp - ms);
    }
  }

  lemma FloorBounds(x: real, n: int)
    ensures n <= x.Floor <==> n as real <= x
  {
  }

  /** Without jitter the time slept is the delay itself, or the server's wish where that is longer and is
      respected, at most the cap. */
  lemma WithoutJitterExact(t: Tuning, attempt: int, retryAfterMs: int, picked: int)
    requires t.Positive() && t.jitter <= 0.0 && Jittered(BeforeJitter(t, attempt), t.jitter, picked)
    ensures Settled(t, picked, retryAfterMs) ==
      Min(t.maxMs, if t.respectRetryAfter then Max(Exponential(t.baseMs, t.maxMs, attempt), retryAfterMs)
                   else Exponential(t.baseMs, t.maxMs, attempt))
  {
    JitterInNumbers(BeforeJitter(t, attempt), t.jitter, picked);
  }

  /** The delay before jitter is never negative. */
  function BeforeJitter(t: Tuning, attempt: int): (exp: nat)
    requires t.Positive()
    ensures exp == Exponential(t.baseMs, t.maxMs, attempt)
  {
    Exponential(t.baseMs, t.maxMs, attempt)
  }
}
