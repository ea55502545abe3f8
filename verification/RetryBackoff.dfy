/** How long the client sleeps before it tries a request again. */
module RetryBackoff {
  import opened Text

  const TWO_31 := 0x8000_0000
  const TWO_32 := 0x1_0000_0000
  const TWO_63 := 0x8000_0000_0000_0000
  const TWO_64 := 0x1_0000_0000_0000_0000

  /** Two's complement. */
  function Wrap32(n: int): int { (n + TWO_31) % TWO_32 - TWO_31 }

  function Wrap64(n: int): int { (n + TWO_63) % TWO_64 - TWO_63 }

  function Pow2(n: nat): nat
  {
    if n == 0 then 1 else 2 * Pow2(n - 1)
  }

  function Clamp(v: int, lo: int, hi: int): int
  {
    if v < lo then lo else if v > hi then hi else v
  }

  datatype Tuning = Tuning(baseMs: int, maxMs: int, jitter: real, respectRetryAfter: bool)
  {
    predicate Positive() { baseMs > 0 && maxMs > 0 }
  }

  /** The product, at most the cap; the cap once it is negative. */
  function Capped(product: int, cap: int): int
  {
    var wrapped := Wrap64(product);
    Min(if wrapped < 0 then cap else wrapped, cap)
  }

  /** The exponential delay, before jitter: doubled at most 30 times. */
  function Exponential(base: int, cap: int, attempt: int): int
    requires base > 0 && cap > 0
  {
    Capped(base * Pow2(Clamp(attempt, 0, 30)), cap)
  }

  function Spread(exp: int, jitter: real): int
    requires exp >= 0
  {
    var j := if jitter < 0.0 then 0.0 else if jitter > 1.0 then 1.0 else jitter;
    (exp as real * j).Floor
  }

  /** The delays that jitter may pick. */
  predicate Jittered(exp: int, jitter: real, ms: int)
    requires exp >= 0
  {
    Max(0, exp - Spread(exp, jitter)) <= ms <= Max(0, exp + Spread(exp, jitter))
  }

  /** What is done to the picked delay. */
  function Settled(t: Tuning, picked: int, retryAfterMs: int): int
    requires t.Positive()
  {
    Clamp(if t.respectRetryAfter && retryAfterMs > 0 then Max(picked, retryAfterMs) else picked, 0, t.maxMs)
  }

  /** The delay with no tuning, up to the attempt at which the shift leaves the width of `int`. */
  function Untuned(attempt: int): int
    requires attempt < 32
  {
    Max(0, Min(Wrap32(250 * Pow2(Max(0, attempt))), 4000))
  }

  /** Any generator of random numbers.  A shift by 32 or more may give any number. */
  method ComputeSleepMs(t: Tuning, attempt: int, retryAfterMs: int) returns (ms: int)
    ensures !t.Positive() && attempt < 32 ==> ms == Untuned(attempt)
    ensures 0 <= ms <= if t.Positive() then t.maxMs else 4000
    ensures t.Positive() ==> 0 <= Exponential(t.baseMs, t.maxMs, attempt) && exists picked ::
      Jittered(Exponential(t.baseMs, t.maxMs, attempt), t.jitter, picked) && ms == Settled(t, picked, retryAfterMs)
  {
    if !t.Positive() {
      var shifted: int := *;
      if attempt < 32 {
        shifted := Wrap32(250 * Pow2(Max(0, attempt)));
      }
      if shifted > 4000 {
        shifted := 4000;
      }
      return if shifted > 0 then shifted else 0;
    }
    var exp := Exponential(t.baseMs, t.maxMs, attempt);
    var picked := exp;
    SpreadIsSmall(exp, t.jitter);
    var lo, hi := Max(0, exp - Spread(exp, t.jitter)), Max(0, exp + Spread(exp, t.jitter));
    if hi > lo {
      picked :| lo <= picked <= hi;
    }
    assert Jittered(exp, t.jitter, picked);
    ms := picked;
    if t.respectRetryAfter && retryAfterMs > 0 {
      ms := Max(ms, retryAfterMs);
    }
    ms := Clamp(ms, 0, t.maxMs);
  }

  lemma SpreadIsSmall(exp: int, jitter: real)
    requires exp >= 0
    ensures 0 <= Spread(exp, jitter) <= exp
  {
    var j := if jitter < 0.0 then 0.0 else if jitter > 1.0 then 1.0 else jitter;
    assert 0.0 <= exp as real * j <= exp as real;
  }

  // ---------------------------------------------------------------------------------------------
  // Bounds
  // ---------------------------------------------------------------------------------------------

  /** With positive tuning every delay lies between 0 and the cap, whatever is picked, and is at least
      what the server asked for, or the cap if that is less. */
  lemma SleepIsBounded(t: Tuning, picked: int, retryAfterMs: int)
    requires t.Positive()
    ensures 0 <= Settled(t, picked, retryAfterMs) <= t.maxMs
    ensures t.respectRetryAfter && retryAfterMs > 0 ==>
      Settled(t, picked, retryAfterMs) >= Min(t.maxMs, retryAfterMs)
    ensures 0 <= picked <= t.maxMs && !(t.respectRetryAfter && retryAfterMs > picked) ==>
      Settled(t, picked, retryAfterMs) == picked
  {
  }

  lemma {:induction false} Pow2Grows(n: nat, m: nat)
    requires n <= m
    ensures 1 <= Pow2(n) <= Pow2(m)
  {
    if m > n {
      Pow2Grows(n, m - 1);
    } else if n > 0 {
      Pow2Grows(n - 1, m - 1);
    }
  }

  lemma Pow2Thirty()
    ensures Pow2(29) == 0x2000_0000 && Pow2(30) == 0x4000_0000
  {
    assert Pow2(10) == 1024;
    assert Pow2(20) == 1024 * 1024;
  }

  lemma WrapSmall(n: int)
    requires 0 <= n < TWO_64
    ensures Wrap64(n) == if n < TWO_63 then n else n - TWO_64
  {
  }

  lemma {:induction false} Pow2Add(n: nat, m: nat)
    ensures Pow2(n + m) == Pow2(n) * Pow2(m)
  {
    if n > 0 {
      Pow2Add(n - 1, m);
      assert Pow2(n + m) == 2 * Pow2(n - 1 + m);
      TwiceProduct(Pow2(n - 1), Pow2(m));
    }
  }

  lemma TwiceProduct(a: int, b: int)
    ensures 2 * (a * b) == (2 * a) * b
  {
  }

  lemma Pow2Words()
    ensures Pow2(33) == 0x2_0000_0000 && Pow2(34) == 0x4_0000_0000
    ensures Pow2(62) == 0x4000_0000_0000_0000 && Pow2(63) == TWO_63 && Pow2(64) == TWO_64
  {
    Pow2Thirty();
    assert Pow2(31) == 0x8000_0000 && Pow2(32) == 0x1_0000_0000;
    Pow2Add(31, 31);
    assert Pow2(64) == 2 * Pow2(63) && Pow2(63) == 2 * Pow2(62);
  }

  /** The bits of `base` from 33 up to its top bit are all set. */
  predicate AllOnes(base: int, top: nat)
  {
    34 <= top <= 62 && Pow2(top + 1) - Pow2(33) <= base < Pow2(top + 1)
  }

  predicate Smooth(base: int)
  {
    base < Pow2(34) || exists top :: 34 <= top <= 62 && AllOnes(base, top)
  }

  /** The product wraps to a negative number when it lies less than half a word below a multiple of one. */
  lemma WrapsNegative(n: int, words: int)
    requires words * TWO_64 - TWO_63 <= n < words * TWO_64
    ensures Wrap64(n) == n - words * TWO_64 < 0
  {
    WordsOff(n + TWO_63, words);
  }

  lemma WrapsPositive(n: int, words: int)
    requires words * TWO_64 <= n < words * TWO_64 + TWO_63
    ensures Wrap64(n) == n - words * TWO_64 >= 0
  {
    WordsOff(n + TWO_63, words);
  }

  lemma WordsOff(n: int, words: int)
    requires words * TWO_64 <= n < (words + 1) * TWO_64
    ensures n % TWO_64 == n - words * TWO_64
  {
    var q := n / TWO_64;
    assert n == q * TWO_64 + n % TWO_64;
    assert (q - words) * TWO_64 == n - words * TWO_64 - n % TWO_64;
    assert q == words;
  }

  /** Shifting a number between 2^k - low and 2^k - high by n. */
  lemma ShiftedBounds(base: int, k: nat, low: int, high: int, n: nat)
    requires Pow2(k) - low <= base < Pow2(k) - high
    ensures Pow2(k + n) - low * Pow2(n) <= base * Pow2(n) < Pow2(k + n) - high * Pow2(n)
  {
    Pow2Add(k, n);
    Pow2Grows(0, n);
    Stretch(Pow2(k), low, base, high, Pow2(n));
  }

  lemma Stretch(w: int, low: int, b: int, high: int, p: int)
    requires w - low <= b < w - high && p > 0
    ensures w * p - low * p <= b * p < w * p - high * p
  {
    assert (w - low) * p == w * p - low * p;
    assert (w - high) * p == w * p - high * p;
    assert (b - (w - low)) * p >= 0;
    assert (w - high - b) * p > 0;
  }

  lemma FittingProduct(base: int, top: nat, a: nat)
    requires AllOnes(base, top) && a + top < 63
    ensures 0 < base * Pow2(a) < TWO_63
  {
    Pow2Words();
    Pow2Grows(34, top);
    Pow2Grows(0, a);
    assert Pow2(top + 1) == 2 * Pow2(top);
    ShiftedBounds(base, top + 1, Pow2(top + 1), 0, a);
    Pow2Grows(top + 1 + a, 63);
    Positive(base, Pow2(a));
  }

  lemma Positive(x: int, y: int)
    requires x > 0 && y > 0
    ensures x * y > 0
  {
  }

  lemma WrappedProduct(base: int, top: nat, a: nat)
    requires AllOnes(base, top) && a <= 30 && a + top >= 63
    ensures Wrap64(base * Pow2(a)) < 0
  {
    var d := a + top - 63;
    Pow2Words();
    ShiftedBounds(base, top + 1, Pow2(33), 0, a);
    assert top + 1 + a == d + 64;
    Pow2Add(d, 64);
    Pow2Add(33, a);
    Pow2Grows(33 + a, 63);
    WrapsNegative(base * Pow2(a), Pow2(d));
  }

  /** From one attempt to the next. */
  ghost predicate NeverShrinks(base: int)
    requires base > 0
  {
    forall cap, attempt: int :: cap > 0 ==> Exponential(base, cap, attempt) <= Exponential(base, cap, attempt + 1)
  }

  lemma OrderedProducts(x: int, y: int, cap: int)
    requires cap > 0 && x <= y
    requires (0 <= x <= y < TWO_63) || Wrap64(y) < 0
    ensures Capped(x, cap) <= Capped(y, cap)
  {
    if y < TWO_63 && 0 <= x {
      WrapSmall(x);
      WrapSmall(y);
    }
  }

  lemma SmoothGrows(base: int, cap: int, attempt: int)
    requires 0 < base && Smooth(base) && cap > 0
    ensures Exponential(base, cap, attempt) <= Exponential(base, cap, attempt + 1)
  {
    var a, b := Clamp(attempt, 0, 30), Clamp(attempt + 1, 0, 30);
    SmoothProducts(base, a, b);
    OrderedProducts(base * Pow2(a), base * Pow2(b), cap);
  }

  lemma SmoothProducts(base: int, a: nat, b: nat)
    requires 0 < base && Smooth(base) && a <= b <= 30
    ensures base * Pow2(a) <= base * Pow2(b)
    ensures 0 <= base * Pow2(a) && (base * Pow2(b) < TWO_63 || Wrap64(base * Pow2(b)) < 0)
  {
    Pow2Grows(a, b);
    Pow2Grows(0, a);
    Grows(base, Pow2(a), Pow2(b));
    Pow2Words();
    if base < Pow2(34) {
      Pow2Grows(b, 30);
      Pow2Thirty();
      ProductGrows(base, Pow2(a), Pow2(b), Pow2(30));
      WrapSmall(base * Pow2(b));
    } else {
      var top :| 34 <= top <= 62 && AllOnes(base, top);
      if b + top < 63 {
        FittingProduct(base, top, b);
      } else {
        WrappedProduct(base, top, b);
      }
    }
  }

  lemma Grows(base: int, x: int, y: int)
    requires base > 0 && 0 < x <= y
    ensures 0 < base * x <= base * y
  {
  }

  lemma {:induction false} TopBit(n: int) returns (k: nat)
    requires n > 0
    ensures Pow2(k) <= n < Pow2(k + 1)
    decreases n
  {
    if n == 1 {
      k := 0;
      assert Pow2(1) == 2;
    } else {
      k := TopBit(n / 2);
      k := k + 1;
    }
  }

  lemma SmallerPower(n: nat, m: nat)
    requires Pow2(n) < Pow2(m)
    ensures n < m
  {
    if m <= n {
      Pow2Grows(m, n);
    }
  }

  /** A base with a zero below its top bit, at 33 or above: the attempt that shifts this zero to the sign
      bit follows one that gives the cap, and gives less than the largest cap. */
  lemma ZeroBitShrinks(base: int, top: nat, zero: nat)
    requires 33 <= zero < top <= 62 && base > 0
    requires Pow2(top + 1) - Pow2(zero + 1) <= base < Pow2(top + 1) - Pow2(zero)
    ensures Exponential(base, TWO_63 - 1, 63 - zero) < TWO_63 - 1 == Exponential(base, TWO_63 - 1, 62 - zero)
  {
    OneAtSign(base, top, zero, 62 - zero);
    ZeroAtSign(base, top, zero, 63 - zero);
  }

  lemma OneAtSign(base: int, top: nat, zero: nat, a: nat)
    requires 33 <= zero < top <= 62 && base > 0 && a == 62 - zero
    requires Pow2(top + 1) - Pow2(zero + 1) <= base < Pow2(top + 1) - Pow2(zero)
    ensures Wrap64(base * Pow2(a)) < 0
  {
    Pow2Words();
    ShiftedBounds(base, top + 1, Pow2(zero + 1), Pow2(zero), a);
    Pow2Add(zero + 1, a);
    Pow2Add(zero, a);
    Pow2Add(top - zero - 1, 64);
    assert top + 1 + a == top - zero - 1 + 64 && zero + 1 + a == 63 && zero + a == 62;
    WrapsNegative(base * Pow2(a), Pow2(top - zero - 1));
  }

  lemma ZeroAtSign(base: int, top: nat, zero: nat, a: nat)
    requires 33 <= zero < top <= 62 && base > 0 && a == 63 - zero
    requires Pow2(top + 1) - Pow2(zero + 1) <= base < Pow2(top + 1) - Pow2(zero)
    ensures 0 <= Wrap64(base * Pow2(a)) < TWO_63 - 1
  {
    Pow2Words();
    ShiftedBounds(base, top + 1, Pow2(zero + 1), Pow2(zero), a);
    Pow2Add(zero + 1, a);
    Pow2Add(zero, a);
    Pow2Add(top - zero, 64);
    assert top + 1 + a == top - zero + 64 && zero + 1 + a == 64 && zero + a == 63;
    TwicePow2(base, a);
    LastWord(base * Pow2(a), base * Pow2(a - 1), Pow2(top - zero));
  }

  lemma TwicePow2(base: int, a: nat)
    requires a > 0
    ensures base * Pow2(a) == 2 * (base * Pow2(a - 1))
  {
  }

  /** An even number in the first half of a word is not the largest one there. */
  lemma LastWord(n: int, half: int, words: int)
    requires n == 2 * half && words * TWO_64 - TWO_64 <= n < words * TWO_64 - TWO_63
    ensures 0 <= Wrap64(n) < TWO_63 - 1
  {
    WrapsPositive(n, words - 1);
  }

  /** The top bit of a base that is not smooth, and that some bit from 33 up to it is not set. */
  lemma TopOfNotSmooth(base: int) returns (top: nat)
    requires 0 < base < TWO_63 && !Smooth(base)
    ensures 34 <= top <= 62 && Pow2(top) <= base < Pow2(top + 1) - Pow2(33) && Pow2(top + 1) == 2 * Pow2(top)
  {
    Pow2Words();
    top := TopBit(base);
    SmallerPower(top, 63);
    SmallerPower(34, top + 2);
    if top < 34 {
      Pow2Grows(top + 1, 34);
    }
    assert !AllOnes(base, top);
  }

  lemma NotSmoothShrinks(base: int) returns (attempt: int)
    requires 0 < base < TWO_63 && !Smooth(base)
    ensures Exponential(base, TWO_63 - 1, attempt) > Exponential(base, TWO_63 - 1, attempt + 1)
  {
    Pow2Grows(0, 33);
    var top := TopOfNotSmooth(base);
    var zero := TopBit(Pow2(top + 1) - base - 1);
    SmallerPower(33, zero + 1);
    SmallerPower(zero, top);
    ZeroBitShrinks(base, top, zero);
    attempt := 62 - zero;
  }

  /** Without jitter the delay never gets shorter from one attempt to the next, whatever the cap, exactly
      for a base below 2^34 ms (some 200 days) and for one whose bits from 33 up are all set. */
  lemma BackoffIsMonotone(base: int)
    requires 0 < base < TWO_63
    ensures NeverShrinks(base) <==> Smooth(base)
  {
    if Smooth(base) {
      forall cap, attempt: int | cap > 0
        ensures Exponential(base, cap, attempt) <= Exponential(base, cap, attempt + 1)
      {
        SmoothGrows(base, cap, attempt);
      }
    } else {
      var attempt := NotSmoothShrinks(base);
      assert Exponential(base, TWO_63 - 1, attempt) > Exponential(base, TWO_63 - 1, attempt + 1);
    }
  }

  /** The same for what is slept, whatever Retry-After says. */
  lemma SettledBackoffIsMonotone(t: Tuning, attempt: int, retryAfterMs: int)
    requires t.Positive() && Smooth(t.baseMs)
    ensures
      Settled(t, Exponential(t.baseMs, t.maxMs, attempt), retryAfterMs) <=
      Settled(t, Exponential(t.baseMs, t.maxMs, attempt + 1), retryAfterMs)
  {
    SmoothGrows(t.baseMs, t.maxMs, attempt);
  }

  lemma ProductGrows(base: int, x: int, y: int, z: int)
    requires 0 < base < 0x4_0000_0000 && 0 < x <= y <= z == 0x4000_0000
    ensures 0 < base * x <= base * y < TWO_64
  {
    assert base * x <= base * y <= base * z;
  }

  /** At 2^34 ms it does get shorter: the product of the 30th retry wraps around to 0, whatever the cap. */
  lemma BackoffWrapsAtTheBound(cap: int)
    requires cap > 0
    ensures Exponential(0x4_0000_0000, cap, 29) == cap && Exponential(0x4_0000_0000, cap, 30) == 0
  {
    Pow2Thirty();
    assert 0x4_0000_0000 * 0x2000_0000 == TWO_63;
    assert 0x4_0000_0000 * 0x4000_0000 == TWO_64;
  }

  /** Without tuning the delay is 250 ms doubled for each retry, at most 4 s, exactly as long as the
      product fits `int` (and, by accident, at retry 29). */
  lemma UntunedIsExponential(attempt: nat)
    requires attempt < 32
    ensures Untuned(attempt) == Min(4000, 250 * Pow2(attempt)) <==> attempt <= 23 || attempt == 29
    ensures Untuned(attempt) != Min(4000, 250 * Pow2(attempt)) ==> Untuned(attempt) == 0
  {
    if attempt <= 23 {
      Pow2Grows(attempt, 23);
      Pow2To23();
      FitsInt(250 * Pow2(attempt));
    } else {
      Pow2From24(attempt);
      Overflows(Pow2(attempt));
    }
  }

  lemma FitsInt(n: int)
    requires 0 <= n < TWO_31
    ensures Wrap32(n) == n
  {
  }

  /** 250 is 11111010 in binary: which bits are left at the top decides the sign. */
  lemma Overflows(p: int)
    requires p in {0x100_0000, 0x200_0000, 0x400_0000, 0x800_0000, 0x1000_0000, 0x2000_0000, 0x4000_0000, 0x8000_0000}
    ensures if p == 0x2000_0000 then Wrap32(250 * p) == 0x4000_0000 else Wrap32(250 * p) <= 0
  {
    WrapBy(250 * p, (250 * p + TWO_31) / TWO_32);
  }

  lemma WrapBy(n: int, k: int)
    requires 0 <= n - k * TWO_32 + TWO_31 < TWO_32
    ensures Wrap32(n) == n - k * TWO_32
  {
    ModUnique(n + TWO_31, k);
  }

  lemma ModUnique(n: int, k: int)
    requires 0 <= n - k * TWO_32 < TWO_32
    ensures n % TWO_32 == n - k * TWO_32
  {
    var q := n / TWO_32;
    assert n == q * TWO_32 + n % TWO_32;
    assert (q - k) * TWO_32 == n - k * TWO_32 - n % TWO_32;
    assert q == k;
  }

  lemma Pow2To23()
    ensures Pow2(23) == 0x80_0000
  {
    assert Pow2(10) == 1024;
    assert Pow2(20) == 1024 * 1024;
  }

  lemma Pow2From24(n: nat)
    requires 24 <= n < 32
    ensures Pow2(n) == [0x100_0000, 0x200_0000, 0x400_0000, 0x800_0000,
      0x1000_0000, 0x2000_0000, 0x4000_0000, 0x8000_0000][n - 24]
  {
    Pow2To23();
    assert Pow2(24) == 2 * Pow2(23);
    assert Pow2(25) == 2 * Pow2(24);
    assert Pow2(26) == 2 * Pow2(25);
    assert Pow2(27) == 2 * Pow2(26);
    assert Pow2(28) == 2 * Pow2(27);
    assert Pow2(29) == 2 * Pow2(28);
    assert Pow2(30) == 2 * Pow2(29);
    assert Pow2(31) == 2 * Pow2(30);
  }
}
