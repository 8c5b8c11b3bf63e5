/** Capped exponential backoff. The service computes it in three places: for the retry middleware
    (internal/async/middleware.go:267-277), for the API retryer (internal/errors/types.go:523-543)
    and for re-queued jobs (internal/async/queue.go:355-364).

    Delays are integers; a multiplier is the exact fraction `num / den`, and each multiplication
    truncates as the conversion back to a duration does. */
module Backoff {
  import opened Arithmetic
  import opened Common

  datatype Config = Config(base: nat, num: nat, den: nat, max: nat) {
    ghost predicate Valid() { den > 0 }

    /** A multiplier of at least one. */
    ghost predicate Grows() { 0 < den <= num }
  }

  function Scale(d: nat, c: Config): nat
    requires c.Valid()
  {
    d * c.num / c.den
  }

  function Clamp(d: nat, max: nat): nat {
    if d > max then max else d
  }

  /** The reference definition: multiply and clamp, `k` times, without ever stopping early. */
  function Delay(c: Config, k: nat): (d: nat)
    requires c.Valid()
    ensures k > 0 ==> d <= c.max
  {
    if k == 0 then c.base else Clamp(Scale(Delay(c, k - 1), c), c.max)
  }

  /** What the shared loop computes from `d` on: it stops at the first delay above the maximum. */
  function EarlyBreak(c: Config, d: nat, k: nat): nat
    requires c.Valid()
    decreases k
  {
    if k == 0 then d
    else
      var next := Scale(d, c);
      if next > c.max then c.max else EarlyBreak(c, next, k - 1)
  }

  // The three loops -------------------------------------------------------------------------

  /** `ExponentialBackoff.GetDelay`. */
  method GetDelay(c: Config, attempt: int) returns (delay: nat)
    requires c.Valid()
    ensures delay == EarlyBreak(c, c.base, NonNegative(attempt))
    ensures c.Grows() ==> delay == Delay(c, NonNegative(attempt))
  {
    delay := c.base;
    var i := 0;
    if c.Grows() { EarlyBreakIsDelay(c, 0, NonNegative(attempt)); }
    while i < attempt
      invariant 0 <= i && NonNegative(attempt - i) == NonNegative(attempt) - i
      invariant EarlyBreak(c, delay, NonNegative(attempt - i)) == EarlyBreak(c, c.base, NonNegative(attempt))
    {
      delay := Scale(delay, c);
      if delay > c.max {
        delay := c.max;
        return;
      }
      i := i + 1;
    }
  }

  /** `Retryer.getDelay`, whose attempts count from one. */
  method RetryerDelay(c: Config, attempt: int) returns (delay: nat)
    requires c.Valid()
    ensures delay == EarlyBreak(c, c.base, NonNegative(attempt - 1))
    ensures c.Grows() ==> delay == Delay(c, NonNegative(attempt - 1))
  {
    delay := c.base;
    var i := 1;
    if c.Grows() { EarlyBreakIsDelay(c, 0, NonNegative(attempt - 1)); }
    while i < attempt
      invariant 1 <= i && NonNegative(attempt - i) == NonNegative(attempt - 1) - (i - 1)
      invariant EarlyBreak(c, delay, NonNegative(attempt - i)) == EarlyBreak(c, c.base, NonNegative(attempt - 1))
    {
      delay := Scale(delay, c);
      if delay > c.max {
        delay := c.max;
        return;
      }
      i := i + 1;
    }
  }

  /** The delay `scheduleRetry` sleeps for a job on its `retryCount`-th retry. */
  method JobRetryDelay(c: Config, retryCount: int) returns (delay: nat)
    requires c.Valid()
    ensures delay == EarlyBreak(c, c.base, NonNegative(retryCount - 1))
    ensures c.Grows() ==> delay == Delay(c, NonNegative(retryCount - 1))
  {
    delay := c.base;
    var i := 0;
    if c.Grows() { EarlyBreakIsDelay(c, 0, NonNegative(retryCount - 1)); }
    while i < retryCount - 1
      invariant 0 <= i && NonNegative(retryCount - 1 - i) == NonNegative(retryCount - 1) - i
      invariant EarlyBreak(c, delay, NonNegative(retryCount - 1 - i))
                == EarlyBreak(c, c.base, NonNegative(retryCount - 1))
    {
      delay := Scale(delay, c);
      if delay > c.max {
        delay := c.max;
        return;
      }
      i := i + 1;
    }
  }

  // Early break against full iteration ------------------------------------------------------

  lemma ScaleGrows(d: nat, c: Config)
    requires c.Grows()
    ensures Scale(d, c) >= d
  {
    DivAtLeast(d * c.num, c.den, d);
    MulLe(c.den, c.num, d);
  }

  lemma ScaleShrinks(d: nat, c: Config)
    requires c.Valid() && c.num <= c.den
    ensures Scale(d, c) <= d
  {
    MulLe(c.num, c.den, d);
    DivMono(d * c.num, d * c.den, c.den);
    DivAtLeast(d * c.den, c.den, d + 1);
    assert (d + 1) * c.den == d * c.den + c.den;
  }

  /** A clamped delay stays at the maximum. */
  lemma {:induction false} StaysAtMax(c: Config, j: nat, k: nat)
    requires c.Grows() && j <= k && Delay(c, j) == c.max
    ensures Delay(c, k) == c.max
    decreases k - j
  {
    if j < k {
      ScaleGrows(c.max, c);
      StaysAtMax(c, j + 1, k);
    }
  }

  /** Stopping early changes nothing: after `j` multiplications the loop still owes the
      reference delay. */
  lemma {:induction false} EarlyBreakIsDelay(c: Config, j: nat, k: nat)
    requires c.Grows()
    ensures EarlyBreak(c, Delay(c, j), k) == Delay(c, j + k)
    decreases k
  {
    if k > 0 {
      if Scale(Delay(c, j), c) > c.max {
        StaysAtMax(c, j + 1, j + k);
      } else {
        EarlyBreakIsDelay(c, j + 1, k - 1);
      }
    }
  }

  /** The exact condition, for any multiplier: the two agree for every number of steps unless
      the first step passes the maximum and the multiplier then shrinks the maximum. */
  lemma {:induction false} EarlyBreakAgreesIff(c: Config)
    requires c.Valid()
    ensures (forall k: nat :: EarlyBreak(c, c.base, k) == Delay(c, k))
       <==> (Scale(c.base, c) <= c.max || Scale(c.max, c) >= c.max)
  {
    if c.Grows() {
      ScaleGrows(c.max, c);
      forall k: nat ensures EarlyBreak(c, c.base, k) == Delay(c, k) { EarlyBreakIsDelay(c, 0, k); }
    } else if Scale(c.base, c) <= c.max {
      forall k: nat ensures EarlyBreak(c, c.base, k) == Delay(c, k) { NeverClamped(c, 0, k); }
    } else if Scale(c.max, c) >= c.max {
      forall k: nat ensures EarlyBreak(c, c.base, k) == Delay(c, k) {
        if k > 0 { MaxIsFixed(c, k); }
      }
    } else {
      assert Delay(c, 1) == c.max;
      assert Delay(c, 2) < c.max;
      assert EarlyBreak(c, c.base, 2) == c.max;
    }
  }

  lemma {:induction false} NeverClamped(c: Config, j: nat, k: nat)
    requires c.Valid() && !c.Grows() && Scale(Delay(c, j), c) <= c.max
    ensures EarlyBreak(c, Delay(c, j), k) == Delay(c, j + k)
    decreases k
  {
    if k > 0 {
      var next := Scale(Delay(c, j), c);
      assert Delay(c, j + 1) == next;
      ScaleShrinks(next, c);
      NeverClamped(c, j + 1, k - 1);
    }
  }

  lemma {:induction false} MaxIsFixed(c: Config, k: nat)
    requires c.Valid() && Scale(c.base, c) > c.max && Scale(c.max, c) >= c.max && k > 0
    ensures Delay(c, k) == c.max
  {
    if k > 1 { MaxIsFixed(c, k - 1); }
  }

  // Shape of the delays ---------------------------------------------------------------------

  lemma {:induction false} Monotone(c: Config, j: nat, k: nat)
    requires c.Grows() && c.base <= c.max && j <= k
    ensures c.base <= Delay(c, j) <= Delay(c, k) <= c.max
    decreases k
  {
    if j < k {
      Monotone(c, j, k - 1);
      ScaleGrows(Delay(c, k - 1), c);
    } else if k > 0 {
      Monotone(c, k - 1, k - 1);
      ScaleGrows(Delay(c, k - 1), c);
    }
  }

  function Pow(b: nat, e: nat): nat {
    if e == 0 then 1 else b * Pow(b, e - 1)
  }

  /** For a whole multiplier `m` the delay after `k >= 1` steps is the smaller of
      `base * m^k` and the maximum. The very first delay, `k == 0`, is not capped. */
  lemma {:induction false} ClosedForm(c: Config, k: nat)
    requires c.den == 1 && c.num >= 1
    ensures Delay(c, k) == if k == 0 then c.base else Clamp(c.base * Pow(c.num, k), c.max)
  {
    if k > 0 {
      ClosedForm(c, k - 1);
      var d := Delay(c, k - 1);
      assert Delay(c, k) == Clamp(d * c.num, c.max);
      NextPower(c.base, c.num, k);
      hide Pow, Delay, Scale;
      ClampThenScale(c.base * Pow(c.num, k - 1), c.num, c.max);
    }
  }

  lemma NextPower(base: nat, m: nat, k: nat)
    requires k > 0
    ensures base * Pow(m, k) == (base * Pow(m, k - 1)) * m && base * Pow(m, 0) == base
  {
    assert Pow(m, k) == m * Pow(m, k - 1);
    assert base * (m * Pow(m, k - 1)) == (base * Pow(m, k - 1)) * m;
  }

  lemma ClampThenScale(x: nat, m: nat, max: nat)
    requires m >= 1
    ensures Clamp(Clamp(x, max) * m, max) == Clamp(x * m, max)
  {
    MulLe(1, m, max);
    MulLe(1, m, x);
  }

  /** For any other multiplier: the delay is at most `base` times its `k`-th power, and short of
      that by at most `k` units of the power, which is what the truncations cost; unless a delay
      has reached the maximum, where it stays. */
  lemma {:induction false} PowerBounds(c: Config, k: nat)
    requires c.Grows()
    ensures Delay(c, k) * Pow(c.den, k) <= c.base * Pow(c.num, k)
    ensures (c.base - k) * Pow(c.num, k) <= Delay(c, k) * Pow(c.den, k) || (k > 0 && Delay(c, k) == c.max)
  {
    if k > 0 {
      var d, next := Delay(c, k - 1), Delay(c, k);
      PowerBounds(c, k - 1);
      if k > 1 && d == c.max { StaysAtMax(c, k - 1, k); }
      PowLe(c.den, c.num, k);
      assert Pow(c.num, k) == c.num * Pow(c.num, k - 1) && Pow(c.den, k) == c.den * Pow(c.den, k - 1);
      assert next * c.den <= d * c.num by { ClampedStep(c, d); }
      assert next == c.max || d * c.num < next * c.den + c.den by { ClampedStep(c, d); }
      hide Delay, Pow, Scale, Clamp;
      UpperStep(next, d, c.base, c.num, c.den, Pow(c.num, k - 1), Pow(c.den, k - 1));
      if next != c.max && (c.base - (k - 1)) * Pow(c.num, k - 1) <= d * Pow(c.den, k - 1) {
        LowerStep(next, d, c.base - (k - 1), c.num, c.den, Pow(c.num, k - 1), Pow(c.den, k - 1));
      }
    }
  }

  lemma ClampedStep(c: Config, d: nat)
    requires c.Valid()
    ensures var next := Clamp(Scale(d, c), c.max);
            next * c.den <= d * c.num && (next == c.max || d * c.num < next * c.den + c.den)
  {
    var s := Scale(d, c);
    assert s * c.den <= d * c.num < s * c.den + c.den;
    if s > c.max { MulLe(c.max, s, c.den); }
  }

  lemma {:induction false} PowLe(a: nat, b: nat, k: nat)
    requires a <= b
    ensures Pow(a, k) <= Pow(b, k)
  {
    if k > 0 {
      PowLe(a, b, k - 1);
      MulLe(a, b, Pow(a, k - 1));
      MulLe(Pow(a, k - 1), Pow(b, k - 1), b);
    }
  }

  lemma UpperStep(next: nat, d: nat, base: nat, num: nat, den: nat, p: nat, q: nat)
    requires next * den <= d * num && d * q <= base * p
    ensures next * (den * q) <= base * (num * p)
  {
    MulLe(next * den, d * num, q);
    MulLe(d * q, base * p, num);
    assert next * (den * q) == (next * den) * q && (d * num) * q == (d * q) * num;
    assert base * (num * p) == (base * p) * num;
  }

  lemma LowerStep(next: nat, d: nat, left: int, num: nat, den: nat, p: nat, q: nat)
    requires d * num < next * den + den && left * p <= d * q && den * q <= num * p
    ensures (left - 1) * (num * p) <= next * (den * q)
  {
    MulLe(d * num, next * den + den, q);
    MulLe(left * p, d * q, num);
    assert (next * den + den) * q == next * (den * q) + den * q;
    assert (d * num) * q == (d * q) * num && (left * p) * num == left * (num * p);
    assert (left - 1) * (num * p) == left * (num * p) - num * p;
  }

  /** The three places agree once their attempt numbers are lined up. */
  method SameBackoff(c: Config, retry: int) returns (a: nat, b: nat, d: nat)
    requires c.Valid() && retry >= 0
    ensures a == b == d == EarlyBreak(c, c.base, retry)
  {
    a := GetDelay(c, retry);
    b := RetryerDelay(c, retry + 1);
    d := JobRetryDelay(c, retry + 1);
  }

  // Jitter ----------------------------------------------------------------------------------

  const JITTER_RANGE := 1000

  /** Division truncating toward zero. */
  function Truncate(a: int, b: int): int
    requires b > 0
  {
    if a >= 0 then a / b else -(-a / b)
  }

  /** `applyJitter`: the delay plus a quarter of it times `2r - 1`, where `r` is the last three
      digits of the clock over a thousand. */
  function ApplyJitter(delay: nat, nanoTime: nat): int {
    delay + Truncate(delay * (2 * (nanoTime % JITTER_RANGE) - JITTER_RANGE), 4 * JITTER_RANGE)
  }

  lemma MulBounds(d: nat, x: int)
    requires -JITTER_RANGE <= x <= JITTER_RANGE - 2
    ensures -(d * JITTER_RANGE) <= d * x <= d * (JITTER_RANGE - 2)
  {
    MulLe(-JITTER_RANGE, x, d);
    MulLe(x, JITTER_RANGE - 2, d);
  }

  /** Jitter moves a delay by at most a quarter of it, and never reaches the upper end. */
  lemma JitterStaysWithinAQuarter(delay: nat, nanoTime: nat)
    ensures 3 * delay <= 4 * ApplyJitter(delay, nanoTime) <= 5 * delay
    ensures delay > 0 ==> 4 * ApplyJitter(delay, nanoTime) < 5 * delay
  {
    var x := 2 * (nanoTime % JITTER_RANGE) - JITTER_RANGE;
    MulBounds(delay, x);
    var p := delay * x;
    if p >= 0 {
      assert p <= delay * 998;
    } else {
      assert -p <= delay * 1000;
    }
  }

  /** The jitter is a quarter of the delay times `2r - 1`, truncated toward zero, where `r` is the
      last three digits of the clock as a fraction; so readings on either side of the middle
      balance each other. */
  lemma JitterIsProportional(delay: nat, nanoTime: nat)
    ensures var jitter, x := ApplyJitter(delay, nanoTime) - delay, delay * (2 * (nanoTime % 1000) - 1000);
            if x >= 0 then 0 <= 4000 * jitter <= x < 4000 * jitter + 4000
            else 4000 * jitter - 4000 < x <= 4000 * jitter <= 0
    ensures nanoTime % 1000 > 0 ==>
              ApplyJitter(delay, nanoTime) + ApplyJitter(delay, 1000 - nanoTime % 1000) == 2 * delay
  {
    hide ApplyJitter, Truncate;
    var r := nanoTime % 1000;
    var x := delay * (2 * r - 1000);
    JitterIs(delay, nanoTime, r);
    TruncateBounds(x);
    if r > 0 {
      JitterIs(delay, 1000 - r, 1000 - r);
      Mirrored(delay, r);
    }
  }

  lemma JitterIs(delay: nat, nanoTime: nat, r: nat)
    requires r == nanoTime % 1000
    ensures ApplyJitter(delay, nanoTime) == delay + Truncate(delay * (2 * r - 1000), 4000)
  {
    hide Truncate;
  }

  lemma Mirrored(delay: nat, r: nat)
    ensures delay * (2 * (1000 - r) - 1000) == -(delay * (2 * r - 1000))
  {
  }

  lemma TruncateBounds(x: int)
    ensures var t := Truncate(x, 4000); if x >= 0 then 0 <= 4000 * t <= x < 4000 * t + 4000
                                        else 4000 * t - 4000 < x <= 4000 * t <= 0
    ensures Truncate(-x, 4000) == -Truncate(x, 4000)
  {
  }

  /** A jittered delay exceeds the cap of its configuration for some clock reading exactly when
      the delay leaves less room below the cap than the largest jitter, `delay * 998 / 4000`. */
  lemma JitterCanPassMaxIff(delay: nat, max: nat)
    ensures (exists nanoTime: nat :: ApplyJitter(delay, nanoTime) > max) <==> delay + delay * 998 / 4000 > max
  {
    assert ApplyJitter(delay, 999) == delay + delay * 998 / 4000;
    forall nanoTime: nat
      ensures ApplyJitter(delay, nanoTime) <= ApplyJitter(delay, 999)
    {
      var x := 2 * (nanoTime % JITTER_RANGE) - JITTER_RANGE;
      MulBounds(delay, x);
      if delay * x >= 0 { DivMono(delay * x, delay * 998, 4000); }
    }
  }
}
