/** The token bucket that guards the Jira client (internal/jira/client.go:31-76).

    Time is an integer number of nanoseconds. A call of `Wait` is given the two clock readings it
    makes: `now` on entry and, should it sleep, `wake` when the sleep is over. */
module TokenBucket {
  import opened Arithmetic
  import opened Common

  const SECOND := 1_000_000_000

  datatype Bucket = Bucket(tokens: int, capacity: int, rate: int, lastRefill: int)

  datatype Call = Call(now: int, wake: int)

  function Min(a: int, b: int): int {
    if a < b then a else b
  }

  /** The length of the sleep of a caller that finds no token: a second over the rate, truncated. */
  function WaitTime(rate: int): (w: int)
    requires rate > 0
    ensures 0 <= w
  {
    SECOND / rate
  }

  function Fresh(rate: int, t0: int): Bucket {
    Bucket(rate, rate, rate, t0)
  }

  function Refilled(b: Bucket, now: int): (r: Bucket)
    ensures r.rate == b.rate && r.capacity == b.capacity
  {
    var tokensToAdd := (now - b.lastRefill) * b.rate / SECOND;
    if tokensToAdd > 0 then b.(tokens := Min(b.capacity, b.tokens + tokensToAdd), lastRefill := now) else b
  }

  predicate Sleeps(b: Bucket, c: Call) {
    Refilled(b, c.now).tokens <= 0
  }

  /** The bucket once the call has returned. */
  function After(b: Bucket, c: Call): Bucket {
    if Sleeps(b, c) then b.(tokens := 0, lastRefill := c.wake)
    else var r := Refilled(b, c.now); r.(tokens := r.tokens - 1)
  }

  function ReturnTime(b: Bucket, c: Call): int {
    if Sleeps(b, c) then c.wake else c.now
  }

  class RateLimiter {
    var tokens: int
    var capacity: int
    var rate: int
    var lastRefill: int

    ghost function State(): Bucket
      reads this
    {
      Bucket(tokens, capacity, rate, lastRefill)
    }

    constructor (rate: int, now: int)
      ensures State() == Fresh(rate, now)
    {
      this.tokens, this.capacity, this.rate, this.lastRefill := rate, rate, rate, now;
    }

    method Wait(now: int, wake: int) returns (returned: int)
      requires rate > 0
      modifies this
      ensures State() == After(old(State()), Call(now, wake))
      ensures returned == ReturnTime(old(State()), Call(now, wake))
      ensures capacity > 0 && 0 <= old(tokens) ==>
                returned == if old(tokens) > 0 || (now - old(lastRefill)) * rate >= 1_000_000_000 then now else wake
    {
      returned := now;
      var elapsed := now - lastRefill;
      var tokensToAdd := elapsed * rate / SECOND;
      if tokensToAdd > 0 {
        tokens := Min(capacity, tokens + tokensToAdd);
        lastRefill := now;
      }
      if tokens <= 0 {
        returned := wake;
        tokens := 1;
        lastRefill := wake;
      }
      tokens := tokens - 1;
    }
  }

  // Runs of one caller after the other ------------------------------------------------------

  /** Sequential callers from time `t` on: each enters after the one before it returned, and a
      sleep lasts at least `WaitTime`. */
  ghost predicate Sequential(b: Bucket, t: int, calls: seq<Call>)
    requires b.rate > 0
    decreases |calls|
  {
    calls == [] ||
    (var c := calls[0];
     && t <= c.now
     && (Sleeps(b, c) ==> c.now + WaitTime(b.rate) <= c.wake)
     && Sequential(After(b, c), ReturnTime(b, c), calls[1..]))
  }

  ghost function Returns(b: Bucket, calls: seq<Call>): (r: seq<int>)
    ensures |r| == |calls|
    decreases |calls|
  {
    if calls == [] then [] else [ReturnTime(b, calls[0])] + Returns(After(b, calls[0]), calls[1..])
  }

  ghost predicate Inv(b: Bucket, t: int) {
    0 <= b.tokens <= b.capacity && b.capacity == b.rate && b.rate > 0 && b.lastRefill <= t
  }

  // The potential argument ------------------------------------------------------------------

  lemma RefillEarnsAtMost(elapsed: int, rate: int)
    requires rate > 0 && elapsed >= 0
    ensures WaitTime(rate) * (elapsed * rate / SECOND) <= elapsed
  {
    var add, w := elapsed * rate / SECOND, WaitTime(rate);
    assert elapsed * rate >= 0;
    assert w * rate <= SECOND;
    assert add * SECOND <= elapsed * rate;
    assert rate * (w * add) <= rate * elapsed by {
      assert (w * rate) * add <= SECOND * add by { MulLe(w * rate, SECOND, add); }
      assert rate * (w * add) == (w * rate) * add;
    }
    if w * add > elapsed { MulLt(elapsed, w * add, rate); }
  }

  lemma NoTokenMeansRecent(elapsed: int, rate: int)
    requires rate > 0 && elapsed >= 0 && elapsed * rate / SECOND <= 0
    ensures elapsed <= WaitTime(rate)
  {
    var w := WaitTime(rate);
    assert SECOND == w * rate + SECOND % rate;
    assert (w + 1) * rate == w * rate + rate;
    assert elapsed * rate < SECOND;
    if elapsed >= w + 1 { MulLe(w + 1, elapsed, rate); }
  }

  /** One call: the potential `WaitTime * tokens - lastRefill` pays for the token the call took. */
  lemma CallIsPaidFor(b: Bucket, t: int, c: Call)
    requires Inv(b, t) && Sequential(b, t, [c])
    ensures var b', t' := After(b, c), ReturnTime(b, c);
            && Inv(b', t') && t <= t'
            && b'.rate == b.rate
            && b'.tokens < b'.capacity
            && t' - b'.lastRefill <= WaitTime(b.rate)
            && WaitTime(b.rate) * (1 + b'.tokens - b.tokens) <= b'.lastRefill - b.lastRefill
  {
    var w, e := WaitTime(b.rate), c.now - b.lastRefill;
    var add := e * b.rate / SECOND;
    assert [c][1..] == [];
    RefillEarnsAtMost(e, b.rate);
    if add > 0 {
      var b' := After(b, c);
      var gain := 1 + b'.tokens - b.tokens;
      assert gain <= add;
      if gain > 0 { MulLe(gain, add, w); }
    } else {
      NoTokenMeansRecent(e, b.rate);
    }
  }

  ghost predicate PaidFor(b: Bucket, r: seq<int>, k: nat)
    requires b.rate > 0 && k < |r|
  {
    WaitTime(b.rate) * (k + 1 - b.tokens) <= r[k] - b.lastRefill
  }

  lemma PaidForFirst(b: Bucket, b': Bucket, r: seq<int>)
    requires 0 < b.rate && 0 < |r| && b'.lastRefill <= r[0] && 0 <= b'.tokens
    requires WaitTime(b.rate) * (1 + b'.tokens - b.tokens) <= b'.lastRefill - b.lastRefill
    ensures PaidFor(b, r, 0)
  {
    MulLe(1 - b.tokens, 1 + b'.tokens - b.tokens, WaitTime(b.rate));
  }

  lemma PaidForLater(b: Bucket, b': Bucket, r': seq<int>, r: seq<int>, k: nat)
    requires 0 < b.rate == b'.rate && 0 < k <= |r'| && |r| == |r'| + 1 && r[k] == r'[k - 1] && PaidFor(b', r', k - 1)
    requires WaitTime(b.rate) * (1 + b'.tokens - b.tokens) <= b'.lastRefill - b.lastRefill
    ensures PaidFor(b, r, k)
  {
    var w := WaitTime(b.rate);
    hide WaitTime;
    assert w * (k - b'.tokens) + w * (1 + b'.tokens - b.tokens) == w * (k + 1 - b.tokens);
  }

  /** Along a run, the calls up to the `k`-th that return have used up the tokens there were
      and the time since the last refill. */
  lemma {:induction false} RunIsPaidFor(b: Bucket, t: int, calls: seq<Call>, k: nat)
    requires Inv(b, t) && Sequential(b, t, calls) && k < |calls|
    ensures t <= Returns(b, calls)[k]
    ensures PaidFor(b, Returns(b, calls), k)
    decreases |calls|
  {
    var c := calls[0];
    var b', t' := After(b, c), ReturnTime(b, c);
    CallIsPaidFor(b, t, c);
    hide WaitTime, After, PaidFor;
    if k == 0 {
      PaidForFirst(b, b', Returns(b, calls));
    } else {
      RunIsPaidFor(b', t', calls[1..], k - 1);
      PaidForLater(b, b', Returns(b', calls[1..]), Returns(b, calls), k);
    }
  }

  /** Two calls of one run: the gap between their returns bounds how many calls lie between. */
  lemma {:induction false} GapBound(b: Bucket, t: int, calls: seq<Call>, i: nat, j: nat)
    requires Inv(b, t) && Sequential(b, t, calls) && i <= j < |calls|
    ensures var r := Returns(b, calls);
            WaitTime(b.rate) * (j - i + 1 - b.rate - 1) <= r[j] - r[i]
    decreases i
  {
    hide WaitTime, Refilled;
    var b', t', w := After(b, calls[0]), ReturnTime(b, calls[0]), WaitTime(b.rate);
    CallIsPaidFor(b, t, calls[0]);
    if i > 0 {
      GapBound(b', t', calls[1..], i - 1, j - 1);
    } else if j == 0 {
      MulLe(-b.rate, 0, w);
    } else {
      RunIsPaidFor(b', t', calls[1..], j - 1);
      AfterFirst(w, j, b.rate, b'.tokens, Returns(b', calls[1..])[j - 1] - b'.lastRefill, t' - b'.lastRefill);
    }
  }

  lemma AfterFirst(w: int, j: int, rate: int, tokens: int, last: int, first: int)
    requires 0 <= w && tokens < rate && w * (j - tokens) <= last && first <= w
    ensures w * (j + 1 - rate - 1) <= last - first
  {
    MulLe(j - rate + 1, j - tokens, w);
    assert w * (j - rate + 1) == w * (j - rate) + w;
  }

  lemma {:induction false} CountSpan(r: seq<int>, lo: int, hi: int) returns (i: nat, j: nat)
    requires CountIn(r, lo, hi) > 0
    ensures i <= j < |r| && lo <= r[i] && r[j] <= hi && CountIn(r, lo, hi) <= j - i + 1
  {
    var rest := CountIn(r[1..], lo, hi);
    if rest == 0 {
      i, j := 0, 0;
    } else {
      i, j := CountSpan(r[1..], lo, hi);
      i, j := if lo <= r[0] <= hi then 0 else i + 1, j + 1;
    }
  }

  /** The first returns have used up the initial tokens and `m` callers' time since `t0`. */
  ghost predicate ReturnsPaid(m: nat, returned: seq<int>, rate: int, t0: int)
    requires rate > 0
  {
    forall i :: 0 <= i < |returned| ==> WaitTime(rate) * (i + 1 - rate) <= m * (returned[i] - t0)
  }

  lemma CountIsPaidFor(m: nat, returned: seq<int>, rate: int, t0: int, T: nat)
    requires rate > 0 && ReturnsPaid(m, returned, rate, t0)
    ensures WaitTime(rate) * (CountIn(returned, t0, t0 + T) - rate) <= m * T
  {
    hide CountIn, WaitTime;
    var n, w := CountIn(returned, t0, t0 + T), WaitTime(rate);
    if n == 0 {
      MulLe(-rate, 0, w);
      MulLe(0, T, m);
    } else {
      var i, j := CountSpan(returned, t0, t0 + T);
      MulLe(n - rate, j + 1 - rate, w);
      MulLe(returned[j] - t0, T, m);
    }
  }

  /** Each return pays for all that come after it. */
  ghost predicate ReturnsPaidSince(m: nat, returned: seq<int>, rate: int)
    requires rate > 0
  {
    forall i, j :: 0 <= i <= j < |returned| ==>
      WaitTime(rate) * (j - i + 1 - rate - m) <= m * (returned[j] - returned[i])
  }

  lemma WindowIsPaidFor(m: nat, returned: seq<int>, rate: int, start: int, W: nat)
    requires rate > 0 && ReturnsPaidSince(m, returned, rate)
    ensures WaitTime(rate) * (CountIn(returned, start, start + W) - rate - m) <= m * W
  {
    hide CountIn, WaitTime;
    var n, w := CountIn(returned, start, start + W), WaitTime(rate);
    if n == 0 {
      MulLe(-rate - m, 0, w);
      MulLe(0, W, m);
    } else {
      var i, j := CountSpan(returned, start, start + W);
      MulLe(n - rate - m, j - i + 1 - rate - m, w);
      MulLe(returned[j] - returned[i], W, m);
    }
  }

  /** For every rate: within `T` of construction at most `rate + T / WaitTime` calls return. */
  lemma BoundFromConstruction(rate: int, t0: int, calls: seq<Call>, T: nat)
    requires rate > 0 && Sequential(Fresh(rate, t0), t0, calls)
    ensures WaitTime(rate) * (CountIn(Returns(Fresh(rate, t0), calls), t0, t0 + T) - rate) <= T
  {
    hide WaitTime, Refilled, Returns, CountIn;
    var b := Fresh(rate, t0);
    var r := Returns(b, calls);
    forall i | 0 <= i < |r| ensures WaitTime(rate) * (i + 1 - rate) <= 1 * (r[i] - t0) {
      RunIsPaidFor(b, t0, calls, i);
    }
    CountIsPaidFor(1, r, rate, t0, T);
  }

  /** For every rate: in any window of length `W` at most `rate + 1 + W / WaitTime` calls return. */
  lemma BoundInAnyWindow(rate: int, t0: int, calls: seq<Call>, start: int, W: nat)
    requires rate > 0 && Sequential(Fresh(rate, t0), t0, calls)
    ensures WaitTime(rate) * (CountIn(Returns(Fresh(rate, t0), calls), start, start + W) - rate - 1) <= W
  {
    hide WaitTime, Refilled, Returns, CountIn;
    var b := Fresh(rate, t0);
    var r := Returns(b, calls);
    forall i, j | 0 <= i <= j < |r| ensures WaitTime(rate) * (j - i + 1 - rate - 1) <= 1 * (r[j] - r[i]) {
      GapBound(b, t0, calls, i, j);
    }
    WindowIsPaidFor(1, r, rate, start, W);
  }

  // What idle time buys -----------------------------------------------------------------------

  /** Callers that enter together find the tokens there are, once refilled, and then sleep. */
  lemma {:induction false} TogetherUntilEmpty(b: Bucket, now: int, calls: seq<Call>, i: nat)
    requires i < |calls| && forall j :: 0 <= j <= i ==> calls[j].now == now
    ensures i < Refilled(b, now).tokens ==> Returns(b, calls)[i] == now
    ensures i == NonNegative(Refilled(b, now).tokens) ==> Returns(b, calls)[i] == calls[i].wake
    decreases i
  {
    if 0 < i <= Refilled(b, now).tokens {
      assert Refilled(After(b, calls[0]), now).tokens == Refilled(b, now).tokens - 1;
      TogetherUntilEmpty(After(b, calls[0]), now, calls[1..], i - 1);
    }
  }

  /** Do the tokens left, and those that `d` nanoseconds earn at `rate` a second, make up a
      burst of `n` calls? No burst is larger than the rate. */
  predicate BuysBurst(tokens: int, rate: int, d: int, n: int) {
    n <= rate && (n - tokens) * 1_000_000_000 <= d * rate
  }

  /** Exactly the largest burst that is paid for returns at once: of the callers that enter
      together `d` after the last refill, the first ones that it covers, and the next one sleeps. */
  lemma IdleTimeBuys(b: Bucket, d: nat, calls: seq<Call>, i: nat)
    requires Inv(b, b.lastRefill) && i < |calls| && forall j :: 0 <= j <= i ==> calls[j].now == b.lastRefill + d
    ensures BuysBurst(b.tokens, b.rate, d, i + 1) ==> Returns(b, calls)[i] == b.lastRefill + d
    ensures BuysBurst(b.tokens, b.rate, d, i) && !BuysBurst(b.tokens, b.rate, d, i + 1) ==>
              Returns(b, calls)[i] == calls[i].wake
  {
    hide Returns, Refilled, BuysBurst;
    BurstIsRefill(b, d, i + 1);
    BurstIsRefill(b, d, i);
    TogetherUntilEmpty(b, b.lastRefill + d, calls, i);
  }

  lemma BurstIsRefill(b: Bucket, d: nat, n: int)
    requires Inv(b, b.lastRefill)
    ensures BuysBurst(b.tokens, b.rate, d, n) <==> n <= Refilled(b, b.lastRefill + d).tokens
  {
    hide Refilled;
    var earned := d * b.rate;
    MulNonNegative(d, b.rate);
    DivAtLeast(earned, SECOND, n - b.tokens);
    RefilledAfter(b, d, earned);
  }

  lemma RefilledAfter(b: Bucket, d: nat, earned: int)
    requires earned == d * b.rate >= 0
    ensures var tokens := Refilled(b, b.lastRefill + d).tokens;
            tokens == if earned / SECOND > 0 then Min(b.capacity, b.tokens + earned / SECOND) else b.tokens
  {
    hide Min;
  }

  /** Callers that come before a token is earned take one each of those there are, and do not
      delay the next one. */
  lemma {:induction false} EarlyCallersTakeOne(b: Bucket, d: nat, early: seq<Call>, calls: seq<Call>, i: nat)
    requires Inv(b, b.lastRefill) && |early| <= b.tokens
    requires forall j :: 0 <= j < |early| ==> 0 <= (early[j].now - b.lastRefill) * b.rate < 1_000_000_000
    requires i < |calls| && forall j :: 0 <= j <= i ==> calls[j].now == b.lastRefill + d
    ensures var r, left := Returns(b, early + calls), b.tokens - |early|;
            && (forall j :: 0 <= j < |early| ==> r[j] == early[j].now)
            && (BuysBurst(left, b.rate, d, i + 1) ==> r[|early| + i] == b.lastRefill + d)
            && (BuysBurst(left, b.rate, d, i) && !BuysBurst(left, b.rate, d, i + 1) ==>
                  r[|early| + i] == calls[i].wake)
    decreases |early|
  {
    if early == [] {
      IdleTimeBuys(b, d, calls, i);
      assert early + calls == calls;
    } else {
      EarlyCallerTakesOne(b, early[0]);
      hide After, ReturnTime, BuysBurst;
      assert (early + calls)[1..] == early[1..] + calls;
      EarlyCallersTakeOne(b.(tokens := b.tokens - 1), d, early[1..], calls, i);
    }
  }

  lemma EarlyCallerTakesOne(b: Bucket, c: Call)
    requires b.tokens > 0 && 0 <= (c.now - b.lastRefill) * b.rate < 1_000_000_000
    ensures After(b, c) == b.(tokens := b.tokens - 1) && ReturnTime(b, c) == c.now
  {
  }

  /** From a bucket that a sleeper has just emptied and reset: `d` later the callers that return
      at once are `min(rate, d * rate / 10^9)`, which after a second is a full burst. */
  lemma BurstAfterSleep(b: Bucket, t: int, c: Call, d: nat, calls: seq<Call>)
    requires Inv(b, t) && Sequential(b, t, [c]) && Returns(b, [c])[0] != c.now
    requires forall j :: 0 <= j < |calls| ==> calls[j].now == c.wake + d
    ensures var r, earned := Returns(b, [c] + calls), d * b.rate / 1_000_000_000;
            var n := if earned < b.rate then earned else b.rate;
            && 0 <= n && (d >= 1_000_000_000 ==> n == b.rate)
            && r[0] == c.wake
            && (forall i :: 1 <= i <= |calls| && i <= n ==> r[i] == c.wake + d)
            && (n < |calls| ==> r[n + 1] == calls[n].wake)
  {
    var empty := Bucket(0, b.capacity, b.rate, c.wake);
    assert After(b, c) == empty && ([c] + calls)[1..] == calls;
    var r := Returns(b, [c] + calls);
    assert r == [c.wake] + Returns(empty, calls);
    forall i: nat | 1 <= i <= |calls|
      ensures BuysBurst(0, b.rate, d, i) ==> r[i] == c.wake + d
      ensures BuysBurst(0, b.rate, d, i - 1) && !BuysBurst(0, b.rate, d, i) ==> r[i] == calls[i - 1].wake
    {
      IdleTimeBuys(empty, d, calls, i - 1);
    }
    hide Returns, After, Sequential;
    MulNonNegative(d, b.rate);
    if d >= 1_000_000_000 {
      MulLe(1_000_000_000, d, b.rate);
      DivAtLeast(d * b.rate, 1_000_000_000, b.rate);
    }
  }

  // The advertised rate -----------------------------------------------------------------------

  /** The limit the name of the type promises: `rate` calls a second beyond the initial burst. */
  ghost predicate KeepsRate(rate: int)
    requires rate > 0
  {
    forall t0: int, calls: seq<Call>, T: nat | Sequential(Fresh(rate, t0), t0, calls) ::
      WithinRate(rate, t0, Returns(Fresh(rate, t0), calls), T)
  }

  ghost predicate WithinRate(rate: int, t0: int, times: seq<int>, T: nat) {
    SECOND * (CountIn(times, t0, t0 + T) - rate) <= rate * T
  }

  /** `n` calls entering at `t`, followed by one more that sleeps for the minimum. */
  ghost function Burst(n: nat, t: int, w: int): (s: seq<Call>)
    ensures |s| == n + 1
  {
    if n == 0 then [Call(t, t + w)] else [Call(t, t)] + Burst(n - 1, t, w)
  }

  lemma {:induction false} BurstOutcome(b: Bucket, t: int)
    requires b.rate > 0 && b.lastRefill == t && 0 <= b.tokens
    ensures var w := WaitTime(b.rate); var s := Burst(b.tokens, t, w);
            Sequential(b, t, s) && CountIn(Returns(b, s), t, t + w) == b.tokens + 1
    decreases b.tokens
  {
    var w := WaitTime(b.rate);
    var s := Burst(b.tokens, t, w);
    assert Refilled(b, t) == b;
    if b.tokens > 0 {
      BurstOutcome(After(b, s[0]), t);
      assert s[1..] == Burst(b.tokens - 1, t, w);
    }
    assert Returns(b, s)[1..] == Returns(After(b, s[0]), s[1..]);
  }

  lemma DivisorKeepsRate(rate: int, t0: int, calls: seq<Call>, T: nat)
    requires rate > 0 && SECOND % rate == 0 && Sequential(Fresh(rate, t0), t0, calls)
    ensures WithinRate(rate, t0, Returns(Fresh(rate, t0), calls), T)
  {
    var w := WaitTime(rate);
    assert SECOND == w * rate;
    hide WaitTime, Refilled, Returns, CountIn, Sequential;
    BoundFromConstruction(rate, t0, calls, T);
    ScaleBound(w, rate, CountIn(Returns(Fresh(rate, t0), calls), t0, t0 + T) - rate, T);
  }

  lemma ScaleBound(w: int, rate: int, x: int, T: int)
    requires rate > 0 && w * x <= T
    ensures (w * rate) * x <= rate * T
  {
    MulLe(w * x, T, rate);
    assert (w * x) * rate == (w * rate) * x;
  }

  /** The promise is kept on every run exactly when the rate divides a second. */
  lemma KeepsRateIffDivides(rate: int)
    requires rate > 0
    ensures KeepsRate(rate) <==> SECOND % rate == 0
  {
    hide Refilled, Returns;
    var w := WaitTime(rate);
    assert SECOND == w * rate + SECOND % rate;
    if SECOND % rate == 0 {
      forall t0: int, calls: seq<Call>, T: nat | Sequential(Fresh(rate, t0), t0, calls)
        ensures WithinRate(rate, t0, Returns(Fresh(rate, t0), calls), T)
      {
        DivisorKeepsRate(rate, t0, calls, T);
      }
    } else {
      var b := Fresh(rate, 0);
      BurstOutcome(b, 0);
      assert 0 + w == w;
      var s := Burst(rate, 0, w);
      assert !WithinRate(rate, 0, Returns(b, s), w) by { assert SECOND > rate * w; }
    }
  }

  // Overlapping callers -------------------------------------------------------------------------

  /** `Wait` releases its lock while it sleeps, so several callers can be asleep at once:
      `Enter` is the part before the sleep, `Wake` the part of the `i`-th sleeper after it. */
  datatype Event = Enter(now: int) | Wake(i: nat, wake: int)

  /** The bucket, the time, the earliest wake-up times of the sleeping callers, and the return
      times so far. */
  datatype Shared = Shared(b: Bucket, clock: int, asleep: seq<int>, returned: seq<int>)

  function Time(e: Event): int {
    match e
    case Enter(now) => now
    case Wake(_, wake) => wake
  }

  /** What can happen with at most `m` callers in flight. */
  predicate CanStep(m: nat, s: Shared, e: Event) {
    && s.b.rate > 0 && s.clock <= Time(e)
    && match e
       case Enter(_) => |s.asleep| < m
       case Wake(i, wake) => i < |s.asleep| && s.asleep[i] <= wake
  }

  function Step(m: nat, s: Shared, e: Event): Shared
    requires CanStep(m, s, e)
  {
    match e
    case Enter(now) =>
      var r := Refilled(s.b, now);
      if r.tokens <= 0 then Shared(r, now, s.asleep + [now + WaitTime(s.b.rate)], s.returned)
      else Shared(r.(tokens := r.tokens - 1), now, s.asleep, s.returned + [now])
    case Wake(i, wake) =>
      Shared(s.b.(tokens := 0, lastRefill := wake), wake, s.asleep[..i] + s.asleep[i + 1..], s.returned + [wake])
  }

  ghost predicate Reaches(m: nat, s: Shared, events: seq<Event>, s': Shared)
    decreases |events|
  {
    if events == [] then s == s'
    else CanStep(m, s, events[0]) && Reaches(m, Step(m, s, events[0]), events[1..], s')
  }

  function FreshShared(rate: int, t0: int): Shared {
    Shared(Fresh(rate, t0), t0, [], [])
  }

  /** A caller that nobody overlaps does exactly what `After` says. */
  lemma EnterThenWakeIsWait(b: Bucket, t: int, c: Call)
    requires b.rate > 0 && Sequential(b, t, [c])
    ensures var s, done := Shared(b, t, [], []), Shared(After(b, c), ReturnTime(b, c), [], [ReturnTime(b, c)]);
            if Sleeps(b, c) then Reaches(1, s, [Enter(c.now), Wake(0, c.wake)], done)
              else Reaches(1, s, [Enter(c.now)], done)
  {
    var s := Shared(b, t, [], []);
    var s1 := Step(1, s, Enter(c.now));
    var done := Shared(After(b, c), ReturnTime(b, c), [], [ReturnTime(b, c)]);
    hide Refilled;
    if Sleeps(b, c) {
      var es := [Enter(c.now), Wake(0, c.wake)];
      assert CanStep(1, s1, es[1]) && Step(1, s1, es[1]) == done;
      assert es[1..][1..] == [];
      assert Reaches(1, s1, es[1..], done);
    } else {
      assert s1 == done && [Enter(c.now)][1..] == [];
    }
  }

  // A bound for a bounded number of callers ---------------------------------------------------------

  /** How long the sleeping callers have slept by now, all together, as far as it counts: a sleep
      that is over buys one return, however long it takes to end. */
  function Slept(asleep: seq<int>, w: int, clock: int): int {
    if asleep == [] then 0
    else Slept(asleep[..|asleep| - 1], w, clock) + Min(w, clock + w - asleep[|asleep| - 1])
  }

  lemma {:induction false} SleptLater(asleep: seq<int>, w: int, clock: int, later: int)
    requires clock <= later
    ensures Slept(asleep, w, later) <= Slept(asleep, w, clock) + |asleep| * (later - clock)
  {
    if asleep != [] {
      var n := |asleep| - 1;
      SleptLater(asleep[..n], w, clock, later);
      assert (n + 1) * (later - clock) == n * (later - clock) + (later - clock);
    }
  }

  lemma SleptPush(asleep: seq<int>, w: nat, clock: int)
    ensures Slept(asleep + [clock + w], w, clock) == Slept(asleep, w, clock)
  {
    assert (asleep + [clock + w])[..|asleep|] == asleep;
  }

  lemma {:induction false} SleptDrop(asleep: seq<int>, w: int, clock: int, i: nat)
    requires i < |asleep|
    ensures Slept(asleep[..i] + asleep[i + 1..], w, clock) == Slept(asleep, w, clock) - Min(w, clock + w - asleep[i])
  {
    var n := |asleep| - 1;
    var rest := asleep[..i] + asleep[i + 1..];
    if i == n {
      assert rest == asleep[..n];
    } else {
      SleptDrop(asleep[..n], w, clock, i);
      assert rest[..n - 1] == asleep[..n][..i] + asleep[..n][i + 1..];
    }
  }

  lemma {:induction false} SleptBounds(asleep: seq<int>, w: nat, clock: int)
    requires forall i :: 0 <= i < |asleep| ==> asleep[i] <= clock + w
    ensures 0 <= Slept(asleep, w, clock) <= |asleep| * w
  {
    if asleep != [] {
      var n := |asleep| - 1;
      SleptBounds(asleep[..n], w, clock);
      assert (n + 1) * w == n * w + w;
    }
  }

  /** Up to when time has been spent: while every caller is asleep nobody can refill the bucket,
      and the next one to wake up will reset it. */
  function Spent(m: nat, s: Shared): int {
    if |s.asleep| == m then s.clock else s.b.lastRefill
  }

  /** What has been let through, is left and is being slept for, less the time that pays for it:
      the bucket's, and that of the other callers. */
  function Potential(m: nat, s: Shared): int
    requires s.b.rate > 0
  {
    var w := WaitTime(s.b.rate);
    w * (|s.returned| + s.b.tokens) + Slept(s.asleep, w, s.clock) - Spent(m, s) - (m - 1) * s.clock
  }

  ghost predicate Sane(m: nat, s: Shared) {
    && Inv(s.b, s.clock)
    && |s.asleep| <= m
    && forall i :: 0 <= i < |s.asleep| ==> s.asleep[i] <= s.clock + WaitTime(s.b.rate)
  }

  lemma RefillIsPaidFor(b: Bucket, t: int, now: int)
    requires Inv(b, t) && t <= now
    ensures var r := Refilled(b, now);
            && Inv(r, now) && b.lastRefill <= r.lastRefill
            && (r.tokens <= 0 ==> r == b && b.tokens == 0)
            && (r.tokens > 0 ==> now - r.lastRefill <= WaitTime(b.rate))
            && WaitTime(b.rate) * (r.tokens - b.tokens) <= r.lastRefill - b.lastRefill
  {
    var w, e := WaitTime(b.rate), now - b.lastRefill;
    var add, r := e * b.rate / SECOND, Refilled(b, now);
    RefillEarnsAtMost(e, b.rate);
    if add > 0 {
      assert r.tokens - b.tokens <= add;
      MulLe(r.tokens - b.tokens, add, w);
    } else {
      NoTokenMeansRecent(e, b.rate);
    }
  }

  /** Time that passes pays for the sleep that goes on in it. */
  lemma WaitingIsPaidFor(m: nat, s: Shared, now: int)
    requires s.b.rate > 0 && |s.asleep| <= m && s.clock <= now
    ensures Potential(m, s.(clock := now)) <= Potential(m, s)
  {
    hide WaitTime;
    var d, k := now - s.clock, |s.asleep|;
    SleptLater(s.asleep, WaitTime(s.b.rate), s.clock, now);
    assert (m - 1) * now == (m - 1) * s.clock + (m - 1) * d;
    if k < m { MulLe(k, m - 1, d); } else { assert m * d == (m - 1) * d + d; }
  }

  lemma EnterIsPaidFor(m: nat, s: Shared, now: int)
    requires Sane(m, s) && s.clock == now && CanStep(m, s, Enter(now))
    ensures Sane(m, Step(m, s, Enter(now))) && Potential(m, Step(m, s, Enter(now))) <= Potential(m, s)
  {
    var w, r := WaitTime(s.b.rate), Refilled(s.b, now);
    RefillIsPaidFor(s.b, s.clock, now);
    SleptPush(s.asleep, w, now);
    hide WaitTime, Refilled, Slept;
    if r.tokens > 0 {
      assert w * (|s.returned| + 1 + (r.tokens - 1)) == w * (|s.returned| + s.b.tokens) + w * (r.tokens - s.b.tokens);
    }
  }

  lemma WakeIsPaidFor(m: nat, s: Shared, i: nat, wake: int)
    requires Sane(m, s) && s.clock == wake && CanStep(m, s, Wake(i, wake))
    ensures Sane(m, Step(m, s, Wake(i, wake))) && Potential(m, Step(m, s, Wake(i, wake))) <= Potential(m, s)
  {
    var w, n := WaitTime(s.b.rate), |s.returned|;
    SleptDrop(s.asleep, w, wake, i);
    hide WaitTime, Slept;
    TokenLost(w, n, s.b.tokens);
  }

  /** Waking up resets the bucket to nothing, whatever tokens it held. */
  lemma TokenLost(w: nat, n: nat, tokens: nat)
    ensures w * (n + 1) <= w * (n + tokens) + w
  {
    MulLe(n + 1, n + 1 + tokens, w);
    assert w * (n + 1 + tokens) == w * (n + tokens) + w;
  }

  lemma StepIsPaidFor(m: nat, s: Shared, e: Event)
    requires Sane(m, s) && CanStep(m, s, e)
    ensures Sane(m, Step(m, s, e)) && Step(m, s, e).b.rate == s.b.rate
    ensures Potential(m, Step(m, s, e)) <= Potential(m, s)
  {
    var s1 := s.(clock := Time(e));
    WaitingIsPaidFor(m, s, Time(e));
    hide WaitTime, Refilled, Potential;
    assert Step(m, s, e) == Step(m, s1, e);
    match e {
      case Enter(now) => EnterIsPaidFor(m, s1, now);
      case Wake(i, wake) => WakeIsPaidFor(m, s1, i, wake);
    }
  }

  /** A step that returns leaves little behind: at most the rest of a burst, the sleeps of the
      others, and the time since a recent refill. */
  lemma AfterReturn(m: nat, s: Shared, e: Event)
    requires Sane(m, s) && CanStep(m, s, e) && Step(m, s, e).returned != s.returned
    ensures var s', w := Step(m, s, e), WaitTime(s.b.rate);
            && s'.returned == s.returned + [s'.clock] && |s'.asleep| < m
            && s'.b.tokens < s.b.rate && s'.clock - s'.b.lastRefill <= w
  {
    if e.Enter? { RefillIsPaidFor(s.b, s.clock, e.now); }
    hide WaitTime, Refilled;
  }

  /** A return at `since` that was the `n`-th pays for everything up to now. */
  ghost predicate PaidSince(m: nat, s: Shared, n: nat, since: int)
    requires s.b.rate > 0
  {
    Potential(m, s) - WaitTime(s.b.rate) * n <= WaitTime(s.b.rate) * (s.b.rate + m - 1) - m * since
  }

  /** - The initial tokens and the time since construction pay for everything so far.
      - So does, for what came after it, every single return. */
  ghost predicate SharedInv(m: nat, s: Shared, t0: int) {
    && Sane(m, s)
    && Potential(m, s) <= WaitTime(s.b.rate) * s.b.rate - m * t0
    && (forall i :: 0 <= i < |s.returned| ==> PaidSince(m, s, i + 1, s.returned[i]))
    && ReturnsPaid(m, s.returned, s.b.rate, t0)
    && ReturnsPaidSince(m, s.returned, s.b.rate)
  }

  lemma JustReturned(m: nat, s: Shared)
    requires Sane(m, s) && |s.asleep| < m && s.b.tokens < s.b.rate && s.clock - s.b.lastRefill <= WaitTime(s.b.rate)
    ensures PaidSince(m, s, |s.returned|, s.clock)
  {
    var w, n := WaitTime(s.b.rate), |s.returned|;
    SleptBounds(s.asleep, w, s.clock);
    hide WaitTime, Slept;
    LeftBehind(w, n, s.b.tokens, s.b.rate, |s.asleep|, m);
    assert m * s.clock == (m - 1) * s.clock + s.clock;
  }

  lemma LeftBehind(w: nat, n: nat, tokens: nat, rate: int, asleep: nat, m: nat)
    requires tokens < rate && asleep < m
    ensures w * (n + tokens) - w * n + asleep * w + w <= w * (rate + m - 1)
  {
    MulLe(asleep, m - 1, w);
    MulLe(tokens, rate - 1, w);
    assert w * (n + tokens) - w * n == w * tokens;
    assert w * (rate + m - 1) == w * (rate - 1) + w * (m - 1) + w;
  }

  /** What has been paid for at the time of a return. */
  lemma ReturnIsPaidFor(m: nat, s: Shared, bound: int)
    requires Sane(m, s) && Potential(m, s) <= bound
    ensures WaitTime(s.b.rate) * |s.returned| <= bound + m * s.clock
  {
    var w, n := WaitTime(s.b.rate), |s.returned|;
    SleptBounds(s.asleep, w, s.clock);
    hide WaitTime, Slept;
    MulLe(n, n + s.b.tokens, w);
    assert m * s.clock == (m - 1) * s.clock + s.clock;
  }

  lemma StepKeepsSince(m: nat, s: Shared, t0: int, e: Event)
    requires SharedInv(m, s, t0) && CanStep(m, s, e)
    ensures var s' := Step(m, s, e);
            && Sane(m, s') && s'.b.rate == s.b.rate
            && Potential(m, s') <= WaitTime(s.b.rate) * s.b.rate - m * t0
            && forall i :: 0 <= i < |s'.returned| ==> PaidSince(m, s', i + 1, s'.returned[i])
  {
    var s' := Step(m, s, e);
    StepIsPaidFor(m, s, e);
    if s'.returned != s.returned {
      AfterReturn(m, s, e);
      hide WaitTime, Potential, Step, CanStep;
      JustReturned(m, s');
      forall i | 0 <= i < |s'.returned| ensures PaidSince(m, s', i + 1, s'.returned[i]) {
        if i < |s.returned| { assert PaidSince(m, s, i + 1, s.returned[i]); }
      }
    } else {
      hide WaitTime, Potential, Step, CanStep;
      forall i | 0 <= i < |s'.returned| ensures PaidSince(m, s', i + 1, s'.returned[i]) {
        assert PaidSince(m, s, i + 1, s.returned[i]);
      }
    }
  }

  lemma NewReturnIsPaidFor(m: nat, s: Shared, t0: int, since: int, i: nat)
    requires Sane(m, s) && |s.returned| > i
    ensures Potential(m, s) <= WaitTime(s.b.rate) * s.b.rate - m * t0 ==>
              WaitTime(s.b.rate) * (|s.returned| - s.b.rate) <= m * (s.clock - t0)
    ensures PaidSince(m, s, i + 1, since) ==>
              WaitTime(s.b.rate) * (|s.returned| - 1 - i + 1 - s.b.rate - m) <= m * (s.clock - since)
  {
    var w, n := WaitTime(s.b.rate), |s.returned|;
    ReturnIsPaidFor(m, s, Potential(m, s));
    hide WaitTime, Potential;
    assert w * (n - s.b.rate) == w * n - w * s.b.rate && m * (s.clock - t0) == m * s.clock - m * t0;
    assert w * (n - 1 - i + 1 - s.b.rate - m) == w * n - w * (i + 1) - w * (s.b.rate + m - 1);
    assert m * (s.clock - since) == m * s.clock - m * since;
  }

  lemma StepKeepsSharedInv(m: nat, s: Shared, t0: int, e: Event)
    requires SharedInv(m, s, t0) && CanStep(m, s, e)
    ensures SharedInv(m, Step(m, s, e), t0) && Step(m, s, e).b.rate == s.b.rate
  {
    var s' := Step(m, s, e);
    StepKeepsSince(m, s, t0, e);
    if s'.returned != s.returned {
      AfterReturn(m, s, e);
      var n := |s.returned|;
      NewReturnIsPaidFor(m, s', t0, s'.clock, n);
      hide WaitTime, Potential, Step, CanStep, PaidSince;
      forall i | 0 <= i <= n
        ensures WaitTime(s.b.rate) * (n - i + 1 - s.b.rate - m) <= m * (s'.returned[n] - s'.returned[i])
      {
        NewReturnIsPaidFor(m, s', t0, s'.returned[i], i);
      }
    }
  }

  lemma FreshIsPaidFor(m: nat, rate: int, t0: int)
    requires rate > 0 && m >= 1
    ensures SharedInv(m, FreshShared(rate, t0), t0)
  {
    hide WaitTime;
    assert m * t0 == (m - 1) * t0 + t0;
  }

  lemma {:induction false} SharedRunIsPaidFor(m: nat, s: Shared, t0: int, events: seq<Event>, s': Shared)
    requires SharedInv(m, s, t0) && Reaches(m, s, events, s')
    ensures SharedInv(m, s', t0) && s'.b.rate == s.b.rate
    decreases |events|
  {
    if events != [] {
      StepKeepsSharedInv(m, s, t0, events[0]);
      hide SharedInv, Step;
      SharedRunIsPaidFor(m, Step(m, s, events[0]), t0, events[1..], s');
    }
  }

  lemma SharedReturns(m: nat, rate: int, t0: int, events: seq<Event>, s: Shared)
    requires rate > 0 && m >= 1 && Reaches(m, FreshShared(rate, t0), events, s)
    ensures ReturnsPaid(m, s.returned, rate, t0) && ReturnsPaidSince(m, s.returned, rate)
  {
    FreshIsPaidFor(m, rate, t0);
    SharedRunIsPaidFor(m, FreshShared(rate, t0), t0, events, s);
    hide WaitTime, Reaches, Potential, PaidSince, ReturnsPaid, ReturnsPaidSince;
  }

  /** With at most `m` callers in flight, at most `rate + m * T / WaitTime` calls return within
      `T` of construction, however the callers overlap. */
  lemma BoundForCallers(m: nat, rate: int, t0: int, events: seq<Event>, s: Shared, T: nat)
    requires rate > 0 && m >= 1 && Reaches(m, FreshShared(rate, t0), events, s)
    ensures WaitTime(rate) * (CountIn(s.returned, t0, t0 + T) - rate) <= m * T
  {
    hide WaitTime, Reaches, ReturnsPaid, ReturnsPaidSince, CountIn;
    SharedReturns(m, rate, t0, events, s);
    CountIsPaidFor(m, s.returned, rate, t0, T);
  }

  /** And in any window of length `W` at most `rate + m + m * W / WaitTime`. */
  lemma WindowForCallers(m: nat, rate: int, t0: int, events: seq<Event>, s: Shared, start: int, W: nat)
    requires rate > 0 && m >= 1 && Reaches(m, FreshShared(rate, t0), events, s)
    ensures WaitTime(rate) * (CountIn(s.returned, start, start + W) - rate - m) <= m * W
  {
    hide WaitTime, Reaches, ReturnsPaid, ReturnsPaidSince, CountIn;
    SharedReturns(m, rate, t0, events, s);
    WindowIsPaidFor(m, s.returned, rate, start, W);
  }

  // How many callers the rate survives --------------------------------------------------------------

  ghost predicate KeepsRateFor(m: nat, rate: int)
    requires rate > 0
  {
    forall t0: int, events: seq<Event>, s: Shared, T: nat | Reaches(m, FreshShared(rate, t0), events, s) ::
      WithinRate(rate, t0, s.returned, T)
  }

  function Repeat<T>(n: nat, x: T): (s: seq<T>)
    ensures |s| == n && forall i :: 0 <= i < n ==> s[i] == x
  {
    seq(n, _ => x)
  }

  lemma {:induction false} ReachesTrans(m: nat, a: Shared, es: seq<Event>, b: Shared, fs: seq<Event>, c: Shared)
    requires Reaches(m, a, es, b) && Reaches(m, b, fs, c)
    ensures Reaches(m, a, es + fs, c)
    decreases |es|
  {
    if es == [] {
      assert es + fs == fs;
    } else {
      ReachesTrans(m, Step(m, a, es[0]), es[1..], b, fs, c);
      assert (es + fs)[1..] == es[1..] + fs;
    }
  }

  lemma OneStep(m: nat, s: Shared, e: Event)
    requires CanStep(m, s, e)
    ensures Reaches(m, s, [e], Step(m, s, e))
  {
    hide Step;
    assert [e][1..] == [];
  }

  /** The first `k` callers of a fresh bucket use up `k` tokens at once. */
  lemma {:induction false} TakeTokens(m: nat, rate: int, t0: int, k: nat) returns (es: seq<Event>, s: Shared)
    requires m >= 1 && k <= rate && rate > 0
    ensures Reaches(m, FreshShared(rate, t0), es, s)
    ensures s == Shared(Bucket(rate - k, rate, rate, t0), t0, [], Repeat(k, t0))
  {
    if k == 0 {
      es, s := [], FreshShared(rate, t0);
    } else {
      var es0, s0 := TakeTokens(m, rate, t0, k - 1);
      assert Refilled(s0.b, t0) == s0.b;
      hide WaitTime, Reaches, Refilled;
      s := Step(m, s0, Enter(t0));
      es := es0 + [Enter(t0)];
      OneStep(m, s0, Enter(t0));
      ReachesTrans(m, FreshShared(rate, t0), es0, s0, [Enter(t0)], s);
    }
  }

  /** An empty bucket, just reset, and nobody asleep. */
  predicate Drained(s: Shared) {
    s.b.rate > 0 && s.b.tokens == 0 && s.b.lastRefill == s.clock && s.asleep == []
  }

  /** `k` callers find it empty and fall asleep side by side. */
  lemma {:induction false} FallAsleep(m: nat, s0: Shared, k: nat) returns (es: seq<Event>, s: Shared)
    requires Drained(s0) && k <= m
    ensures Reaches(m, s0, es, s) && s == s0.(asleep := Repeat(k, s0.clock + WaitTime(s0.b.rate)))
  {
    if k == 0 {
      es, s := [], s0;
    } else {
      hide WaitTime, Reaches;
      var es1, s1 := FallAsleep(m, s0, k - 1);
      var e := Enter(s1.clock);
      EnterEmpty(m, s1);
      s := Step(m, s1, e);
      es := es1 + [e];
      hide Step, CanStep;
      OneStep(m, s1, e);
      ReachesTrans(m, s0, es1, s1, [e], s);
    }
  }

  lemma EnterEmpty(m: nat, s: Shared)
    requires s.b.rate > 0 && s.b.tokens == 0 && s.b.lastRefill == s.clock && |s.asleep| < m
    ensures var e := Enter(s.clock);
            CanStep(m, s, e) && Step(m, s, e) == s.(asleep := s.asleep + [s.clock + WaitTime(s.b.rate)])
  {
    hide WaitTime;
  }

  lemma {:induction false} WakeUp(m: nat, s: Shared, t: int) returns (es: seq<Event>, s': Shared)
    requires s.b.rate > 0 && s.clock <= t && s.asleep == Repeat(|s.asleep|, t)
    ensures Reaches(m, s, es, s')
    ensures s'.returned == s.returned + Repeat(|s.asleep|, t) && s'.asleep == [] && s'.b.rate == s.b.rate
    ensures s.asleep == [] ==> s' == s
    ensures s.asleep != [] ==> Drained(s') && s'.clock == t
    decreases |s.asleep|
  {
    if s.asleep == [] {
      es, s' := [], s;
    } else {
      hide WaitTime, Refilled;
      var e := Wake(0, t);
      var s1 := Step(m, s, e);
      assert s1.asleep == Repeat(|s.asleep| - 1, t) && s1.returned == s.returned + [t];
      assert s1.clock == t && s1.b.tokens == 0 && s1.b.lastRefill == t;
      var es0;
      es0, s' := WakeUp(m, s1, t);
      es := [e] + es0;
      assert es[1..] == es0;
      hide Step;
      assert s.returned + [t] + Repeat(|s.asleep| - 1, t) == s.returned + Repeat(|s.asleep|, t);
    }
  }

  lemma {:induction false} CountAll(r: seq<int>, lo: int, hi: int)
    requires forall i :: 0 <= i < |r| ==> lo <= r[i] <= hi
    ensures CountIn(r, lo, hi) == |r|
  {
    if r != [] { CountAll(r[1..], lo, hi); }
  }

  ghost predicate AllWithin(times: seq<int>, lo: int, hi: int) {
    forall i :: 0 <= i < |times| ==> lo <= times[i] <= hi
  }

  lemma StillWithin(times: seq<int>, lo: int, mid: int, k: nat, hi: int)
    requires AllWithin(times, lo, mid) && lo <= mid <= hi
    ensures AllWithin(times + Repeat(k, hi), lo, hi) && |times + Repeat(k, hi)| == |times| + k
  {
  }

  lemma OneMoreLap(n: nat, x: nat)
    requires n > 0
    ensures n * x == (n - 1) * x + x
  {
  }

  lemma Lap(m: nat, s0: Shared, k: nat) returns (es: seq<Event>, s: Shared)
    requires Drained(s0) && 1 <= k <= m
    ensures Reaches(m, s0, es, s) && Drained(s) && s.b.rate == s0.b.rate && s.clock == s0.clock + WaitTime(s0.b.rate)
    ensures s.returned == s0.returned + Repeat(k, s.clock)
  {
    hide WaitTime, Reaches;
    var es1, s1 := FallAsleep(m, s0, k);
    var es2;
    es2, s := WakeUp(m, s1, s0.clock + WaitTime(s0.b.rate));
    es := es1 + es2;
    ReachesTrans(m, s0, es1, s1, es2, s);
  }

  lemma NoLap(m: nat, rate: int, t0: int) returns (es: seq<Event>, s: Shared)
    requires rate > 0 && m >= 1
    ensures Reaches(m, FreshShared(rate, t0), es, s) && Drained(s) && s.b.rate == rate && s.clock == t0
    ensures |s.returned| == rate && AllWithin(s.returned, t0, s.clock)
  {
    hide Reaches;
    es, s := TakeTokens(m, rate, t0, rate);
  }

  /** `n` laps in which `k` callers sleep and wake up together. */
  lemma {:induction false} Laps(m: nat, rate: int, t0: int, k: nat, n: nat) returns (es: seq<Event>, s: Shared)
    requires rate > 0 && 1 <= k <= m
    ensures Reaches(m, FreshShared(rate, t0), es, s)
    ensures Drained(s) && s.b.rate == rate && s.clock == t0 + n * WaitTime(rate) >= t0
    ensures |s.returned| == rate + n * k && AllWithin(s.returned, t0, s.clock)
    decreases n
  {
    hide WaitTime, Reaches, FreshShared;
    if n == 0 {
      es, s := NoLap(m, rate, t0);
    } else {
      hide Drained, AllWithin;
      var es0, s0 := Laps(m, rate, t0, k, n - 1);
      var lap;
      lap, s := Lap(m, s0, k);
      ReachesTrans(m, FreshShared(rate, t0), es0, s0, lap, s);
      es := es0 + lap;
      OneMoreLap(n, WaitTime(rate));
      OneMoreLap(n, k);
      StillWithin(s0.returned, t0, s0.clock, k, s.clock);
    }
  }

  /** The bound is attained at every lap: from a fresh bucket, `rate` callers return at once, and
      `k` more in every `WaitTime`, for as long as one likes. */
  lemma OverlappingSleepersAllPass(m: nat, rate: int, t0: int, k: nat, n: nat) returns (es: seq<Event>, s: Shared)
    requires rate > 0 && 1 <= k <= m
    ensures Reaches(m, FreshShared(rate, t0), es, s)
    ensures CountIn(s.returned, t0, t0 + n * WaitTime(rate)) == rate + n * k
  {
    es, s := Laps(m, rate, t0, k, n);
    hide WaitTime, Reaches;
    CountAll(s.returned, t0, s.clock);
  }

  /** The promised rate is kept on every run exactly when no two callers can overlap and the rate
      divides a second. */
  lemma KeepsRateForIff(m: nat, rate: int)
    requires rate > 0 && m >= 1
    ensures KeepsRateFor(m, rate) <==> m == 1 && SECOND % rate == 0
  {
    var w := WaitTime(rate);
    assert SECOND == w * rate + SECOND % rate;
    hide WaitTime;
    if m == 1 && SECOND % rate == 0 {
      forall t0: int, events: seq<Event>, s: Shared, T: nat | Reaches(m, FreshShared(rate, t0), events, s)
        ensures WithinRate(rate, t0, s.returned, T)
      {
        BoundForCallers(m, rate, t0, events, s, T);
        ScaleBound(w, rate, CountIn(s.returned, t0, t0 + T) - rate, T);
      }
    } else {
      var k := if m == 1 then 1 else 2;
      var es, s := OverlappingSleepersAllPass(m, rate, 0, k, 1);
      assert 0 + 1 * w == w && 1 * k == k;
      assert !WithinRate(rate, 0, s.returned, w);
    }
  }
}
