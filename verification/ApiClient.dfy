/** The resilience stack around an outgoing API request: a retry loop
    (internal/errors/types.go:483-520) inside a circuit breaker
    (internal/errors/integration.go:64-128), and the load it can put on a failing server. */
module ApiClients {
  import opened Arithmetic
  import opened Common
  import opened CircuitBreakers

  /** What the environment does with the `n`-th attempt of one request: when it begins, whether
      it succeeds, whether its error is retryable, whether the context is done when it returns,
      and whether the context ends during the wait that precedes it. */
  datatype Attempt = Attempt(begin: int, ok: bool, retryable: bool, ctxDone: bool, waitAborted: bool)

  datatype Result = Success | LastError(attempt: nat) | ContextError | BreakerOpen

  /** The attempts that did not end the loop: each failed in a way that calls for another one. */
  ghost predicate GoesOn(env: nat -> Attempt, n: nat) {
    !env(n).ok && env(n).retryable && !env(n).ctxDone && !env(n + 1).waitAborted
  }

  ghost function Begins(env: nat -> Attempt, n: nat): seq<int> {
    seq(n, i requires 0 <= i => env(i + 1).begin)
  }

  /** What `n` attempts led to: success if the last one succeeded, and else the reason why there
      was no other one. */
  ghost predicate LedTo(maxAttempts: int, env: nat -> Attempt, n: nat, r: Result) {
    if maxAttempts <= 0 then n == 0 && r == Success
    else
      && 1 <= n <= maxAttempts && r != BreakerOpen
      && (r == Success <==> env(n).ok)
      && (r.LastError? <==> !env(n).ok && (!env(n).retryable || (!env(n).ctxDone && n == maxAttempts)))
      && (r == ContextError <==>
         !env(n).ok && env(n).retryable && (env(n).ctxDone || (n < maxAttempts && env(n + 1).waitAborted)))
      && (r.LastError? ==> r.attempt == n)
  }

  /** If the `k`-th attempt is the first that does not call for another one, and it succeeds, it is
      the last one and the result is success. */
  lemma FirstSuccessEnds(maxAttempts: int, env: nat -> Attempt, n: nat, r: Result, k: nat)
    requires LedTo(maxAttempts, env, n, r) && forall i :: 1 <= i < n ==> GoesOn(env, i)
    requires 1 <= k <= maxAttempts && env(k).ok && forall i :: 1 <= i < k ==> GoesOn(env, i)
    ensures r == Success && n == k
  {
    assert k < n ==> GoesOn(env, k);
    assert n < k ==> GoesOn(env, n);
  }

  /** `Retryer.Execute`: attempts are numbered from one. */
  method RetryerExecute(maxAttempts: int, env: nat -> Attempt) returns (r: Result, began: seq<int>)
    ensures began == Begins(env, |began|)
    ensures forall i :: 1 <= i < |began| ==> GoesOn(env, i)
    ensures LedTo(maxAttempts, env, |began|, r)
  {
    var lastErr := Success;
    began := [];
    var attempt := 1;
    while attempt <= maxAttempts
      invariant 1 <= attempt <= (if maxAttempts < 1 then 1 else maxAttempts + 1)
      invariant |began| == attempt - 1 && began == Begins(env, attempt - 1)
      invariant forall i :: 1 <= i < |began| ==> GoesOn(env, i)
      invariant attempt == 1 ==> lastErr == Success
      invariant attempt > 1 ==> lastErr == LastError(attempt - 1)
                                && !env(attempt - 1).ok && env(attempt - 1).retryable && !env(attempt - 1).ctxDone
    {
      if attempt > 1 {
        if env(attempt).waitAborted {
          return ContextError, began;
        }
      }
      began := began + [env(attempt).begin];
      if env(attempt).ok {
        return Success, began;
      }
      lastErr := LastError(attempt);
      if !env(attempt).retryable {
        break;
      }
      if env(attempt).ctxDone {
        return ContextError, began;
      }
      attempt := attempt + 1;
    }
    return lastErr, began;
  }

  /** One call of `ExecuteRequest` as an observer sees it: when it read the breaker, when its
      HTTP attempts began, whether it succeeded and when its outcome was recorded. */
  datatype Call = Call(start: int, began: seq<int>, ok: bool, end: int)

  /** Nothing is sent when the breaker refuses, and at most the attempt budget otherwise. */
  ghost predicate Fits(cfg: Config, b: Breaker, budget: nat, c: Call) {
    && c.start <= c.end
    && |c.began| <= budget
    && (!Admits(cfg, b, c.start) ==> c.began == [])
    && forall i :: 0 <= i < |c.began| ==> c.start <= c.began[i] <= c.end
  }

  class ApiClient {
    const breaker: CircuitBreaker
    const maxAttempts: int

    constructor (breaker: CircuitBreaker, maxAttempts: int)
      ensures this.breaker == breaker && this.maxAttempts == maxAttempts
    {
      this.breaker, this.maxAttempts := breaker, maxAttempts;
    }

    /** `ExecuteRequest`. The attempts happen between the two clock readings `start` and `end`. */
    method ExecuteRequest(start: int, env: nat -> Attempt, end: int) returns (r: Result, call: Call)
      requires start <= end && forall i :: 1 <= i <= maxAttempts ==> start <= env(i).begin <= end
      modifies breaker
      ensures breaker.Value() == AfterCall(breaker.Cfg(), old(breaker.Value()), start, call.ok, end)
      ensures call.start == start && call.end == end && call.ok == (r == Success)
      ensures Fits(breaker.Cfg(), old(breaker.Value()), if maxAttempts < 0 then 0 else maxAttempts, call)
      ensures r == BreakerOpen <==> !Admits(breaker.Cfg(), old(breaker.Value()), start)
      ensures call.began == Begins(env, |call.began|) && forall i :: 1 <= i < |call.began| ==> GoesOn(env, i)
      ensures r != BreakerOpen ==> LedTo(maxAttempts, env, |call.began|, r)
      ensures forall k :: 1 <= k <= maxAttempts && env(k).ok && (forall i :: 1 <= i < k ==> GoesOn(env, i)) ==>
                if Admits(breaker.Cfg(), old(breaker.Value()), start) then r == Success && |call.began| == k
                else r == BreakerOpen && call.began == []
    {
      var admitted := breaker.Admit(start);
      if !admitted {
        return BreakerOpen, Call(start, [], false, end);
      }
      var began;
      r, began := RetryerExecute(maxAttempts, env);
      if r == Success {
        breaker.OnSuccess();
      } else {
        breaker.OnFailure(end);
      }
      call := Call(start, began, r == Success, end);
      forall k | 1 <= k <= maxAttempts && env(k).ok && (forall i :: 1 <= i < k ==> GoesOn(env, i))
        ensures r == Success && |began| == k
      {
        FirstSuccessEnds(maxAttempts, env, |began|, r, k);
      }
    }
  }

  // The load on a server that never answers -------------------------------------------------------

  /** Calls one after the other from time `t` on, none of which succeeds. */
  ghost predicate FailingRun(cfg: Config, b: Breaker, budget: nat, t: int, calls: seq<Call>)
    decreases |calls|
  {
    calls == [] ||
    (var c := calls[0];
     && t <= c.start && !c.ok && Fits(cfg, b, budget, c)
     && FailingRun(cfg, AfterCall(cfg, b, c.start, false, c.end), budget, c.end, calls[1..]))
  }

  /** HTTP attempts begun in the window from `lo` to `hi`. */
  function AttemptsIn(calls: seq<Call>, lo: int, hi: int): nat {
    if calls == [] then 0 else CountIn(calls[0].began, lo, hi) + AttemptsIn(calls[1..], lo, hi)
  }

  /** How many more probes a breaker that failed last at `last` can send into the window. */
  ghost function Probes(timeout: int, last: int, lo: int, hi: int): (n: nat)
    requires timeout > 0
  {
    var from := if last < lo - timeout then lo - timeout else last;
    if hi < from then 0 else (hi - from) / timeout
  }

  lemma ProbesShrink(timeout: int, last: int, last': int, lo: int, hi: int)
    requires timeout > 0 && last <= last'
    ensures Probes(timeout, last', lo, hi) <= Probes(timeout, last, lo, hi)
  {
    var from := if last < lo - timeout then lo - timeout else last;
    var from' := if last' < lo - timeout then lo - timeout else last';
    if hi >= from' { DivMono(hi - from', hi - from, timeout); }
  }

  /** A probe that reaches into the window uses one of them up. */
  lemma ProbeSpent(timeout: int, last: int, start: int, end: int, lo: int, hi: int)
    requires timeout > 0 && start - last > timeout && start <= end && lo <= end && start <= hi && lo <= hi
    ensures 1 + Probes(timeout, end, lo, hi) <= Probes(timeout, last, lo, hi)
  {
    var from := if last < lo - timeout then lo - timeout else last;
    DivAtLeast(hi - from, timeout, 1);
    if hi >= end {
      DivMono(hi - end, hi - from - timeout, timeout);
      DivAtLeast(hi - from, timeout, 1 + (hi - end) / timeout);
      DivAtLeast(hi - end, timeout, (hi - end) / timeout);
      assert (1 + (hi - end) / timeout) * timeout == timeout + (hi - end) / timeout * timeout;
    }
  }

  lemma ReachesInto(c: Call, cfg: Config, b: Breaker, budget: nat, lo: int, hi: int)
    requires Fits(cfg, b, budget, c) && CountIn(c.began, lo, hi) > 0
    ensures Admits(cfg, b, c.start) && lo <= c.end && c.start <= hi
  {
    var i := CountFinds(c.began, lo, hi);
  }

  /** `n` attempts of one call and the `budget * p'` of the later ones stay within `budget * p`. */
  lemma AddCall(n: nat, rest: int, budget: nat, p': int, p: int)
    requires n <= budget && rest <= budget * p'
    requires p' <= p && (n > 0 ==> 1 + p' <= p)
    ensures n + rest <= budget * p
  {
    if n > 0 {
      MulLe(1 + p', p, budget);
      assert (1 + p') * budget == budget + p' * budget;
    } else {
      MulLe(p', p, budget);
    }
  }

  lemma {:induction false} OpenLoad(cfg: Config, b: Breaker, budget: nat, t: int, calls: seq<Call>, lo: int, hi: int)
    requires cfg.timeout > 0 && lo <= hi && FailingRun(cfg, b, budget, t, calls)
    requires b.state == Open && b.failureCount >= cfg.threshold
    ensures AttemptsIn(calls, lo, hi) <= budget * Probes(cfg.timeout, b.lastFailure, lo, hi)
    decreases |calls|
  {
    hide Probes, CountIn;
    var p := Probes(cfg.timeout, b.lastFailure, lo, hi);
    if calls == [] {
      MulNonNegative(budget, p);
    } else {
      var c := calls[0];
      OpenLoad(cfg, AfterCall(cfg, b, c.start, false, c.end), budget, c.end, calls[1..], lo, hi);
      if Admits(cfg, b, c.start) {
        if CountIn(c.began, lo, hi) > 0 {
          ReachesInto(c, cfg, b, budget, lo, hi);
          ProbeSpent(cfg.timeout, b.lastFailure, c.start, c.end, lo, hi);
        } else {
          ProbesShrink(cfg.timeout, b.lastFailure, c.end, lo, hi);
        }
        var n, p' := CountIn(c.began, lo, hi), Probes(cfg.timeout, c.end, lo, hi);
        AddCall(n, AttemptsIn(calls[1..], lo, hi), budget, p', p);
      } else {
        assert CountIn(c.began, lo, hi) <= |c.began|;
      }
    }
  }

  /** A failing server sees, in any window, at most the attempts of the calls that are still
      missing to the threshold and of one probe per elapsed timeout. */
  lemma {:induction false} ClosedLoad(cfg: Config, b: Breaker, budget: nat, t: int, calls: seq<Call>, lo: int, hi: int)
    requires cfg.timeout > 0 && lo <= hi && FailingRun(cfg, b, budget, t, calls)
    requires b.state == Closed && b.failureCount < cfg.threshold
    ensures AttemptsIn(calls, lo, hi) <= budget * (cfg.threshold - b.failureCount + (hi - lo) / cfg.timeout)
    decreases |calls|
  {
    hide Probes, CountIn;
    var q := (hi - lo) / cfg.timeout;
    DivAtLeast(hi - lo, cfg.timeout, 0);
    var left := cfg.threshold - b.failureCount;
    if calls == [] {
      MulNonNegative(budget, left + q);
    } else {
      var c := calls[0];
      var b' := AfterCall(cfg, b, c.start, false, c.end);
      var n, rest := CountIn(c.began, lo, hi), AttemptsIn(calls[1..], lo, hi);
      if b'.state == Closed {
        ClosedLoad(cfg, b', budget, c.end, calls[1..], lo, hi);
        AddCall(n, rest, budget, left - 1 + q, left + q);
      } else {
        OpenLoad(cfg, b', budget, c.end, calls[1..], lo, hi);
        ProbesAtMost(cfg.timeout, c.end, lo, hi);
        if n > 0 {
          ReachesInto(c, cfg, b, budget, lo, hi);
        }
        AddCall(n, rest, budget, Probes(cfg.timeout, c.end, lo, hi), left + q);
      }
    }
  }

  lemma ProbesAtMost(timeout: int, last: int, lo: int, hi: int)
    requires timeout > 0 && lo <= hi
    ensures Probes(timeout, last, lo, hi) <= 1 + (hi - lo) / timeout
    ensures lo <= last ==> Probes(timeout, last, lo, hi) <= (hi - lo) / timeout
  {
    ProbesShrink(timeout, if last < lo - timeout then last else lo - timeout, last, lo, hi);
    var p := (hi - (lo - timeout)) / timeout;
    DivAtLeast(hi - lo + timeout, timeout, p);
    DivAtLeast(hi - lo, timeout, p - 1);
    assert (p - 1) * timeout == p * timeout - timeout;
    if lo <= last { ProbesShrink(timeout, lo, last, lo, hi); }
  }

  /** The bound for a fresh client: `(threshold + T / timeout) * maxAttempts` in a window of
      length `T`. */
  lemma LoadBound(cfg: Config, budget: nat, t: int, calls: seq<Call>, lo: int, T: nat)
    requires cfg.timeout > 0 && cfg.threshold >= 1 && FailingRun(cfg, INITIAL, budget, t, calls)
    ensures AttemptsIn(calls, lo, lo + T) <= budget * (cfg.threshold + T / cfg.timeout)
  {
    ClosedLoad(cfg, INITIAL, budget, t, calls, lo, lo + T);
  }
}
