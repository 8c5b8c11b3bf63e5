/** The middleware chain around a job handler and its retry middleware
    (internal/async/middleware.go:11-47 and 108-141).

    A handler is a function on a small world that remembers how often the innermost handler was
    called, how often the context was looked at, and the order in which middleware was entered
    and left. */
module Middlewares {
  import opened Arithmetic
  import opened Common

  datatype Mark = Before(id: int) | Handled | After(id: int)

  datatype World = World(calls: nat, tick: nat, trace: seq<Mark>)

  datatype Outcome = Nil | Failed(call: nat) | ContextError

  type Handler = World -> (World, Outcome)

  type Middleware = Handler -> Handler

  /** Which calls of the innermost handler succeed, at which looks the context is done, and at
      which looks it ends the wait before a retry. */
  datatype Env = Env(ok: nat -> bool, done: nat -> bool, aborted: nat -> bool)

  function Base(env: Env): Handler {
    (w: World) =>
      (World(w.calls + 1, w.tick, w.trace + [Handled]), if env.ok(w.calls) then Nil else Failed(w.calls))
  }

  // Building the chain ------------------------------------------------------------------------

  /** The handler wrapped by the middleware in `ms`, each around the ones before it. */
  function Wrapped(ms: seq<Middleware>, h: Handler): Handler {
    if ms == [] then h else ms[|ms| - 1](Wrapped(ms[..|ms| - 1], h))
  }

  class MiddlewareChain {
    var middlewares: seq<Middleware>
    const handler: Handler

    constructor (handler: Handler)
      ensures this.handler == handler && middlewares == []
    {
      this.handler := handler;
      middlewares := [];
    }

    method Use(m: Middleware)
      modifies this
      ensures middlewares == old(middlewares) + [m]
    {
      middlewares := middlewares + [m];
    }

    method Build() returns (h: Handler)
      ensures h == Wrapped(middlewares, handler)
      ensures middlewares != [] ==>
                var n := |middlewares| - 1; h == middlewares[n](Wrapped(middlewares[..n], handler))
    {
      h := handler;
      var i := 0;
      while i < |middlewares|
        invariant 0 <= i <= |middlewares|
        invariant h == Wrapped(middlewares[..i], handler)
      {
        h := middlewares[i](h);
        assert middlewares[..i + 1][..i] == middlewares[..i];
        i := i + 1;
      }
      assert middlewares[..i] == middlewares;
    }
  }

  /** Middleware added later wraps everything built before it. */
  lemma {:induction false} WrappedConcat(ms: seq<Middleware>, ns: seq<Middleware>, h: Handler)
    ensures Wrapped(ms + ns, h) == Wrapped(ns, Wrapped(ms, h))
    decreases |ns|
  {
    if ns == [] {
      assert ms + ns == ms;
    } else {
      var n := |ns| - 1;
      assert (ms + ns)[..|ms + ns| - 1] == ms + ns[..n];
      WrappedConcat(ms, ns[..n], h);
    }
  }

  /** Middleware that records when it is entered and left. */
  function Tag(id: int): Middleware {
    (next: Handler) => (w: World) =>
      var (w', r) := next(w.(trace := w.trace + [Before(id)]));
      (w'.(trace := w'.trace + [After(id)]), r)
  }

  function Tags(ids: seq<int>): (ms: seq<Middleware>)
    ensures |ms| == |ids|
  {
    if ids == [] then [] else Tags(ids[..|ids| - 1]) + [Tag(ids[|ids| - 1])]
  }

  function Entries(ids: seq<int>): (s: seq<Mark>)
    ensures |s| == |ids|
  {
    seq(|ids|, i requires 0 <= i < |ids| => Before(ids[i]))
  }

  function Exits(ids: seq<int>): seq<Mark> {
    seq(|ids|, i requires 0 <= i < |ids| => After(ids[i]))
  }

  function Reversed(ids: seq<int>): (r: seq<int>)
    ensures |r| == |ids|
  {
    seq(|ids|, i requires 0 <= i < |ids| => ids[|ids| - 1 - i])
  }

  function Expected(ids: seq<int>): seq<Mark> {
    Entries(Reversed(ids)) + [Handled] + Exits(ids)
  }

  lemma ExpectedStep(ids: seq<int>, n: nat)
    requires |ids| == n + 1
    ensures Expected(ids) == [Before(ids[n])] + Expected(ids[..n]) + [After(ids[n])]
  {
    assert Entries(Reversed(ids)) == [Before(ids[n])] + Entries(Reversed(ids[..n]));
    assert Exits(ids) == Exits(ids[..n]) + [After(ids[n])];
  }

  lemma TagAround(env: Env, ids: seq<int>, n: nat, w: World)
    requires |ids| == n + 1
    ensures var w1 := w.(trace := w.trace + [Before(ids[n])]);
            Wrapped(Tags(ids), Base(env))(w).0.trace == Wrapped(Tags(ids[..n]), Base(env))(w1).0.trace + [After(ids[n])]
  {
    hide Base;
    assert Tags(ids)[..n] == Tags(ids[..n]);
  }

  /** The last middleware added is entered first and left last. */
  lemma {:induction false} LastAddedIsOutermost(env: Env, ids: seq<int>, w: World)
    ensures Wrapped(Tags(ids), Base(env))(w).0.trace == w.trace + Expected(ids)
    decreases |ids|
  {
    if ids == [] {
      assert Expected(ids) == [Handled];
    } else {
      var n := |ids| - 1;
      var w1 := w.(trace := w.trace + [Before(ids[n])]);
      TagAround(env, ids, n, w);
      hide Tags, Wrapped, Base;
      LastAddedIsOutermost(env, ids[..n], w1);
      ExpectedStep(ids, n);
      hide Expected;
      assert w.trace + ([Before(ids[n])] + Expected(ids[..n]) + [After(ids[n])])
          == w1.trace + Expected(ids[..n]) + [After(ids[n])];
    }
  }

  /** "First added is executed first", as a comment at `Build` has it, is true only of chains
      that read the same in both directions. */
  lemma FirstAddedRunsFirstIff(env: Env, ids: seq<int>, w: World)
    ensures w.trace + Entries(ids) <= Wrapped(Tags(ids), Base(env))(w).0.trace
       <==> Reversed(ids) == ids
  {
    LastAddedIsOutermost(env, ids, w);
    hide Tags, Wrapped, Base;
    var t := w.trace + Expected(ids);
    if w.trace + Entries(ids) <= t {
      forall i | 0 <= i < |ids| ensures Reversed(ids)[i] == ids[i] {
        assert t[|w.trace| + i] == Before(Reversed(ids)[i]);
        assert (w.trace + Entries(ids))[|w.trace| + i] == Before(ids[i]);
      }
    }
  }

  // Retries -------------------------------------------------------------------------------------

  /** The retry loop from its `attempt`-th round on, with the error of the round before. */
  function RetryFrom(env: Env, next: Handler, maxRetries: int, attempt: nat, w: World, lastErr: Outcome)
    : (World, Outcome)
    decreases maxRetries + 1 - attempt
  {
    if attempt > maxRetries then (w, lastErr)
    else if attempt > 0 && env.aborted(w.tick) then (w.(tick := w.tick + 1), ContextError)
    else
      var (w', r) := next(if attempt > 0 then w.(tick := w.tick + 1) else w);
      if r == Nil then (w', Nil)
      else if env.done(w'.tick) then (w'.(tick := w'.tick + 1), ContextError)
      else RetryFrom(env, next, maxRetries, attempt + 1, w'.(tick := w'.tick + 1), r)
  }

  function Retry(env: Env, maxRetries: int): Middleware {
    (next: Handler) => (w: World) => RetryFrom(env, next, maxRetries, 0, w, Nil)
  }

  /** The loop as `RetryMiddleware` runs it. */
  method RunRetry(env: Env, next: Handler, maxRetries: int, start: World) returns (w: World, r: Outcome)
    ensures (w, r) == Retry(env, maxRetries)(next)(start)
  {
    w := start;
    var lastErr := Nil;
    var attempt := 0;
    while attempt <= maxRetries
      invariant 0 <= attempt
      invariant RetryFrom(env, next, maxRetries, attempt, w, lastErr) == Retry(env, maxRetries)(next)(start)
    {
      if attempt > 0 {
        if env.aborted(w.tick) {
          return w.(tick := w.tick + 1), ContextError;
        }
        w := w.(tick := w.tick + 1);
      }
      var (w', err) := next(w);
      w := w';
      if err == Nil {
        return w, Nil;
      }
      lastErr := err;
      if env.done(w.tick) {
        return w.(tick := w.tick + 1), ContextError;
      }
      w := w.(tick := w.tick + 1);
      attempt := attempt + 1;
    }
    return w, lastErr;
  }

  /** The `i`-th try of a retry loop that starts in `w` fails, the context is alive after it, and
      stays so during the wait for the next one. */
  ghost predicate TriesOn(env: Env, w: World, i: nat) {
    !env.ok(w.calls + i) && !env.done(w.tick + 2 * i) && !env.aborted(w.tick + 2 * i + 1)
  }

  lemma {:induction false} LoopEnds(env: Env, maxRetries: int, w: World, k: nat, attempt: nat, now: World,
                                    lastErr: Outcome)
    requires attempt <= k <= maxRetries && forall i: nat :: i < k ==> TriesOn(env, w, i)
    requires now.calls == w.calls + attempt && now.tick == w.tick + 2 * attempt - Bit(attempt > 0)
    requires !TriesOn(env, w, k) || k == maxRetries
    ensures var (w', r) := RetryFrom(env, Base(env), maxRetries, attempt, now, lastErr);
            && w'.calls == w.calls + k + 1
            && r == if env.ok(w.calls + k) then Nil
                    else if k == maxRetries && !env.done(w.tick + 2 * k) then Failed(w.calls + k)
                    else ContextError
    decreases k - attempt
  {
    assert attempt > 0 ==> TriesOn(env, w, attempt - 1);
    if attempt < k {
      assert TriesOn(env, w, attempt);
      var next := OneMoreTry(env, maxRetries, attempt, now, lastErr);
      hide RetryFrom, Base, TriesOn;
      LoopEnds(env, maxRetries, w, k, attempt + 1, next, Failed(now.calls));
    }
  }

  /** A round that fails and is followed by another one. */
  lemma OneMoreTry(env: Env, maxRetries: int, attempt: nat, now: World, lastErr: Outcome) returns (next: World)
    requires attempt <= maxRetries && (attempt > 0 ==> !env.aborted(now.tick))
    requires !env.ok(now.calls) && !env.done(now.tick + Bit(attempt > 0))
    ensures next.calls == now.calls + 1 && next.tick == now.tick + 1 + Bit(attempt > 0)
    ensures RetryFrom(env, Base(env), maxRetries, attempt, now, lastErr)
         == RetryFrom(env, Base(env), maxRetries, attempt + 1, next, Failed(now.calls))
  {
    var (w, _) := Base(env)(if attempt > 0 then now.(tick := now.tick + 1) else now);
    next := w.(tick := w.tick + 1);
  }

  /** How a retry loop around the base handler ends: with the first try that calls for no other one.
      Its success is the result; a context that is done after it, or ends the wait that follows, is
      reported instead of its error; and so is its error once the retries are used up. */
  lemma RetryEnds(env: Env, maxRetries: int, w: World, k: nat)
    requires k <= maxRetries && forall i: nat :: i < k ==> TriesOn(env, w, i)
    requires !TriesOn(env, w, k) || k == maxRetries
    ensures var (w', r) := Retry(env, maxRetries)(Base(env))(w);
            && w'.calls == w.calls + k + 1
            && r == if env.ok(w.calls + k) then Nil
                    else if k == maxRetries && !env.done(w.tick + 2 * k) then Failed(w.calls + k)
                    else ContextError
  {
    LoopEnds(env, maxRetries, w, k, 0, w, Nil);
  }

  /** A chain of retry middleware around the base handler. */
  function RetryChain(env: Env, budgets: seq<int>): Handler {
    Wrapped(Retries(env, budgets), Base(env))
  }

  function Retries(env: Env, budgets: seq<int>): (ms: seq<Middleware>)
    ensures |ms| == |budgets|
  {
    if budgets == [] then [] else Retries(env, budgets[..|budgets| - 1]) + [Retry(env, budgets[|budgets| - 1])]
  }

  lemma ChainStep(env: Env, budgets: seq<int>)
    requires budgets != []
    ensures var n := |budgets| - 1;
            RetryChain(env, budgets) == Retry(env, budgets[n])(RetryChain(env, budgets[..n]))
  {
    var n := |budgets| - 1;
    assert Retries(env, budgets)[..n] == Retries(env, budgets[..n]);
  }

  function Rounds(maxRetries: int): nat {
    if maxRetries < 0 then 0 else maxRetries + 1
  }

  function Product(budgets: seq<int>): nat {
    if budgets == [] then 1 else Rounds(budgets[|budgets| - 1]) * Product(budgets[..|budgets| - 1])
  }

  ghost predicate CallsAtMost(h: Handler, n: nat) {
    forall w: World :: w.calls <= h(w).0.calls <= w.calls + n
  }

  lemma {:induction false} LoopCallsAtMost(env: Env, next: Handler, n: nat, maxRetries: int, attempt: nat, w: World,
                                           lastErr: Outcome)
    requires CallsAtMost(next, n)
    ensures var w' := RetryFrom(env, next, maxRetries, attempt, w, lastErr).0;
            w.calls <= w'.calls <= w.calls + Rounds(maxRetries - attempt) * n
    decreases maxRetries + 1 - attempt
  {
    MulNonNegative(Rounds(maxRetries - attempt), n);
    if attempt <= maxRetries {
      var w1 := if attempt > 0 then w.(tick := w.tick + 1) else w;
      var (w2, r) := next(w1);
      LoopCallsAtMost(env, next, n, maxRetries, attempt + 1, w2.(tick := w2.tick + 1), r);
      MulNonNegative(Rounds(maxRetries - attempt - 1), n);
      assert Rounds(maxRetries - attempt) * n == n + Rounds(maxRetries - attempt - 1) * n;
    }
  }

  /** Nested retries multiply: the base handler runs at most the product of the round counts. */
  lemma {:induction false} NestedRetriesMultiply(env: Env, budgets: seq<int>)
    ensures CallsAtMost(RetryChain(env, budgets), Product(budgets))
    decreases |budgets|
  {
    if budgets != [] {
      var n := |budgets| - 1;
      ChainStep(env, budgets);
      NestedRetriesMultiply(env, budgets[..n]);
      forall w: World
        ensures w.calls <= RetryChain(env, budgets)(w).0.calls <= w.calls + Product(budgets)
      {
        LoopCallsAtMost(env, RetryChain(env, budgets[..n]), Product(budgets[..n]), budgets[n], 0, w, Nil);
      }
    }
  }

  /** Every call fails and nobody cancels. */
  ghost predicate AlwaysFails(env: Env) {
    forall i :: !env.ok(i) && !env.done(i) && !env.aborted(i)
  }

  ghost predicate FailsAfter(h: Handler, n: nat) {
    forall w: World :: h(w).0.calls == w.calls + n && h(w).1.Failed?
  }

  lemma {:induction false} LoopFailsAfter(env: Env, next: Handler, n: nat, maxRetries: int, attempt: nat, w: World,
                                          lastErr: Outcome)
    requires AlwaysFails(env) && FailsAfter(next, n) && (attempt > maxRetries ==> lastErr.Failed?)
    ensures var (w', r) := RetryFrom(env, next, maxRetries, attempt, w, lastErr);
            w'.calls == w.calls + Rounds(maxRetries - attempt) * n && r.Failed?
    decreases maxRetries + 1 - attempt
  {
    if attempt <= maxRetries {
      var w1 := if attempt > 0 then w.(tick := w.tick + 1) else w;
      var (w2, r) := next(w1);
      LoopFailsAfter(env, next, n, maxRetries, attempt + 1, w2.(tick := w2.tick + 1), r);
      assert Rounds(maxRetries - attempt) * n == n + Rounds(maxRetries - attempt - 1) * n;
    }
  }

  /** The product is attained when every call fails without cancellation. */
  lemma {:induction false} ProductIsAttained(env: Env, budgets: seq<int>)
    requires AlwaysFails(env) && forall i :: 0 <= i < |budgets| ==> budgets[i] >= 0
    ensures FailsAfter(RetryChain(env, budgets), Product(budgets))
    decreases |budgets|
  {
    if budgets != [] {
      var n := |budgets| - 1;
      ChainStep(env, budgets);
      ProductIsAttained(env, budgets[..n]);
      forall w: World
        ensures RetryChain(env, budgets)(w).0.calls == w.calls + Product(budgets)
                && RetryChain(env, budgets)(w).1.Failed?
      {
        LoopFailsAfter(env, RetryChain(env, budgets[..n]), Product(budgets[..n]), budgets[n], 0, w, Nil);
      }
    }
  }

  /** No error means that the last call of the base handler was made and succeeded. */
  ghost predicate NilMeansSuccess(env: Env, h: Handler) {
    forall w: World :: h(w).1 == Nil ==> w.calls < h(w).0.calls && env.ok(h(w).0.calls - 1)
  }

  lemma {:induction false} LoopNilMeansSuccess(env: Env, next: Handler, n: nat, maxRetries: int, attempt: nat,
                                               w: World, lastErr: Outcome)
    requires NilMeansSuccess(env, next) && CallsAtMost(next, n) && (attempt > maxRetries ==> lastErr != Nil)
    ensures var (w', r) := RetryFrom(env, next, maxRetries, attempt, w, lastErr);
            r == Nil ==> w.calls < w'.calls && env.ok(w'.calls - 1)
    decreases maxRetries + 1 - attempt
  {
    if attempt <= maxRetries {
      var w1 := if attempt > 0 then w.(tick := w.tick + 1) else w;
      var (w2, r) := next(w1);
      if r != Nil {
        LoopNilMeansSuccess(env, next, n, maxRetries, attempt + 1, w2.(tick := w2.tick + 1), r);
      }
    }
  }

  lemma {:induction false} ChainNilMeansSuccess(env: Env, budgets: seq<int>)
    requires forall i :: 0 <= i < |budgets| ==> budgets[i] >= 0
    ensures NilMeansSuccess(env, RetryChain(env, budgets))
    decreases |budgets|
  {
    if budgets != [] {
      var n := |budgets| - 1;
      ChainStep(env, budgets);
      ChainNilMeansSuccess(env, budgets[..n]);
      NestedRetriesMultiply(env, budgets[..n]);
      forall w: World
        ensures RetryChain(env, budgets)(w).1 == Nil ==>
                  w.calls < RetryChain(env, budgets)(w).0.calls && env.ok(RetryChain(env, budgets)(w).0.calls - 1)
      {
        LoopNilMeansSuccess(env, RetryChain(env, budgets[..n]), Product(budgets[..n]), budgets[n], 0, w, Nil);
      }
    }
  }

  /** A single negative budget anywhere makes the whole chain return nil without any call. */
  lemma {:induction false} NegativeBudgetSkipsTheJob(env: Env, budgets: seq<int>, k: nat, w: World)
    requires k < |budgets| && budgets[k] < 0
    ensures RetryChain(env, budgets)(w) == (w, Nil)
    decreases |budgets|
  {
    var n := |budgets| - 1;
    ChainStep(env, budgets);
    if budgets[n] >= 0 {
      NegativeBudgetSkipsTheJob(env, budgets[..n], k, w);
    }
  }

  /** So a nil error can be trusted exactly when no budget is negative. */
  lemma NilMeansSuccessIff(env: Env, budgets: seq<int>)
    ensures NilMeansSuccess(env, RetryChain(env, budgets)) <==> forall i :: 0 <= i < |budgets| ==> budgets[i] >= 0
  {
    if k :| 0 <= k < |budgets| && budgets[k] < 0 {
      var w := World(0, 0, []);
      NegativeBudgetSkipsTheJob(env, budgets, k, w);
      assert RetryChain(env, budgets)(w).1 == Nil;
    } else {
      ChainNilMeansSuccess(env, budgets);
    }
  }
}
