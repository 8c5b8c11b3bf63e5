/** Posting a comment to Jira: a loop of attempts, each paid for at the token bucket, with
    doubling pauses between them and no cap (internal/jira/client.go:131-170, 461-507). */
module CommentRetry {
  import opened Backoff
  import opened TokenBucket

  /** `Broken` stands for a request that failed or a body that could not be read. */
  datatype Reply = Broken | Status(code: int)

  /** What the environment does with one attempt: the two clock readings of `Wait`, whether the
      request can be built, the reply, and when it is there. */
  datatype Try = Try(now: int, wake: int, built: bool, reply: Reply, end: int)

  /** `Nil` is the absence of an error. */
  datatype Result = Nil | BuildError(attempt: nat) | ReplyError(attempt: nat)

  predicate Succeeds(t: Try) {
    t.built && t.reply.Status? && 200 <= t.reply.code < 300
  }

  predicate CallsForRetry(t: Try) {
    t.built && (t.reply.Broken? || 500 <= t.reply.code < 600)
  }

  function CallOf(t: Try): Call {
    Call(t.now, t.wake)
  }

  /** The calls of `Wait` made by `n` attempts from the `k`-th on. */
  ghost function Entries(env: nat -> Try, k: nat, n: nat): (s: seq<Call>)
    ensures |s| == n
    decreases n
  {
    if n == 0 then [] else [CallOf(env(k))] + Entries(env, k + 1, n - 1)
  }

  ghost function AfterAll(b: Bucket, calls: seq<Call>): Bucket
    decreases |calls|
  {
    if calls == [] then b else AfterAll(After(b, calls[0]), calls[1..])
  }

  lemma {:induction false} OneMoreAttempt(b: Bucket, env: nat -> Try, k: nat, n: nat)
    ensures AfterAll(b, Entries(env, k, n + 1)) == After(AfterAll(b, Entries(env, k, n)), CallOf(env(k + n)))
    decreases n
  {
    if n == 0 {
      assert Entries(env, k, 1) == [CallOf(env(k))];
    } else {
      OneMoreAttempt(After(b, CallOf(env(k))), env, k + 1, n - 1);
      assert k + 1 + (n - 1) == k + n;
    }
  }

  /** The pause after the `k`-th attempt. */
  function Pause(base: nat, k: nat): nat
    requires k > 0
  {
    base * Pow(2, k - 1)
  }

  /** The pauses between `n` attempts from the `k`-th on. */
  function Pauses(base: nat, k: nat, n: nat): nat
    requires k > 0
    decreases n
  {
    if n <= 1 then 0 else Pause(base, k) + Pauses(base, k + 1, n - 1)
  }

  /** `AddComment`: no error does not mean that a comment was posted; with no attempts allowed
      nothing is sent. */
  method AddComment(limiter: RateLimiter, maxAttempts: int, base: nat, env: nat -> Try)
    returns (r: Result, tries: nat, paused: nat)
    requires limiter.rate > 0
    modifies limiter
    ensures maxAttempts <= 0 ==> tries == 0 && r == Nil
    ensures maxAttempts > 0 ==> 0 < tries <= maxAttempts
    ensures forall k :: 1 <= k < tries ==>
              env(k).built && (env(k).reply.Broken? || 500 <= env(k).reply.code <= 599)
    ensures 0 < tries < maxAttempts ==>
              !env(tries).built || (env(tries).reply.Status? && !(500 <= env(tries).reply.code <= 599))
    ensures tries > 0 ==>
              && (r.BuildError? <==> !env(tries).built)
              && (r == Nil <==> env(tries).built && env(tries).reply.Status? && 200 <= env(tries).reply.code <= 299)
              && (r != Nil ==> r.attempt == tries)
    ensures limiter.State() == AfterAll(old(limiter.State()), Entries(env, 1, tries))
    ensures paused == Pauses(base, 1, tries)
  {
    ghost var b := limiter.State();
    tries, paused := 0, 0;
    var attempt: nat := 1;
    while attempt <= maxAttempts
      invariant attempt == tries + 1 && (tries > 0 ==> tries < maxAttempts)
      invariant limiter.rate > 0 && limiter.State() == AfterAll(b, Entries(env, 1, tries))
      invariant forall k :: 1 <= k <= tries ==> CallsForRetry(env(k))
      invariant paused == Pauses(base, 1, tries + 1)
    {
      var _ := limiter.Wait(env(attempt).now, env(attempt).wake);
      OneMoreAttempt(b, env, 1, tries);
      tries := attempt;
      if !env(attempt).built { return BuildError(attempt), tries, paused; }
      if Succeeds(env(attempt)) { return Nil, tries, paused; }
      if !CallsForRetry(env(attempt)) || attempt >= maxAttempts { return ReplyError(attempt), tries, paused; }
      OneMorePause(base, 1, attempt);
      paused := paused + Pause(base, attempt);
      attempt := attempt + 1;
    }
    return Nil, tries, paused;
  }

  lemma {:induction false} OneMorePause(base: nat, k: nat, n: nat)
    requires k > 0 && n > 0
    ensures Pauses(base, k, n + 1) == Pauses(base, k, n) + Pause(base, k + n - 1)
    decreases n
  {
    if n > 1 { OneMorePause(base, k + 1, n - 1); }
  }

  /** The pauses add up to the base delay times a power of two less one. */
  lemma {:induction false} PausesClosedForm(base: nat, k: nat, n: nat)
    requires k > 0 && n > 0
    ensures Pauses(base, k, n) == Pause(base, k) * (Pow(2, n - 1) - 1)
    decreases n
  {
    if n > 1 {
      PausesClosedForm(base, k + 1, n - 1);
      NextPower(base, 2, k);
      assert Pow(2, n - 1) == 2 * Pow(2, n - 2);
      hide Pause, Pow;
      Doubling(Pause(base, k), Pow(2, n - 2));
    }
  }

  lemma Doubling(p: int, q: int)
    ensures p + (2 * p) * (q - 1) == p * (2 * q - 1)
  {
  }

  // An undisturbed call --------------------------------------------------------------------------------

  /** Nobody else uses the bucket, sleeps and pauses last at least as long as asked for. */
  ghost predicate Paced(b: Bucket, t: int, env: nat -> Try, base: nat, k: nat, n: nat)
    requires b.rate > 0 && k > 0
    decreases n
  {
    n == 0 ||
    (var c := CallOf(env(k));
     && t <= c.now
     && (Sleeps(b, c) ==> c.now + WaitTime(b.rate) <= c.wake)
     && ReturnTime(b, c) <= env(k).end
     && Paced(After(b, c), env(k).end + Pause(base, k), env, base, k + 1, n - 1))
  }

  lemma SequentialEarlier(b: Bucket, t: int, t': int, calls: seq<Call>)
    requires b.rate > 0 && t <= t' && Sequential(b, t', calls)
    ensures Sequential(b, t, calls)
  {
  }

  /** The attempts are a run of sequential callers of the bucket, and the last one is let
      through no earlier than all the pauses before it. */
  lemma {:induction false} PacedRun(b: Bucket, t: int, env: nat -> Try, base: nat, k: nat, n: nat)
    requires b.rate > 0 && k > 0 && Paced(b, t, env, base, k, n)
    ensures Sequential(b, t, Entries(env, k, n))
    ensures n > 0 ==> t + Pauses(base, k, n) <= Returns(b, Entries(env, k, n))[n - 1]
    decreases n
  {
    if n > 0 {
      var c := CallOf(env(k));
      var b', t' := After(b, c), env(k).end + Pause(base, k);
      hide Pause;
      PacedRun(b', t', env, base, k + 1, n - 1);
      assert Entries(env, k, n)[1..] == Entries(env, k + 1, n - 1);
      SequentialEarlier(b', ReturnTime(b, c), t', Entries(env, k + 1, n - 1));
    }
  }

  /** How many attempts one call can have made within `T` of its start: exponentially few by the
      pauses, and no more than the tokens there were and those earned since by the bucket. */
  lemma AttemptsWithin(b: Bucket, t: int, env: nat -> Try, base: nat, n: nat, T: int)
    requires Inv(b, t) && n > 0 && Paced(b, t, env, base, 1, n)
    requires Returns(b, Entries(env, 1, n))[n - 1] <= t + T
    ensures base * (Pow(2, n - 1) - 1) <= T
    ensures WaitTime(b.rate) * (n - b.tokens) <= t + T - b.lastRefill
  {
    PacedRun(b, t, env, base, 1, n);
    PausesClosedForm(base, 1, n);
    assert Pause(base, 1) == base;
    RunIsPaidFor(b, t, Entries(env, 1, n), n - 1);
  }
}
