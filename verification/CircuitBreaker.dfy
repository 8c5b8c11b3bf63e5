/** The circuit breaker of internal/async/middleware.go:279-378.

    `Execute` runs in three separate critical sections: it reads the state, it may write
    HalfOpen, and after the guarded function it records the outcome. The class below is the
    breaker as one caller uses it; the transition system further down interleaves those
    sections of any number of callers. */
module CircuitBreakers {
  import opened Common

  datatype State = Closed | Open | HalfOpen

  datatype Config = Config(threshold: int, timeout: int)

  datatype Breaker = Breaker(state: State, failureCount: int, lastFailure: int)

  const INITIAL := Breaker(Closed, 0, 0)

  predicate TimedOut(cfg: Config, lastFailure: int, now: int) {
    now - lastFailure > cfg.timeout
  }

  /** Does a call that reads the breaker at time `now` get to run? */
  predicate Admits(cfg: Config, b: Breaker, now: int) {
    b.state != Open || TimedOut(cfg, b.lastFailure, now)
  }

  function Record(cfg: Config, b: Breaker, ok: bool, now: int): Breaker {
    if ok then b.(state := Closed, failureCount := 0)
    else
      var n := b.failureCount + 1;
      Breaker(if b.state == HalfOpen || n >= cfg.threshold then Open else b.state, n, now)
  }

  /** The breaker after one undisturbed call that starts at `start` and ends at `end`. */
  function AfterCall(cfg: Config, b: Breaker, start: int, ok: bool, end: int): Breaker {
    if !Admits(cfg, b, start) then b
    else Record(cfg, if b.state == Open then b.(state := HalfOpen) else b, ok, end)
  }

  class CircuitBreaker {
    const failureThreshold: int
    const timeout: int
    var state: State
    var failureCount: int
    var lastFailureTime: int

    ghost function Cfg(): Config {
      Config(failureThreshold, timeout)
    }

    ghost function Value(): Breaker
      reads this
    {
      Breaker(state, failureCount, lastFailureTime)
    }

    constructor (failureThreshold: int, timeout: int)
      ensures Cfg() == Config(failureThreshold, timeout) && Value() == INITIAL
    {
      this.failureThreshold, this.timeout := failureThreshold, timeout;
      state, failureCount, lastFailureTime := Closed, 0, 0;
    }

    /** The first part of `Execute`: false stands for returning ErrCircuitBreakerOpen. */
    method Admit(now: int) returns (admitted: bool)
      modifies this`state
      ensures admitted == Admits(Cfg(), old(Value()), now)
      ensures admitted <==> old(state) != Open || now > old(lastFailureTime) + timeout
      ensures state == if admitted && old(state) == Open then HalfOpen else old(state)
    {
      admitted := true;
      match state {
        case Open =>
          if now - lastFailureTime > timeout {
            state := HalfOpen;
          } else {
            admitted := false;
          }
        case HalfOpen =>
        case Closed =>
      }
    }

    method OnFailure(now: int)
      modifies this
      ensures Value() == Record(Cfg(), old(Value()), false, now)
    {
      failureCount := failureCount + 1;
      lastFailureTime := now;
      if state == HalfOpen || failureCount >= failureThreshold {
        state := Open;
      }
    }

    method OnSuccess()
      modifies this
      ensures Value() == Record(Cfg(), old(Value()), true, lastFailureTime)
      ensures lastFailureTime == old(lastFailureTime)
    {
      failureCount := 0;
      state := Closed;
    }
  }

  // Interleaved callers -----------------------------------------------------------------------

  /** Where a caller of `Execute` stands. */
  datatype Phase = Idle | Snapped(state: State, lastFailure: int) | Running

  /** The outcomes recorded so far, and when. */
  datatype History = Nothing | Recorded(earlier: History, ok: bool, at: int)

  datatype System = System(b: Breaker, callers: seq<Phase>, outcomes: History)

  datatype Event =
    | Snapshot(c: nat)
    | Decide(c: nat, now: int)
    | Outcome(c: nat, ok: bool, now: int)

  predicate CanStep(s: System, e: Event) {
    && e.c < |s.callers|
    && match e
       case Snapshot(c) => s.callers[c].Idle?
       case Decide(c, _) => s.callers[c].Snapped?
       case Outcome(c, _, _) => s.callers[c].Running?
  }

  function Step(cfg: Config, s: System, e: Event): System
    requires CanStep(s, e)
  {
    match e
    case Snapshot(c) =>
      s.(callers := s.callers[c := Snapped(s.b.state, s.b.lastFailure)])
    case Decide(c, now) =>
      var snap := s.callers[c];
      if snap.state != Open then s.(callers := s.callers[c := Running])
      else if TimedOut(cfg, snap.lastFailure, now) then
        s.(b := s.b.(state := HalfOpen), callers := s.callers[c := Running])
      else s.(callers := s.callers[c := Idle])
    case Outcome(c, ok, now) =>
      System(Record(cfg, s.b, ok, now), s.callers[c := Idle], Recorded(s.outcomes, ok, now))
  }

  function Start(n: nat): System {
    System(INITIAL, seq(n, _ => Idle), Nothing)
  }

  ghost predicate Run(cfg: Config, s: System, events: seq<Event>, s': System)
    decreases |events|
  {
    if events == [] then s == s'
    else CanStep(s, events[0]) && Run(cfg, Step(cfg, s, events[0]), events[1..], s')
  }

  /** The failures since the last success. */
  function TrailingFailures(outcomes: History): nat {
    if outcomes == Nothing || outcomes.ok then 0 else 1 + TrailingFailures(outcomes.earlier)
  }

  /** When the last failure was recorded. */
  function LastFailureAt(outcomes: History): int {
    if outcomes == Nothing then 0 else if outcomes.ok then LastFailureAt(outcomes.earlier) else outcomes.at
  }

  ghost predicate Inv(cfg: Config, s: System) {
    && s.b.failureCount == TrailingFailures(s.outcomes)
    && (s.b.state == Closed ==> s.b.failureCount < cfg.threshold)
  }

  lemma StepKeepsInv(cfg: Config, s: System, e: Event)
    requires cfg.threshold >= 1 && Inv(cfg, s) && CanStep(s, e)
    ensures Inv(cfg, Step(cfg, s, e))
  {
    match e {
      case Outcome(c, ok, now) => assert Step(cfg, s, e).outcomes == Recorded(s.outcomes, ok, now);
      case _ =>
    }
  }

  /** However the calls interleave, the counter is the number of failures since the last
      success, and a closed breaker is below its threshold. */
  lemma {:induction false} InterleavedRun(cfg: Config, s: System, events: seq<Event>, s': System)
    requires cfg.threshold >= 1 && Inv(cfg, s) && Run(cfg, s, events, s')
    ensures Inv(cfg, s')
    decreases |events|
  {
    if events != [] {
      StepKeepsInv(cfg, s, events[0]);
      InterleavedRun(cfg, Step(cfg, s, events[0]), events[1..], s');
    }
  }

  lemma {:induction false} LastFailureIsKept(cfg: Config, s: System, events: seq<Event>, s': System)
    requires s.b.lastFailure == LastFailureAt(s.outcomes) && Run(cfg, s, events, s')
    ensures s'.b.lastFailure == LastFailureAt(s'.outcomes) && |s'.callers| == |s.callers|
    decreases |events|
  {
    if events != [] {
      var e := events[0];
      assert e.Outcome? ==> Step(cfg, s, e).outcomes == Recorded(s.outcomes, e.ok, e.now);
      LastFailureIsKept(cfg, Step(cfg, s, e), events[1..], s');
    }
  }

  /** Refusal and recovery, after any run of overlapping callers from the fresh breaker: an open
      breaker turns a call away, and is left as it was, until the timeout has passed since the last
      recorded failure. From then on the call runs, and its success closes the breaker. */
  lemma RefusesUntilTimeout(cfg: Config, n: nat, events: seq<Event>, s: System, c: nat, now: int, end: int)
    requires Run(cfg, Start(n), events, s) && c < |s.callers| && s.callers[c].Idle?
    ensures var s1 := Step(cfg, Step(cfg, s, Snapshot(c)), Decide(c, now));
            if s.b.state != Open || now > LastFailureAt(s.outcomes) + cfg.timeout then
              && s1.callers[c].Running?
              && s1.b == s.b.(state := if s.b.state == Open then HalfOpen else s.b.state)
              && Step(cfg, s1, Outcome(c, true, end)).b == s.b.(state := Closed, failureCount := 0)
            else s1 == s
  {
    LastFailureIsKept(cfg, Start(n), events, s);
    assert s.callers[c := Idle] == s.callers;
  }

  /** The threshold of at least one is needed: below it already the fresh breaker is off. */
  lemma FreshBreakerKeepsInvIff(cfg: Config, n: nat)
    ensures Inv(cfg, Start(n)) <==> cfg.threshold >= 1
  {
  }

  // One caller at a time ----------------------------------------------------------------------

  /** Between calls the breaker is never half open, and it is open exactly at the threshold. */
  ghost predicate Settled(cfg: Config, b: Breaker) {
    b.state != HalfOpen && (b.state == Open <==> b.failureCount >= cfg.threshold)
  }

  ghost predicate AloneInv(cfg: Config, s: System) {
    && |s.callers| == 1
    && Inv(cfg, s)
    && match s.callers[0]
       case Idle => Settled(cfg, s.b)
       case Snapped(state, lastFailure) => Settled(cfg, s.b) && state == s.b.state && lastFailure == s.b.lastFailure
       case Running => s.b.state != Open && (s.b.state == HalfOpen ==> s.b.failureCount >= cfg.threshold)
  }

  lemma StepKeepsAlone(cfg: Config, s: System, e: Event)
    requires cfg.threshold >= 1 && AloneInv(cfg, s) && CanStep(s, e)
    ensures AloneInv(cfg, Step(cfg, s, e))
  {
    StepKeepsInv(cfg, s, e);
    hide TrailingFailures;
    assert e.c == 0;
    match e {
      case Snapshot(_) =>
      case Decide(_, now) =>
      case Outcome(_, ok, now) =>
    }
  }

  /** Calls that do not overlap: at every point, and in particular between calls. */
  lemma {:induction false} SequentialRun(cfg: Config, s: System, events: seq<Event>, s': System)
    requires cfg.threshold >= 1 && AloneInv(cfg, s) && Run(cfg, s, events, s')
    ensures AloneInv(cfg, s')
    decreases |events|
  {
    if events != [] {
      StepKeepsAlone(cfg, s, events[0]);
      hide AloneInv, Step;
      SequentialRun(cfg, Step(cfg, s, events[0]), events[1..], s');
    }
  }

  // At rest -------------------------------------------------------------------------------------

  /** No call is under way. */
  ghost predicate AtRest(s: System) {
    forall c :: 0 <= c < |s.callers| ==> s.callers[c].Idle?
  }

  /** A half-open breaker has a caller that got to run, and an open one has failed. */
  ghost predicate Probed(s: System) {
    && (s.b.state == HalfOpen ==> exists c :: 0 <= c < |s.callers| && s.callers[c].Running?)
    && (s.b.state == Open ==> s.b.failureCount >= 1)
    && s.b.failureCount >= 0
  }

  lemma StepKeepsProbed(cfg: Config, s: System, e: Event)
    requires Probed(s) && CanStep(s, e)
    ensures Probed(Step(cfg, s, e))
  {
    var s' := Step(cfg, s, e);
    match e {
      case Snapshot(c) =>
        if s.b.state == HalfOpen {
          var d :| 0 <= d < |s.callers| && s.callers[d].Running?;
          assert s'.callers[d].Running?;
        }
      case Decide(c, now) =>
        if s.b.state == HalfOpen {
          var d :| 0 <= d < |s.callers| && s.callers[d].Running?;
          assert s'.callers[d].Running?;
        } else if s'.b.state == HalfOpen {
          assert s'.callers[c].Running?;
        }
      case Outcome(c, ok, now) =>
    }
  }

  lemma {:induction false} ProbedRun(cfg: Config, s: System, events: seq<Event>, s': System)
    requires Probed(s) && Run(cfg, s, events, s')
    ensures Probed(s') && |s'.callers| == |s.callers|
    decreases |events|
  {
    if events != [] {
      StepKeepsProbed(cfg, s, events[0]);
      hide Probed;
      ProbedRun(cfg, Step(cfg, s, events[0]), events[1..], s');
    }
  }

  /** With any number of callers, whatever their calls did to each other: at rest the breaker is
      not half open, and it is open whenever the failures since the last success reach the
      threshold. */
  lemma RestingRun(cfg: Config, n: nat, events: seq<Event>, s': System)
    requires cfg.threshold >= 1 && Run(cfg, Start(n), events, s') && AtRest(s')
    ensures s'.b.state != HalfOpen && (s'.b.state == Open ==> s'.b.failureCount >= 1)
    ensures s'.b.failureCount == TrailingFailures(s'.outcomes)
    ensures TrailingFailures(s'.outcomes) >= cfg.threshold ==> s'.b.state == Open
  {
    InterleavedRun(cfg, Start(n), events, s');
    ProbedRun(cfg, Start(n), events, s');
  }

  /** After every run of `n` callers that comes to rest, the breaker is open exactly at the
      threshold. */
  ghost predicate SettledAtRest(cfg: Config, n: nat) {
    forall events, s' | Run(cfg, Start(n), events, s') && AtRest(s') :: Settled(cfg, s'.b)
  }

  /** It takes one caller at most, or a threshold of one: otherwise a stale snapshot opens the
      breaker too early. */
  lemma SettledAtRestIff(cfg: Config, n: nat)
    requires cfg.threshold >= 1
    ensures SettledAtRest(cfg, n) <==> n <= 1 || cfg.threshold == 1
  {
    if n <= 1 || cfg.threshold == 1 {
      forall events, s' | Run(cfg, Start(n), events, s') && AtRest(s') ensures Settled(cfg, s'.b) {
        RestingRun(cfg, n, events, s');
        ProbedRun(cfg, Start(n), events, s');
        if n == 1 {
          SequentialRun(cfg, Start(1), events, s');
        } else if n == 0 {
          NobodySteps(cfg, events, s');
        }
      }
    } else {
      var events, s' := StaleSnapshotOpensEarly(cfg, n);
      assert !Settled(cfg, s'.b);
    }
  }

  lemma NobodySteps(cfg: Config, events: seq<Event>, s': System)
    requires Run(cfg, Start(0), events, s')
    ensures s' == Start(0)
  {
  }

  /** The three sections of an undisturbed call add up to `AfterCall`. */
  lemma UndisturbedCall(cfg: Config, b: Breaker, outcomes: History, start: int, ok: bool, end: int)
    ensures var s, s' := System(b, [Idle], outcomes), AfterCall(cfg, b, start, ok, end);
            if Admits(cfg, b, start)
            then Run(cfg, s, [Snapshot(0), Decide(0, start), Outcome(0, ok, end)],
                     System(s', [Idle], Recorded(outcomes, ok, end)))
            else Run(cfg, s, [Snapshot(0), Decide(0, start)], System(s', [Idle], outcomes))
  {
    var s := System(b, [Idle], outcomes);
    var s1 := Step(cfg, s, Snapshot(0));
    var s2 := Step(cfg, s1, Decide(0, start));
    if Admits(cfg, b, start) {
      var es := [Snapshot(0), Decide(0, start), Outcome(0, ok, end)];
      var s3 := Step(cfg, s2, es[2]);
      assert s3 == System(AfterCall(cfg, b, start, ok, end), [Idle], Recorded(outcomes, ok, end));
      assert Run(cfg, s3, es[3..], s3);
      assert es[2..][1..] == es[3..] && es[1..][1..] == es[2..];
      assert Run(cfg, s2, es[2..], s3);
      assert Run(cfg, s1, es[1..], s3);
    } else {
      var es := [Snapshot(0), Decide(0, start)];
      assert s2 == System(b, [Idle], outcomes);
      assert es[1..][1..] == es[2..];
      assert Run(cfg, s2, es[2..], s2);
      assert Run(cfg, s1, es[1..], s2);
    }
  }

  // What overlapping callers can do -------------------------------------------------------------

  /** Half open does not mean a single probe: from an open breaker whose timeout has passed,
      every one of the waiting callers can get to run. */
  lemma {:induction false} HalfOpenAdmitsEveryone(cfg: Config, s: System, k: nat, now: int)
    returns (events: seq<Event>, s': System)
    requires k <= |s.callers|
    requires forall i :: k <= i < |s.callers| ==> s.callers[i].Idle?
    requires forall i :: 0 <= i < k ==> s.callers[i].Running?
    requires s.b.state == HalfOpen || (s.b.state == Open && TimedOut(cfg, s.b.lastFailure, now))
    ensures Run(cfg, s, events, s')
    ensures |s'.callers| == |s.callers| && forall i :: 0 <= i < |s'.callers| ==> s'.callers[i].Running?
    ensures |s.callers| > k || s.b.state == HalfOpen ==> s'.b.state == HalfOpen
    decreases |s.callers| - k
  {
    if k == |s.callers| {
      events, s' := [], s;
    } else {
      var s1 := Step(cfg, s, Snapshot(k));
      var s2 := Step(cfg, s1, Decide(k, now));
      var rest;
      rest, s' := HalfOpenAdmitsEveryone(cfg, s2, k + 1, now);
      events := [Snapshot(k), Decide(k, now)] + rest;
      assert events[1..] == [Decide(k, now)] + rest && events[1..][1..] == rest;
      assert Run(cfg, s1, events[1..], s');
    }
  }

  /** The failures that open a closed breaker. */
  function Needed(cfg: Config): nat {
    if cfg.threshold < 1 then 1 else cfg.threshold
  }

  /** `k` failed calls of the first caller, one after the other at time zero. */
  lemma {:induction false} Failures(cfg: Config, n: nat, k: nat) returns (es: seq<Event>, s: System)
    requires n >= 1 && k <= Needed(cfg)
    ensures Run(cfg, Start(n), es, s) && s.callers == Start(n).callers
    ensures s.b == Breaker(if k == Needed(cfg) then Open else Closed, k, 0)
  {
    if k == 0 {
      es, s := [], Start(n);
    } else {
      es, s := Failures(cfg, n, k - 1);
      hide Run;
      es, s := Then(cfg, Start(n), es, s, Snapshot(0));
      es, s := Then(cfg, Start(n), es, s, Decide(0, 0));
      es, s := Then(cfg, Start(n), es, s, Outcome(0, false, 0));
      assert s.callers == Start(n).callers;
    }
  }

  /** With a second caller a stale snapshot can reopen a breaker that has seen one single
      failure since its last success: the first caller closes it between the second one's
      snapshot and its HalfOpen write. */
  lemma StaleSnapshotOpensEarly(cfg: Config, n: nat) returns (es: seq<Event>, s: System)
    requires n >= 2 && cfg.threshold >= 1
    ensures Run(cfg, Start(n), es, s) && AtRest(s)
    ensures s.b.state == Open && s.b.failureCount == 1
  {
    var s0, t := Start(n), NonNegative(cfg.timeout) + 1;
    es, s := Failures(cfg, n, Needed(cfg));
    hide Run;
    es, s := Then(cfg, s0, es, s, Snapshot(0));
    es, s := Then(cfg, s0, es, s, Snapshot(1));
    es, s := Then(cfg, s0, es, s, Decide(0, t));
    es, s := Then(cfg, s0, es, s, Outcome(0, true, t));
    es, s := Then(cfg, s0, es, s, Decide(1, t));
    es, s := Then(cfg, s0, es, s, Outcome(1, false, t));
  }

  /** From a fresh breaker: all of its callers can come to run at once while it is half open. */
  lemma EveryoneProbes(cfg: Config, n: nat) returns (es: seq<Event>, s: System)
    requires n >= 1
    ensures Run(cfg, Start(n), es, s) && s.b.state == HalfOpen
    ensures |s.callers| == n && forall c :: 0 <= c < n ==> s.callers[c].Running?
  {
    var opening, down := Failures(cfg, n, Needed(cfg));
    var probing;
    probing, s := HalfOpenAdmitsEveryone(cfg, down, 0, NonNegative(cfg.timeout) + 1);
    es := opening + probing;
    RunTrans(cfg, Start(n), opening, down, probing, s);
  }

  /** At most one caller runs while the breaker is half open. */
  ghost predicate SingleProbe(s: System) {
    s.b.state == HalfOpen ==>
      forall c, d :: 0 <= c < |s.callers| && 0 <= d < |s.callers| && s.callers[c].Running? && s.callers[d].Running? ==>
        c == d
  }

  ghost predicate AlwaysSingleProbe(cfg: Config, n: nat) {
    forall events, s' | Run(cfg, Start(n), events, s') :: SingleProbe(s')
  }

  /** The breaker keeps to one probe exactly when there is no second caller. */
  lemma SingleProbeIff(cfg: Config, n: nat)
    ensures AlwaysSingleProbe(cfg, n) <==> n <= 1
  {
    if n <= 1 {
      forall events, s' | Run(cfg, Start(n), events, s') ensures SingleProbe(s') {
        ProbedRun(cfg, Start(n), events, s');
      }
    } else {
      var es, s := EveryoneProbes(cfg, n);
      assert s.callers[0].Running? && s.callers[1].Running?;
      assert !SingleProbe(s);
    }
  }

  lemma {:induction false} RunTrans(cfg: Config, s0: System, es: seq<Event>, s: System, fs: seq<Event>, s': System)
    requires Run(cfg, s0, es, s) && Run(cfg, s, fs, s')
    ensures Run(cfg, s0, es + fs, s')
    decreases |es|
  {
    if es == [] {
      assert es + fs == fs;
    } else {
      RunTrans(cfg, Step(cfg, s0, es[0]), es[1..], s, fs, s');
      assert (es + fs)[1..] == es[1..] + fs;
    }
  }

  lemma Then(cfg: Config, s0: System, es: seq<Event>, s: System, e: Event) returns (es': seq<Event>, s': System)
    requires Run(cfg, s0, es, s) && CanStep(s, e)
    ensures es' == es + [e] && s' == Step(cfg, s, e) && Run(cfg, s0, es', s')
  {
    es', s' := es + [e], Step(cfg, s, e);
    assert [e][1..] == [];
    RunTrans(cfg, s0, es, s, [e], s');
  }
}
