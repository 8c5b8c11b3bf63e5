/** The load that several callers together can put on a server that never answers, through one
    breaker (internal/async/middleware.go:311-378).

    The system is that of `CircuitBreakers`, with a clock that does not go back, in runs in which
    no call succeeds. What is counted is who was let through, and why. */
module BreakerLoads {
  import opened Arithmetic
  import opened CircuitBreakers
  import opened Common

  /** Per caller, `probes` counts the calls let through because the timeout was over, `joined`
      those that found the breaker half open; `closed` counts those that found it closed. */
  datatype Load = Load(s: System, clock: int, closed: nat, probes: seq<nat>, joined: seq<nat>)

  predicate CanLoad(l: Load, e: Event) {
    && CanStep(l.s, e) && |l.probes| == |l.joined| == |l.s.callers|
    && match e
       case Snapshot(_) => true
       case Decide(_, now) => l.clock <= now
       case Outcome(_, ok, now) => l.clock <= now && !ok
  }

  function LoadStep(cfg: Config, l: Load, e: Event): Load
    requires CanLoad(l, e)
  {
    var s' := Step(cfg, l.s, e);
    match e
    case Snapshot(_) => l.(s := s')
    case Outcome(_, _, now) => l.(s := s', clock := now)
    case Decide(c, now) =>
      var snap := l.s.callers[c];
      match snap.state
      case Closed => l.(s := s', clock := now, closed := l.closed + 1)
      case HalfOpen => l.(s := s', clock := now, joined := l.joined[c := l.joined[c] + 1])
      case Open =>
        if TimedOut(cfg, snap.lastFailure, now) then l.(s := s', clock := now, probes := l.probes[c := l.probes[c] + 1])
        else l.(s := s', clock := now)
  }

  ghost predicate LoadRun(cfg: Config, l: Load, events: seq<Event>, l': Load)
    decreases |events|
  {
    if events == [] then l == l'
    else CanLoad(l, events[0]) && LoadRun(cfg, LoadStep(cfg, l, events[0]), events[1..], l')
  }

  function Unloaded(n: nat, t0: int): Load {
    Load(Start(n), t0, 0, seq(n, _ => 0), seq(n, _ => 0))
  }

  function Sum(s: seq<nat>): nat {
    if s == [] then 0 else Sum(s[..|s| - 1]) + s[|s| - 1]
  }

  /** How many calls have been let through. */
  function Admitted(l: Load): nat {
    l.closed + Sum(l.probes) + Sum(l.joined)
  }

  lemma {:induction false} SumUpdate(s: seq<nat>, c: nat, x: nat)
    requires c < |s|
    ensures Sum(s[c := x]) == Sum(s) - s[c] + x
  {
    var n, s' := |s| - 1, s[c := x];
    if c == n {
      assert s'[..n] == s[..n];
    } else {
      assert s'[..n] == s[..n][c := x];
      SumUpdate(s[..n], c, x);
    }
  }

  lemma {:induction false} SumAtMost(s: seq<nat>, bound: nat)
    requires forall i :: 0 <= i < |s| ==> s[i] <= bound
    ensures Sum(s) <= |s| * bound
  {
    if s != [] {
      var n := |s| - 1;
      SumAtMost(s[..n], bound);
      assert (n + 1) * bound == n * bound + bound;
    }
  }

  lemma {:induction false} SumPairs(a: seq<nat>, b: seq<nat>, bound: nat)
    requires |a| == |b| && forall i :: 0 <= i < |a| ==> a[i] + b[i] <= bound
    ensures Sum(a) + Sum(b) <= |a| * bound
  {
    if a != [] {
      var n := |a| - 1;
      SumPairs(a[..n], b[..n], bound);
      assert (n + 1) * bound == n * bound + bound;
    }
  }

  // Calls that find the breaker closed ---------------------------------------------------------------

  /** Callers that have seen the breaker closed and not acted on it yet. */
  function SeenClosed(callers: seq<Phase>): (n: nat)
    ensures n <= |callers|
  {
    if callers == [] then 0
    else
      var n := |callers| - 1;
      SeenClosed(callers[..n]) + Bit(callers[n].Snapped? && callers[n].state == Closed)
  }

  function RunningNow(callers: seq<Phase>): nat {
    if callers == [] then 0 else RunningNow(callers[..|callers| - 1]) + Bit(callers[|callers| - 1].Running?)
  }

  lemma {:induction false} PhaseUpdate(callers: seq<Phase>, c: nat, x: Phase)
    requires c < |callers|
    ensures SeenClosed(callers[c := x])
            == SeenClosed(callers) - Bit(callers[c].Snapped? && callers[c].state == Closed)
               + Bit(x.Snapped? && x.state == Closed)
    ensures RunningNow(callers[c := x]) == RunningNow(callers) - Bit(callers[c].Running?) + Bit(x.Running?)
  {
    var n, callers' := |callers| - 1, callers[c := x];
    if c == n {
      assert callers'[..n] == callers[..n];
    } else {
      assert callers'[..n] == callers[..n][c := x];
      PhaseUpdate(callers[..n], c, x);
    }
  }

  lemma {:induction false} PhasesFit(callers: seq<Phase>)
    ensures SeenClosed(callers) + RunningNow(callers) <= |callers|
  {
    if callers != [] { PhasesFit(callers[..|callers| - 1]); }
  }

  /** While the breaker has never opened, whoever was let through has failed since or still runs;
      after that only those who had seen it closed before can still slip through. */
  ghost predicate ClosedLaw(cfg: Config, l: Load) {
    && (l.s.b.state == Closed ==>
       l.closed == l.s.b.failureCount + RunningNow(l.s.callers) && l.s.b.failureCount < cfg.threshold)
    && l.closed + SeenClosed(l.s.callers) <= cfg.threshold - 1 + |l.s.callers|
    && forall c :: 0 <= c < |l.s.callers| && l.s.b.state == Closed ==>
         l.s.callers[c].Snapped? ==> l.s.callers[c].state == Closed
  }

  lemma StepClosedLaw(cfg: Config, l: Load, e: Event)
    requires cfg.threshold >= 1 && ClosedLaw(cfg, l) && CanLoad(l, e)
    ensures ClosedLaw(cfg, LoadStep(cfg, l, e))
  {
    hide SeenClosed, RunningNow;
    var l' := LoadStep(cfg, l, e);
    PhaseUpdate(l.s.callers, e.c, l'.s.callers[e.c]);
    PhasesFit(l.s.callers);
    PhasesFit(l'.s.callers);
  }

  // Calls that the timeout lets through ------------------------------------------------------------

  ghost predicate ClockLaw(l: Load, t0: int) {
    && t0 <= l.clock && l.s.b.failureCount >= 0
    && (l.s.b.failureCount >= 1 ==> t0 <= l.s.b.lastFailure <= l.clock)
    && (l.s.b.state != Closed ==> l.s.b.failureCount >= 1)
  }

  /** Each probe of a caller has waited for a timeout of its own: between two of them the caller
      has failed, and has seen that failure or a later one. */
  ghost predicate ProbeLaw(b: Breaker, clock: int, timeout: int, t0: int, phase: Phase, probes: nat) {
    match phase
    case Idle => probes == 0 || (b.failureCount >= 1 && probes * timeout <= b.lastFailure - t0)
    case Snapped(state, lastFailure) =>
      && (probes == 0 || (b.failureCount >= 1 && probes * timeout <= lastFailure - t0 && lastFailure <= b.lastFailure))
      && (state == Open ==> b.failureCount >= 1 && t0 <= lastFailure <= b.lastFailure)
    case Running => probes * timeout <= clock - t0
  }

  ghost predicate ProbesLaw(cfg: Config, l: Load, t0: int) {
    && ClockLaw(l, t0) && |l.probes| == |l.s.callers|
    && forall c :: 0 <= c < |l.probes| ==> ProbeLaw(l.s.b, l.clock, cfg.timeout, t0, l.s.callers[c], l.probes[c])
  }

  lemma StepProbeLaw(cfg: Config, l: Load, t0: int, e: Event, c: nat)
    requires cfg.timeout >= 0 && ClockLaw(l, t0) && CanLoad(l, e) && c < |l.probes|
    requires ProbeLaw(l.s.b, l.clock, cfg.timeout, t0, l.s.callers[c], l.probes[c])
    requires ProbeLaw(l.s.b, l.clock, cfg.timeout, t0, l.s.callers[e.c], l.probes[e.c])
    ensures var l' := LoadStep(cfg, l, e);
            && ClockLaw(l', t0) && |l'.probes| == |l'.s.callers| == |l.probes|
            && ProbeLaw(l'.s.b, l'.clock, cfg.timeout, t0, l'.s.callers[c], l'.probes[c])
  {
    var p := l.probes[c];
    assert (p + 1) * cfg.timeout == p * cfg.timeout + cfg.timeout;
  }

  // Calls that find the breaker half open ----------------------------------------------------------

  /** What a caller has joined, is about to join, or may join, together with its own probes: no
      more than there have been probes. */
  ghost predicate JoinLaw(b: Breaker, phase: Phase, joined: nat, probes: nat, all: nat) {
    var sees := phase.Snapped? && phase.state == HalfOpen;
    joined + probes + Bit(sees || (b.state == HalfOpen && !phase.Running?)) <= all
  }

  ghost predicate JoinsLaw(l: Load) {
    && |l.probes| == |l.joined| == |l.s.callers|
    && forall c :: 0 <= c < |l.probes| ==> JoinLaw(l.s.b, l.s.callers[c], l.joined[c], l.probes[c], Sum(l.probes))
  }

  lemma StepJoinLaw(cfg: Config, l: Load, e: Event, c: nat)
    requires CanLoad(l, e) && c < |l.probes|
    requires JoinLaw(l.s.b, l.s.callers[c], l.joined[c], l.probes[c], Sum(l.probes))
    ensures var l' := LoadStep(cfg, l, e);
            && |l'.probes| == |l'.joined| == |l'.s.callers| == |l.probes|
            && JoinLaw(l'.s.b, l'.s.callers[c], l'.joined[c], l'.probes[c], Sum(l'.probes))
  {
    hide Sum;
    if e.Decide? { SumUpdate(l.probes, e.c, l.probes[e.c] + 1); }
  }

  // Runs -----------------------------------------------------------------------------------------------

  ghost predicate Laws(cfg: Config, l: Load, t0: int) {
    ClosedLaw(cfg, l) && ProbesLaw(cfg, l, t0) && JoinsLaw(l)
  }

  lemma StepLaws(cfg: Config, l: Load, t0: int, e: Event)
    requires cfg.threshold >= 1 && cfg.timeout >= 0 && Laws(cfg, l, t0) && CanLoad(l, e)
    ensures Laws(cfg, LoadStep(cfg, l, e), t0)
  {
    StepClosedLaw(cfg, l, e);
    assert e.c < |l.probes|;
    hide ClosedLaw, LoadStep, CanLoad, ProbeLaw, JoinLaw, ClockLaw;
    forall c: nat | c < |l.probes|
      ensures var l' := LoadStep(cfg, l, e);
              && ClockLaw(l', t0) && |l'.probes| == |l'.s.callers| == |l.probes|
              && ProbeLaw(l'.s.b, l'.clock, cfg.timeout, t0, l'.s.callers[c], l'.probes[c])
    {
      StepProbeLaw(cfg, l, t0, e, c);
    }
    forall c: nat | c < |l.probes|
      ensures var l' := LoadStep(cfg, l, e);
              && |l'.probes| == |l'.joined| == |l'.s.callers| == |l.probes|
              && JoinLaw(l'.s.b, l'.s.callers[c], l'.joined[c], l'.probes[c], Sum(l'.probes))
    {
      StepJoinLaw(cfg, l, e, c);
    }
  }

  lemma {:induction false} RunLaws(cfg: Config, l: Load, t0: int, events: seq<Event>, l': Load)
    requires cfg.threshold >= 1 && cfg.timeout >= 0 && Laws(cfg, l, t0) && LoadRun(cfg, l, events, l')
    ensures Laws(cfg, l', t0) && |l'.probes| == |l.probes|
    decreases |events|
  {
    if events != [] {
      StepLaws(cfg, l, t0, events[0]);
      hide Laws;
      RunLaws(cfg, LoadStep(cfg, l, events[0]), t0, events[1..], l');
    }
  }

  lemma {:induction false} NothingYet(n: nat)
    ensures Sum(seq(n, _ => 0)) == 0
    ensures SeenClosed(seq(n, _ => Idle)) == 0 && RunningNow(seq(n, _ => Idle)) == 0
  {
    if n > 0 {
      assert seq(n, _ => 0)[..n - 1] == seq(n - 1, _ => 0);
      assert seq(n, _ => Idle)[..n - 1] == seq(n - 1, _ => Idle);
      NothingYet(n - 1);
    }
  }

  lemma ProbesFit(cfg: Config, l: Load, t0: int, c: nat)
    requires cfg.timeout > 0 && ProbesLaw(cfg, l, t0) && c < |l.probes|
    ensures l.probes[c] <= (l.clock - t0) / cfg.timeout
  {
    DivAtLeast(l.clock - t0, cfg.timeout, l.probes[c]);
  }

  lemma StartLaws(cfg: Config, n: nat, t0: int)
    requires cfg.threshold >= 1
    ensures Laws(cfg, Unloaded(n, t0), t0) && |Unloaded(n, t0).probes| == n
  {
    NothingYet(n);
    hide Sum, SeenClosed, RunningNow;
  }

  lemma AllProbes(cfg: Config, l: Load, t0: int)
    requires cfg.timeout > 0 && ProbesLaw(cfg, l, t0)
    ensures l.clock >= t0 && Sum(l.probes) <= |l.probes| * ((l.clock - t0) / cfg.timeout)
  {
    hide ProbeLaw, Sum;
    DivAtLeast(l.clock - t0, cfg.timeout, 0);
    forall c | 0 <= c < |l.probes| ensures l.probes[c] <= (l.clock - t0) / cfg.timeout { ProbesFit(cfg, l, t0, c); }
    SumAtMost(l.probes, (l.clock - t0) / cfg.timeout);
  }

  lemma LawsBound(cfg: Config, l: Load, t0: int)
    requires cfg.timeout > 0 && Laws(cfg, l, t0)
    ensures l.clock >= t0
    ensures var n := |l.probes|; Admitted(l) <= cfg.threshold - 1 + n + n * (n * ((l.clock - t0) / cfg.timeout))
  {
    hide Sum, ProbeLaw, SeenClosed, RunningNow, ProbesLaw;
    var n := |l.probes|;
    AllProbes(cfg, l, t0);
    SumPairs(l.joined, l.probes, Sum(l.probes));
    MulLe(Sum(l.probes), n * ((l.clock - t0) / cfg.timeout), n);
  }

  /** Callers that never succeed, overlapping in any way, have together been let through at most
      `threshold - 1 + n` times by a closed breaker, and `n` times for each of the at most
      `n * (T / timeout)` probes; for a single caller this is `threshold + T / timeout`. */
  lemma OverlappingLoad(cfg: Config, n: nat, t0: int, events: seq<Event>, l: Load)
    requires cfg.threshold >= 1 && cfg.timeout > 0 && LoadRun(cfg, Unloaded(n, t0), events, l)
    ensures l.clock >= t0
    ensures Admitted(l) <= cfg.threshold - 1 + n + n * (n * ((l.clock - t0) / cfg.timeout))
  {
    StartLaws(cfg, n, t0);
    hide LoadRun, Laws, LoadStep, CanLoad;
    RunLaws(cfg, Unloaded(n, t0), t0, events, l);
    LawsBound(cfg, l, t0);
  }
}
