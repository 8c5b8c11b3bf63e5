/** The job engine as a transition system: submitters, worker goroutines and retry goroutines
    interleave around one queue (internal/async/queue.go:217-502,
    internal/async/priority_worker_pool.go:387-464).

    Channel operations and the counter updates that follow them are separate steps. What is
    proved holds after every run, whatever the interleaving. */
module JobEngine {
  import opened Common
  import opened JobQueues

  /** A worker polls the levels from the highest down (`next` counts them), has taken a job it
      has not counted yet, or runs one. */
  datatype Worker = Idle | Polling(next: nat) | Taken(id: JobId) | Running(id: JobId)

  /** The retry goroutines of jobs are `waiting` out their delay, or `resuming`: past the check
      for shutdown and about to send. The last components only record history. */
  datatype System = System(
    q: Queue,
    maxRetries: int,
    workers: seq<Worker>,
    lateSubmits: seq<nat>,
    lateRetries: nat,
    waiting: set<JobId>,
    resuming: set<JobId>,
    done: set<JobId>,
    dead: set<JobId>,
    abandoned: set<JobId>,
    enqueued: seq<seq<JobId>>,
    dequeued: seq<seq<JobId>>,
    retries: nat,
    requeues: nat,
    refusals: nat)

  datatype Event =
    | Submit(id: JobId, p: nat)
    | CountSubmit(p: nat)
    | Poll(w: nat)
    | Probe(w: nat)
    | CountTake(w: nat)
    | Complete(w: nat, ok: bool)
    | Wake(id: JobId)
    | Resend(id: JobId)
    | CountRetry
    | Deadline(id: JobId)
    | Shutdown

  ghost predicate Shaped(s: System) {
    && WellFormed(s.q)
    && |s.lateSubmits| == LEVELS && |s.enqueued| == LEVELS && |s.dequeued| == LEVELS
    && (forall w :: 0 <= w < |s.workers| && s.workers[w].Polling? ==> s.workers[w].next < LEVELS)
    && (forall w :: 0 <= w < |s.workers| && Holding(s.workers[w]) ==> s.workers[w].id in s.q.jobs)
    && s.waiting <= s.q.jobs.Keys && s.resuming <= s.q.jobs.Keys
  }

  predicate Holding(w: Worker) {
    w.Taken? || w.Running?
  }

  function ProbedLevel(w: Worker): nat
    requires w.Polling? && w.next < LEVELS
  {
    LEVELS - 1 - w.next
  }

  ghost predicate CanStep(s: System, e: Event)
    requires Shaped(s)
  {
    match e
    case Submit(id, p) => id !in s.q.jobs && p < LEVELS && HasRoom(s.q, p)
    case CountSubmit(p) => p < LEVELS && s.lateSubmits[p] > 0
    case Poll(w) => w < |s.workers| && s.workers[w] == Idle && !s.q.down
    case Probe(w) => w < |s.workers| && s.workers[w].Polling?
    case CountTake(w) => w < |s.workers| && s.workers[w].Taken?
    case Complete(w, _) => w < |s.workers| && s.workers[w].Running?
    case Wake(id) => id in s.waiting
    case Resend(id) => id in s.resuming
    case CountRetry => s.lateRetries > 0
    case Deadline(id) => id in s.q.jobs && s.q.jobs[id].ctx == Active
    case Shutdown => !s.q.down
  }

  ghost predicate Hit(s: System, e: Event)
    requires Shaped(s) && CanStep(s, e)
  {
    e.Probe? && s.q.levels[ProbedLevel(s.workers[e.w])] != []
  }

  ghost function Step(s: System, e: Event): System
    requires Shaped(s) && CanStep(s, e)
  {
    match e
    case Submit(id, p) =>
      s.(q := Enqueued(s.q, id, NewJob(p, s.maxRetries, s.q.down)),
         lateSubmits := s.lateSubmits[p := s.lateSubmits[p] + 1],
         enqueued := s.enqueued[p := s.enqueued[p] + [id]])
    case CountSubmit(p) =>
      s.(q := s.q.(stats := CountSubmitted(s.q.stats, p)), lateSubmits := s.lateSubmits[p := s.lateSubmits[p] - 1])
    case Poll(w) =>
      s.(workers := s.workers[w := Polling(0)])
    case Probe(w) =>
      var p := ProbedLevel(s.workers[w]);
      if s.q.levels[p] != [] then
        var id := s.q.levels[p][0];
        s.(q := Dequeued(s.q, p), workers := s.workers[w := Taken(id)],
           dequeued := s.dequeued[p := s.dequeued[p] + [id]])
      else if p > 0 then s.(workers := s.workers[w := Polling(s.workers[w].next + 1)])
      else s.(workers := s.workers[w := Idle])
    case CountTake(w) =>
      s.(q := s.q.(stats := CountProcessing(s.q.stats)), workers := s.workers[w := Running(s.workers[w].id)])
    case Complete(w, ok) =>
      var id := s.workers[w].id;
      var job := s.q.jobs[id];
      var s1 := s.(q := s.q.(jobs := s.q.jobs[id := Finished(job, ok)], stats := CountFinished(s.q.stats, ok)),
                   workers := s.workers[w := Idle]);
      if Retries(job, ok) then s1.(waiting := s.waiting + {id}, retries := s.retries + 1)
      else if ok then s1.(done := s.done + {id})
      else s1.(dead := s.dead + {id})
    case Wake(id) =>
      var s1 := s.(waiting := s.waiting - {id});
      if s.q.down then s1.(abandoned := s.abandoned + {id}) else s1.(resuming := s.resuming + {id})
    case Resend(id) =>
      var p := s.q.jobs[id].priority;
      var s1 := s.(resuming := s.resuming - {id});
      if HasRoom(s.q, p) then
        s1.(q := Requeued(s.q, id), lateRetries := s.lateRetries + 1, requeues := s.requeues + 1,
            enqueued := s.enqueued[p := s.enqueued[p] + [id]])
      else s1.(q := RetryFailed(s.q, id), dead := s.dead + {id}, refusals := s.refusals + 1)
    case CountRetry =>
      s.(q := s.q.(stats := CountRetryScheduled(s.q.stats)), lateRetries := s.lateRetries - 1)
    case Deadline(id) =>
      s.(q := s.q.(jobs := s.q.jobs[id := s.q.jobs[id].(ctx := DeadlineExceeded)]))
    case Shutdown =>
      s.(q := ShutDown(s.q))
  }

  function Start(size: nat, maxRetries: int, workers: nat): System {
    System(EmptyQueue(size), maxRetries, seq(workers, _ => Idle), [0, 0, 0, 0], 0, {}, {}, {}, {}, {},
           [[], [], [], []], [[], [], [], []], 0, 0, 0)
  }

  // Conservation ------------------------------------------------------------------------------------------

  function Occurs(level: seq<JobId>, id: JobId): nat {
    multiset(level)[id]
  }

  /** How often a job is queued. */
  function Queued(levels: seq<seq<JobId>>, id: JobId): nat {
    if levels == [] then 0 else Queued(levels[..|levels| - 1], id) + Occurs(levels[|levels| - 1], id)
  }

  predicate Holds(w: Worker, id: JobId) {
    Holding(w) && w.id == id
  }

  /** How many workers hold a job. */
  function Held(workers: seq<Worker>, id: JobId): nat {
    if workers == [] then 0 else Held(workers[..|workers| - 1], id) + Bit(Holds(workers[|workers| - 1], id))
  }

  /** How often a job is between two tries, or at its end. */
  function Parked(s: System, id: JobId): nat {
    Bit(id in s.waiting) + Bit(id in s.resuming) + Bit(id in s.done) + Bit(id in s.dead) + Bit(id in s.abandoned)
  }

  function Places(s: System, id: JobId): nat {
    Queued(s.q.levels, id) + Held(s.workers, id) + Parked(s, id)
  }

  /** Every accepted job is in exactly one place, and nothing else is anywhere. */
  ghost predicate Conserved(s: System) {
    forall id: JobId :: Places(s, id) == Bit(id in s.q.jobs)
  }

  /** First in, first out per level, and no level above its capacity. */
  ghost predicate Fifo(s: System)
    requires Shaped(s)
  {
    forall p :: 0 <= p < LEVELS ==> s.dequeued[p] + s.q.levels[p] == s.enqueued[p] && |s.q.levels[p]| <= s.q.caps[p]
  }

  lemma {:induction false} QueuedUpdate(levels: seq<seq<JobId>>, p: nat, l: seq<JobId>, id: JobId)
    requires p < |levels|
    ensures Queued(levels[p := l], id) == Queued(levels, id) - Occurs(levels[p], id) + Occurs(l, id)
  {
    hide Occurs;
    var n, levels' := |levels| - 1, levels[p := l];
    if p == n {
      assert levels'[..n] == levels[..n];
    } else {
      assert levels'[..n] == levels[..n][p := l];
      QueuedUpdate(levels[..n], p, l, id);
    }
  }

  lemma {:induction false} HeldUpdate(workers: seq<Worker>, w: nat, x: Worker, id: JobId)
    requires w < |workers|
    ensures Held(workers[w := x], id) == Held(workers, id) - Bit(Holds(workers[w], id)) + Bit(Holds(x, id))
  {
    hide Holds;
    var n, workers' := |workers| - 1, workers[w := x];
    if w == n {
      assert workers'[..n] == workers[..n];
    } else {
      assert workers'[..n] == workers[..n][w := x];
      HeldUpdate(workers[..n], w, x, id);
    }
  }

  lemma {:induction false} HeldBy(workers: seq<Worker>, w: nat)
    requires w < |workers| && Holding(workers[w])
    ensures Held(workers, workers[w].id) >= 1
  {
    var n := |workers| - 1;
    if w < n { HeldBy(workers[..n], w); }
  }

  lemma {:induction false} QueuedIn(levels: seq<seq<JobId>>, p: nat, id: JobId)
    requires p < |levels| && id in levels[p]
    ensures Queued(levels, id) >= 1
  {
    var n := |levels| - 1;
    if p < n { QueuedIn(levels[..n], p, id); }
  }

  lemma ProbeShaped(s: System, w: nat)
    requires Shaped(s) && CanStep(s, Probe(w))
    ensures Shaped(Step(s, Probe(w)))
  {
  }

  lemma CompleteShaped(s: System, w: nat, ok: bool)
    requires Shaped(s) && CanStep(s, Event.Complete(w, ok))
    ensures Shaped(Step(s, Event.Complete(w, ok)))
  {
  }

  lemma ResendShaped(s: System, id: JobId)
    requires Shaped(s) && CanStep(s, Resend(id))
    ensures Shaped(Step(s, Resend(id)))
  {
  }

  lemma StepShaped(s: System, e: Event)
    requires Shaped(s) && CanStep(s, e)
    ensures Shaped(Step(s, e))
  {
    match e {
      case Submit(_, _) =>
      case Probe(w) => ProbeShaped(s, w);
      case Complete(w, ok) => CompleteShaped(s, w, ok);
      case Resend(id) => ResendShaped(s, id);
      case _ =>
    }
  }

  lemma StepFifo(s: System, e: Event)
    requires Shaped(s) && CanStep(s, e) && Fifo(s)
    ensures Shaped(Step(s, e)) && Fifo(Step(s, e))
  {
    StepShaped(s, e);
    match e {
      case Submit(_, _) =>
      case Probe(w) => ProbeFifo(s, w);
      case Resend(_) =>
      case _ => assert Step(s, e).q.levels == s.q.levels && Step(s, e).q.caps == s.q.caps;
    }
  }

  lemma ProbeFifo(s: System, w: nat)
    requires Shaped(s) && CanStep(s, Probe(w)) && Fifo(s) && Shaped(Step(s, Probe(w)))
    ensures Fifo(Step(s, Probe(w)))
  {
    var p := ProbedLevel(s.workers[w]);
    if s.q.levels[p] != [] { assert s.q.levels[p] == [s.q.levels[p][0]] + s.q.levels[p][1..]; }
  }

  lemma OccursPush(l: seq<JobId>, x: JobId, id: JobId)
    ensures Occurs(l + [x], id) == Occurs(l, id) + Bit(x == id)
  {
  }

  lemma OccursPop(l: seq<JobId>, id: JobId)
    requires l != []
    ensures Occurs(l[1..], id) == Occurs(l, id) - Bit(l[0] == id)
  {
    assert l == [l[0]] + l[1..];
  }

  /** One step moves a job from one place to another. */
  lemma StepConserved(s: System, e: Event)
    requires Shaped(s) && CanStep(s, e) && Conserved(s)
    ensures Conserved(Step(s, e))
  {
    forall id: JobId ensures Places(Step(s, e), id) == Bit(id in Step(s, e).q.jobs) {
      assert Places(s, id) == Bit(id in s.q.jobs);
      StepPlaces(s, e, id);
    }
  }

  lemma StepPlaces(s: System, e: Event, id: JobId)
    requires Shaped(s) && CanStep(s, e) && Conserved(s)
    ensures Places(Step(s, e), id) == Places(s, id) + Bit(e.Submit? && e.id == id)
  {
    hide Occurs, Queued, Held, Conserved;
    match e {
      case Submit(i, p) => SubmitPlaces(s, i, p, id);
      case CountSubmit(p) =>
      case Poll(w) => HeldUpdate(s.workers, w, Polling(0), id);
      case Probe(w) => ProbePlaces(s, w, id);
      case CountTake(w) => HeldUpdate(s.workers, w, Running(s.workers[w].id), id);
      case Complete(w, ok) =>
        HeldUpdate(s.workers, w, Idle, id);
        NotParked(s, w);
      case Wake(i) => ParkedOnce(s, i);
      case Resend(i) =>
        ParkedOnce(s, i);
        ResendPlaces(s, i, id);
      case CountRetry =>
      case Deadline(i) =>
      case Shutdown =>
    }
  }

  lemma SubmitPlaces(s: System, i: JobId, p: nat, id: JobId)
    requires Shaped(s) && CanStep(s, Submit(i, p))
    ensures Places(Step(s, Submit(i, p)), id) == Places(s, id) + Bit(i == id)
  {
    hide Occurs, Queued, Held;
    QueuedUpdate(s.q.levels, p, s.q.levels[p] + [i], id);
    OccursPush(s.q.levels[p], i, id);
  }

  lemma ProbePlaces(s: System, w: nat, id: JobId)
    requires Shaped(s) && CanStep(s, Probe(w))
    ensures Places(Step(s, Probe(w)), id) == Places(s, id)
  {
    hide Occurs, Queued, Held;
    var p := ProbedLevel(s.workers[w]);
    HeldUpdate(s.workers, w, Step(s, Probe(w)).workers[w], id);
    if s.q.levels[p] != [] {
      QueuedUpdate(s.q.levels, p, s.q.levels[p][1..], id);
      OccursPop(s.q.levels[p], id);
    }
  }

  lemma ResendPlaces(s: System, i: JobId, id: JobId)
    requires Shaped(s) && CanStep(s, Resend(i)) && Parked(s, i) == 1
    ensures Places(Step(s, Resend(i)), id) == Places(s, id)
  {
    hide Occurs, Queued, Held;
    var p := s.q.jobs[i].priority;
    if HasRoom(s.q, p) {
      QueuedUpdate(s.q.levels, p, s.q.levels[p] + [i], id);
      OccursPush(s.q.levels[p], i, id);
    }
    hide Shaped, CanStep, HasRoom;
  }

  /** A job in a worker's hands is not parked. */
  lemma NotParked(s: System, w: nat)
    requires Conserved(s) && w < |s.workers| && Holding(s.workers[w])
    ensures Parked(s, s.workers[w].id) == 0 && Queued(s.q.levels, s.workers[w].id) == 0
            && Held(s.workers, s.workers[w].id) == 1
  {
    HeldBy(s.workers, w);
    assert Places(s, s.workers[w].id) <= 1;
  }

  lemma ParkedOnce(s: System, id: JobId)
    requires Conserved(s) && Parked(s, id) >= 1
    ensures Parked(s, id) == 1 && Queued(s.q.levels, id) == 0 && Held(s.workers, id) == 0
  {
    assert Places(s, id) <= 1;
  }

  // Runs ----------------------------------------------------------------------------------------------------

  ghost predicate Inv(s: System) {
    Shaped(s) && Conserved(s) && Fifo(s)
  }

  lemma StepInv(s: System, e: Event)
    requires Inv(s) && CanStep(s, e)
    ensures Inv(Step(s, e))
  {
    StepShaped(s, e);
    StepFifo(s, e);
    StepConserved(s, e);
  }

  ghost predicate Run(s: System, events: seq<Event>, s': System)
    decreases |events|
  {
    if events == [] then s == s'
    else Shaped(s) && CanStep(s, events[0]) && Run(Step(s, events[0]), events[1..], s')
  }

  /** Conservation, order and capacity hold after every run. */
  lemma {:induction false} RunInv(s: System, events: seq<Event>, s': System)
    requires Inv(s) && Run(s, events, s')
    ensures Inv(s')
    decreases |events|
  {
    if events != [] {
      StepInv(s, events[0]);
      hide Inv;
      RunInv(Step(s, events[0]), events[1..], s');
    }
  }

  lemma {:induction false} NobodyHolds(workers: nat, id: JobId)
    ensures Held(seq(workers, _ => Idle), id) == 0
  {
    var ws := seq(workers, _ => Idle);
    if workers > 0 {
      assert ws[..workers - 1] == seq(workers - 1, _ => Idle);
      NobodyHolds(workers - 1, id);
    }
  }

  lemma {:induction false} NothingQueued(levels: seq<seq<JobId>>, id: JobId)
    requires forall p :: 0 <= p < |levels| ==> levels[p] == []
    ensures Queued(levels, id) == 0
  {
    if levels != [] { NothingQueued(levels[..|levels| - 1], id); }
  }

  lemma StartInv(size: nat, maxRetries: int, workers: nat)
    ensures Inv(Start(size, maxRetries, workers))
  {
    var s := Start(size, maxRetries, workers);
    forall id: JobId ensures Places(s, id) == 0 {
      NobodyHolds(workers, id);
      NothingQueued(s.q.levels, id);
    }
  }

  // Polling level by level ------------------------------------------------------------------------------

  lemma QueuedTwice(levels: seq<seq<JobId>>, p: nat, r: nat, id: JobId)
    requires p < |levels| && r < |levels| && p != r && id in levels[p] && id in levels[r]
    ensures Queued(levels, id) >= 2
  {
    QueuedUpdate(levels, p, [], id);
    QueuedIn(levels[p := []], r, id);
  }

  lemma QueuedOnce(s: System, p: nat, r: nat, id: JobId)
    requires Conserved(s) && p < |s.q.levels| && r < |s.q.levels| && p != r && id in s.q.levels[p]
    ensures id !in s.q.levels[r]
  {
    assert Places(s, id) <= 1;
    if id in s.q.levels[r] { QueuedTwice(s.q.levels, p, r, id); }
  }

  /** A worker probes the levels one after the other, so a job of a higher level can arrive behind
      its back. What it takes is the head of the line exactly when no level above is occupied by
      then. */
  lemma TakeIsHeadIff(s: System, e: Event)
    requires Inv(s) && CanStep(s, e) && Hit(s, e)
    ensures var p := ProbedLevel(s.workers[e.w]);
            Line(s.q.levels)[0] == s.q.levels[p][0] <==> forall r :: p < r < LEVELS ==> s.q.levels[r] == []
  {
    var levels, p := s.q.levels, ProbedLevel(s.workers[e.w]);
    var t := TopLevel(levels);
    assert Line(levels)[0] == levels[t][0];
    if t != p { QueuedOnce(s, p, t, levels[p][0]); }
  }

  ghost predicate Overtaken(s: System, e: Event) {
    Inv(s) && CanStep(s, e) && Hit(s, e) && Line(s.q.levels)[0] != s.q.levels[ProbedLevel(s.workers[e.w])][0]
  }

  /** The single worker of an engine that is up is about to probe level `3 - next`. */
  ghost predicate Probing(s: System, next: nat, levels: seq<seq<JobId>>, caps: seq<nat>, ids: set<JobId>) {
    s.workers == [Polling(next)] && s.q.levels == levels && s.q.caps == caps && s.q.jobs.Keys == ids
  }

  lemma ProbeEmpty(s: System, next: nat, levels: seq<seq<JobId>>, caps: seq<nat>, ids: set<JobId>)
    requires Inv(s) && Probing(s, next, levels, caps, ids) && next < CRITICAL && levels[CRITICAL - next] == []
    ensures CanStep(s, Probe(0)) && Probing(Step(s, Probe(0)), next + 1, levels, caps, ids)
  {
    hide Conserved, Fifo;
  }

  lemma ArriveWhileProbing(s: System, next: nat, levels: seq<seq<JobId>>, caps: seq<nat>, ids: set<JobId>, id: JobId,
                           p: nat)
    requires Inv(s) && Probing(s, next, levels, caps, ids) && id !in ids && p < LEVELS && |levels[p]| < caps[p]
    ensures CanStep(s, Submit(id, p))
            && Probing(Step(s, Submit(id, p)), next, levels[p := levels[p] + [id]], caps, ids + {id})
  {
    hide Conserved, Fifo;
  }

  lemma BeginProbing(size: nat, maxRetries: int)
    ensures var s := Start(size, maxRetries, 1);
            CanStep(s, Poll(0)) && Probing(Step(s, Poll(0)), 0, [[], [], [], []],
              [size / 4, size / 2, size / 4, size / 8], {})
  {
    hide Conserved, Fifo;
    StartInv(size, maxRetries, 1);
  }

  lemma ArrivalsAreIn()
    ensures var none: set<JobId>, l0: seq<seq<JobId>>, l1: seq<seq<JobId>> := {}, [[], [], [], []], [[0], [], [], []];
            && none + {0} == {0} && {0} + {1} == {0, 1}
            && l0[LOW := l0[LOW] + [0]] == l1
            && l1[CRITICAL := l1[CRITICAL] + [1]] == [[0], [], [], [1]]
  {
    var l0: seq<seq<JobId>>, l1: seq<seq<JobId>> := [[], [], [], []], [[0], [], [], []];
    assert l0[LOW] + [0] == [0] && l1[CRITICAL] + [1] == [1];
  }

  /** It does happen, with a single worker: a critical job that arrives between two probes is
      passed over for a low one. */
  lemma TakeCanBeOvertaken(size: nat, maxRetries: int) returns (events: seq<Event>, s: System, e: Event)
    requires size >= 8
    ensures Run(Start(size, maxRetries, 1), events, s) && Overtaken(s, e)
  {
    var s0, caps := Start(size, maxRetries, 1), [size / 4, size / 2, size / 4, size / 8];
    StartInv(size, maxRetries, 1);
    BeginProbing(size, maxRetries);
    events, s := [], s0;
    assert Run(s0, events, s);
    hide Run, Inv, CanStep, Step, Start, Probing;
    events, s := Then(s0, events, s, Poll(0));
    ArriveWhileProbing(s, 0, [[], [], [], []], caps, {}, 0, LOW);
    events, s := Then(s0, events, s, Submit(0, LOW));
    ArrivalsAreIn();
    ProbeEmpty(s, 0, [[0], [], [], []], caps, {0});
    events, s := Then(s0, events, s, Probe(0));
    ArriveWhileProbing(s, 1, [[0], [], [], []], caps, {0}, 1, CRITICAL);
    events, s := Then(s0, events, s, Submit(1, CRITICAL));
    ProbeEmpty(s, 1, [[0], [], [], [1]], caps, {0, 1});
    events, s := Then(s0, events, s, Probe(0));
    ProbeEmpty(s, 2, [[0], [], [], [1]], caps, {0, 1});
    events, s := Then(s0, events, s, Probe(0));
    e := Probe(0);
    LowIsTaken(s, caps);
  }

  lemma LowIsTaken(s: System, caps: seq<nat>)
    requires Inv(s) && Probing(s, 3, [[0], [], [], [1]], caps, {0, 1})
    ensures Overtaken(s, Probe(0))
  {
    hide Conserved, Fifo;
  }

  lemma Then(s0: System, es: seq<Event>, s: System, e: Event) returns (es': seq<Event>, s': System)
    requires Inv(s) && Run(s0, es, s) && CanStep(s, e)
    ensures es' == es + [e] && s' == Step(s, e) && Inv(s') && Run(s0, es', s')
  {
    es', s' := es + [e], Step(s, e);
    StepInv(s, e);
    RunThenStep(s0, es, s, e);
  }

  lemma {:induction false} RunThenStep(s0: System, es: seq<Event>, s: System, e: Event)
    requires Run(s0, es, s) && Shaped(s) && CanStep(s, e)
    ensures Run(s0, es + [e], Step(s, e))
    decreases |es|
  {
    hide Step, Shaped, CanStep;
    if es == [] {
      assert ([] + [e])[1..] == [];
      assert es + [e] == [e];
    } else {
      RunThenStep(Step(s0, es[0]), es[1..], s, e);
      assert (es + [e])[1..] == es[1..] + [e];
    }
  }
}
