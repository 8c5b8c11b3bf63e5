/** What the statistics of the job queue say, exactly, after every run of the engine
    (internal/async/queue.go:434-489). */
module JobCounters {
  import opened Common
  import opened JobQueues
  import opened JobEngine

  function Sum4(s: seq<int>): int
    requires |s| == LEVELS
  {
    s[0] + s[1] + s[2] + s[3]
  }

  function Length4(levels: seq<seq<JobId>>): nat
    requires |levels| == LEVELS
  {
    |levels[0]| + |levels[1]| + |levels[2]| + |levels[3]|
  }

  /** Workers that have taken a job and not counted it yet. */
  function TakenCount(workers: seq<Worker>): (n: nat)
    ensures n <= |workers|
  {
    if workers == [] then 0 else TakenCount(workers[..|workers| - 1]) + Bit(workers[|workers| - 1].Taken?)
  }

  function RunningCount(workers: seq<Worker>): (n: nat)
    ensures n <= |workers|
  {
    if workers == [] then 0 else RunningCount(workers[..|workers| - 1]) + Bit(workers[|workers| - 1].Running?)
  }

  lemma {:induction false} WorkerUpdate(workers: seq<Worker>, w: nat, x: Worker)
    requires w < |workers|
    ensures TakenCount(workers[w := x]) == TakenCount(workers) - Bit(workers[w].Taken?) + Bit(x.Taken?)
    ensures RunningCount(workers[w := x]) == RunningCount(workers) - Bit(workers[w].Running?) + Bit(x.Running?)
  {
    var n, workers' := |workers| - 1, workers[w := x];
    if w == n {
      assert workers'[..n] == workers[..n];
    } else {
      assert workers'[..n] == workers[..n][w := x];
      WorkerUpdate(workers[..n], w, x);
    }
  }

  /** Submissions whose statistics update is still outstanding. */
  function Late(s: System): int
    requires |s.lateSubmits| == LEVELS
  {
    s.lateSubmits[0] + s.lateSubmits[1] + s.lateSubmits[2] + s.lateSubmits[3]
  }

  /** `total` lags the accepted jobs by the outstanding updates; the priority counters add up to it. */
  ghost predicate TotalLaw(s: System)
    requires Shaped(s)
  {
    && s.q.stats.total + Late(s) == |s.q.jobs|
    && Sum4(s.q.stats.byPriority) == s.q.stats.total
  }

  function OfPriority(jobs: map<JobId, Job>, p: nat): set<JobId> {
    set id | id in jobs && jobs[id].priority == p
  }

  /** Each priority counter lags the accepted jobs of its priority by the outstanding updates. */
  ghost predicate PriorityLaw(s: System)
    requires Shaped(s)
  {
    forall p :: 0 <= p < LEVELS ==> s.q.stats.byPriority[p] + s.lateSubmits[p] == |OfPriority(s.q.jobs, p)|
  }

  /** A successful retry re-enqueue lowers `pending` below the number of queued jobs for good;
      `processing` is exact. */
  ghost predicate QueueLaw(s: System)
    requires Shaped(s)
  {
    && s.q.stats.pending + s.requeues + Late(s) == Length4(s.q.levels) + TakenCount(s.workers)
    && s.q.stats.processing == RunningCount(s.workers)
  }

  /** `failed` counts the jobs that finally failed and every retry that was ever scheduled;
      `retrying` counts re-enqueues minus the retries refused by a full level. */
  ghost predicate OutcomeLaw(s: System) {
    && s.q.stats.completed == |s.done|
    && s.q.stats.failed == |s.dead| + s.retries
    && s.q.stats.retrying == s.requeues - s.lateRetries - s.refusals
    && s.retries == |s.waiting| + |s.resuming| + |s.abandoned| + s.requeues + s.refusals
  }

  /** The five state counters exceed `total` by the re-enqueues that have been counted. */
  ghost predicate SumLaw(s: System) {
    var st := s.q.stats;
    st.pending + st.processing + st.completed + st.failed + st.retrying == st.total + s.requeues - s.lateRetries
  }

  ghost predicate Counters(s: System)
    requires Shaped(s)
  {
    TotalLaw(s) && PriorityLaw(s) && QueueLaw(s) && OutcomeLaw(s) && SumLaw(s)
  }

  lemma SameSize(jobs: map<JobId, Job>, jobs': map<JobId, Job>)
    requires jobs.Keys == jobs'.Keys
    ensures |jobs| == |jobs'|
  {
    assert |jobs| == |jobs.Keys| && |jobs'| == |jobs'.Keys|;
  }

  lemma SubmitTotal(s: System, id: JobId, p: nat)
    requires Shaped(s) && TotalLaw(s) && CanStep(s, Submit(id, p)) && Shaped(Step(s, Submit(id, p)))
    ensures TotalLaw(Step(s, Submit(id, p)))
  {
    assert Step(s, Submit(id, p)).q.jobs.Keys == s.q.jobs.Keys + {id};
  }

  lemma CountedTotal(s: System, p: nat)
    requires Shaped(s) && TotalLaw(s) && CanStep(s, CountSubmit(p)) && Shaped(Step(s, CountSubmit(p)))
    ensures TotalLaw(Step(s, CountSubmit(p)))
  {
  }

  lemma OtherKeys(s: System, e: Event)
    requires Shaped(s) && CanStep(s, e) && !e.Submit?
    ensures Step(s, e).q.jobs.Keys == s.q.jobs.Keys
  {
    hide Finished, Retries;
  }

  lemma OtherTotal(s: System, e: Event)
    requires Shaped(s) && TotalLaw(s) && CanStep(s, e) && Shaped(Step(s, e)) && !e.Submit? && !e.CountSubmit?
    ensures TotalLaw(Step(s, e))
  {
    OtherKeys(s, e);
    SameSize(s.q.jobs, Step(s, e).q.jobs);
    hide Sum4, Shaped, WellFormed, Finished, Retries, CanStep;
  }

  lemma StepTotal(s: System, e: Event)
    requires Shaped(s) && TotalLaw(s) && CanStep(s, e) && Shaped(Step(s, e))
    ensures TotalLaw(Step(s, e))
  {
    match e {
      case Submit(id, p) => SubmitTotal(s, id, p);
      case CountSubmit(p) => CountedTotal(s, p);
      case _ => OtherTotal(s, e);
    }
  }

  lemma SubmitPriority(jobs: map<JobId, Job>, id: JobId, job: Job, p: nat)
    requires id !in jobs
    ensures |OfPriority(jobs[id := job], p)| == |OfPriority(jobs, p)| + Bit(job.priority == p)
  {
    assert OfPriority(jobs[id := job], p) == OfPriority(jobs, p) + if job.priority == p then {id} else {};
  }

  lemma SamePriorities(jobs: map<JobId, Job>, jobs': map<JobId, Job>, p: nat)
    requires jobs.Keys == jobs'.Keys && forall id :: id in jobs ==> jobs'[id].priority == jobs[id].priority
    ensures OfPriority(jobs', p) == OfPriority(jobs, p)
  {
  }

  lemma StepPriority(s: System, e: Event)
    requires Shaped(s) && PriorityLaw(s) && CanStep(s, e) && Shaped(Step(s, e))
    ensures PriorityLaw(Step(s, e))
  {
    match e {
      case Submit(id, p) => SubmittedPriority(s, id, p);
      case CountSubmit(p) => assert Step(s, e).q.jobs == s.q.jobs;
      case _ => OtherPriority(s, e);
    }
  }

  lemma SubmittedPriority(s: System, id: JobId, r: nat)
    requires Shaped(s) && PriorityLaw(s) && CanStep(s, Submit(id, r)) && Shaped(Step(s, Submit(id, r)))
    ensures PriorityLaw(Step(s, Submit(id, r)))
  {
    var s' := Step(s, Submit(id, r));
    forall p | 0 <= p < LEVELS ensures s'.q.stats.byPriority[p] + s'.lateSubmits[p] == |OfPriority(s'.q.jobs, p)| {
      SubmitPriority(s.q.jobs, id, s'.q.jobs[id], p);
      hide OfPriority;
    }
  }

  lemma OtherPriority(s: System, e: Event)
    requires Shaped(s) && PriorityLaw(s) && CanStep(s, e) && Shaped(Step(s, e)) && !e.Submit? && !e.CountSubmit?
    ensures PriorityLaw(Step(s, e))
  {
    var s' := Step(s, e);
    assert s'.lateSubmits == s.lateSubmits && s'.q.stats.byPriority == s.q.stats.byPriority;
    OtherKeys(s, e);
    SamePriorityOf(s, e);
    forall p | 0 <= p < LEVELS ensures s'.q.stats.byPriority[p] + s'.lateSubmits[p] == |OfPriority(s'.q.jobs, p)| {
      SamePriorities(s.q.jobs, s'.q.jobs, p);
      hide Step, OfPriority, Shaped, CanStep;
    }
  }

  lemma SamePriorityOf(s: System, e: Event)
    requires Shaped(s) && CanStep(s, e) && !e.Submit?
    ensures forall id :: id in s.q.jobs ==>
            id in Step(s, e).q.jobs && Step(s, e).q.jobs[id].priority == s.q.jobs[id].priority
  {
  }

  lemma StepQueue(s: System, e: Event)
    requires Shaped(s) && QueueLaw(s) && CanStep(s, e) && Shaped(Step(s, e))
    ensures QueueLaw(Step(s, e))
  {
    match e {
      case Poll(w) => PollQueue(s, w);
      case Probe(w) => ProbeQueue(s, w);
      case CountTake(w) => CountTakeQueue(s, w);
      case Complete(w, ok) => CompleteQueue(s, w, ok);
      case _ => OtherQueue(s, e);
    }
  }

  lemma PollQueue(s: System, w: nat)
    requires Shaped(s) && QueueLaw(s) && CanStep(s, Poll(w)) && Shaped(Step(s, Poll(w)))
    ensures QueueLaw(Step(s, Poll(w)))
  {
    hide TakenCount, RunningCount;
    WorkerUpdate(s.workers, w, Polling(0));
  }

  lemma ProbeQueue(s: System, w: nat)
    requires Shaped(s) && QueueLaw(s) && CanStep(s, Probe(w)) && Shaped(Step(s, Probe(w)))
    ensures QueueLaw(Step(s, Probe(w)))
  {
    hide TakenCount, RunningCount;
    WorkerUpdate(s.workers, w, Step(s, Probe(w)).workers[w]);
  }

  lemma CountTakeQueue(s: System, w: nat)
    requires Shaped(s) && QueueLaw(s) && CanStep(s, CountTake(w)) && Shaped(Step(s, CountTake(w)))
    ensures QueueLaw(Step(s, CountTake(w)))
  {
    hide TakenCount, RunningCount;
    WorkerUpdate(s.workers, w, Running(s.workers[w].id));
  }

  lemma CompleteQueue(s: System, w: nat, ok: bool)
    requires Shaped(s) && QueueLaw(s) && CanStep(s, Event.Complete(w, ok)) && Shaped(Step(s, Event.Complete(w, ok)))
    ensures QueueLaw(Step(s, Event.Complete(w, ok)))
  {
    hide TakenCount, RunningCount, Finished, Retries;
    WorkerUpdate(s.workers, w, Idle);
  }

  lemma OtherQueue(s: System, e: Event)
    requires Shaped(s) && QueueLaw(s) && CanStep(s, e) && Shaped(Step(s, e)) && Step(s, e).workers == s.workers
    ensures QueueLaw(Step(s, e))
  {
    hide TakenCount, RunningCount;
  }

  lemma StepSum(s: System, e: Event)
    requires Shaped(s) && SumLaw(s) && CanStep(s, e)
    ensures SumLaw(Step(s, e))
  {
  }

  lemma Grow(ids: set<JobId>, id: JobId)
    ensures id !in ids ==> |ids + {id}| == |ids| + 1
    ensures id in ids ==> |ids - {id}| == |ids| - 1
  {
  }

  lemma Transfer(from: set<JobId>, into: set<JobId>, id: JobId)
    requires id in from && id !in into
    ensures |from - {id}| + |into + {id}| == |from| + |into|
  {
  }

  lemma CompleteOutcome(s: System, w: nat, ok: bool)
    requires Shaped(s) && OutcomeLaw(s) && CanStep(s, Event.Complete(w, ok))
    requires Parked(s, s.workers[w].id) == 0
    ensures OutcomeLaw(Step(s, Event.Complete(w, ok)))
  {
    var id := s.workers[w].id;
    assert id in s.q.jobs;
    assert id !in s.waiting && id !in s.done && id !in s.dead;
    hide Shaped, Parked, Finished, Retries, WellFormed, CanStep;
    Grow(if Retries(s.q.jobs[id], ok) then s.waiting else if ok then s.done else s.dead, id);
  }

  lemma WakeOutcome(s: System, id: JobId)
    requires Shaped(s) && OutcomeLaw(s) && CanStep(s, Wake(id)) && Parked(s, id) == 1
    ensures OutcomeLaw(Step(s, Wake(id)))
  {
    assert id in s.waiting && id !in s.resuming && id !in s.abandoned;
    hide Shaped, Parked, CanStep, WellFormed;
    Transfer(s.waiting, if s.q.down then s.abandoned else s.resuming, id);
  }

  lemma ResendOutcome(s: System, id: JobId)
    requires Shaped(s) && OutcomeLaw(s) && CanStep(s, Resend(id)) && Parked(s, id) == 1
    ensures OutcomeLaw(Step(s, Resend(id)))
  {
    assert id in s.resuming && id !in s.dead && id in s.q.jobs && s.q.jobs[id].priority < LEVELS;
    assert |s.q.levels| == LEVELS;
    hide Shaped, Parked, CanStep, HasRoom, WellFormed;
    Grow(s.resuming, id);
    Grow(s.dead, id);
  }

  lemma OtherOutcome(s: System, e: Event)
    requires Shaped(s) && OutcomeLaw(s) && CanStep(s, e) && !e.Complete? && !e.Wake? && !e.Resend?
    ensures OutcomeLaw(Step(s, e))
  {
    hide Shaped;
  }

  lemma StepOutcome(s: System, e: Event)
    requires Inv(s) && OutcomeLaw(s) && CanStep(s, e)
    ensures OutcomeLaw(Step(s, e))
  {
    match e {
      case Complete(w, ok) =>
        NotParked(s, w);
        hide Conserved, Fifo, Step, OutcomeLaw, Parked;
        CompleteOutcome(s, w, ok);
      case Wake(id) =>
        ParkedOnce(s, id);
        hide Conserved, Fifo, Step, OutcomeLaw, Parked;
        WakeOutcome(s, id);
      case Resend(id) =>
        ParkedOnce(s, id);
        hide Conserved, Fifo, Step, OutcomeLaw, Parked;
        ResendOutcome(s, id);
      case _ =>
        OtherOutcome(s, e);
    }
  }

  lemma StepCounters(s: System, e: Event)
    requires Inv(s) && Counters(s) && CanStep(s, e)
    ensures Inv(Step(s, e)) && Counters(Step(s, e))
  {
    StepInv(s, e);
    hide Step, CanStep, TotalLaw, PriorityLaw, QueueLaw, OutcomeLaw, SumLaw;
    StepTotal(s, e);
    StepPriority(s, e);
    StepQueue(s, e);
    StepSum(s, e);
    StepOutcome(s, e);
  }

  /** The counter laws hold after every run. */
  lemma {:induction false} RunCounters(s: System, events: seq<Event>, s': System)
    requires Inv(s) && Counters(s) && Run(s, events, s')
    ensures Inv(s') && Counters(s')
    decreases |events|
  {
    if events != [] {
      StepCounters(s, events[0]);
      hide Inv, Counters, Step;
      RunCounters(Step(s, events[0]), events[1..], s');
    }
  }

  lemma {:induction false} NobodyBusy(workers: nat)
    ensures TakenCount(seq(workers, _ => Idle)) == RunningCount(seq(workers, _ => Idle)) == 0
  {
    var ws := seq(workers, _ => Idle);
    if workers > 0 {
      assert ws[..workers - 1] == seq(workers - 1, _ => Idle);
      NobodyBusy(workers - 1);
    }
  }

  /** From an empty engine: every counter law, and never more jobs in processing than workers. */
  lemma CounterLaws(size: nat, maxRetries: int, workers: nat, events: seq<Event>, s: System)
    requires Run(Start(size, maxRetries, workers), events, s)
    ensures Inv(s) && Counters(s)
    ensures s.q.stats.processing <= |s.workers|
  {
    StartInv(size, maxRetries, workers);
    NobodyBusy(workers);
    hide Run, Inv;
    RunCounters(Start(size, maxRetries, workers), events, s);
  }

  /** No counter update is outstanding. */
  ghost predicate Quiescent(s: System)
    requires Shaped(s)
  {
    Late(s) == 0 && s.lateRetries == 0 && TakenCount(s.workers) == 0
  }

  /** `PendingJobs`, from which the queue utilisation is computed, is the number of queued jobs
      exactly as long as no retry has ever been put back into the queue. */
  lemma PendingIsQueueLengthIff(s: System)
    requires Shaped(s) && Counters(s) && Quiescent(s)
    ensures s.q.stats.pending == Length4(s.q.levels) <==> s.requeues == 0
    ensures s.q.stats.pending == Length4(s.q.levels) - s.requeues
  {
  }

  /** `FailedJobs` is the number of jobs that finally failed exactly as long as nothing was retried. */
  lemma FailedIsDeadIff(s: System)
    requires Shaped(s) && Counters(s)
    ensures s.q.stats.failed == |s.dead| <==> s.retries == 0
  {
  }
}
