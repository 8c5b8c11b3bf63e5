/** Runs of the engine, with one worker and one job, that show how its retries end
    (internal/async/queue.go:298-407, internal/async/priority_worker_pool.go:387-457). */
module RetryRuns {
  import opened Common
  import opened JobCounters
  import opened JobEngine
  import opened JobQueues
  import opened RetryBudget

  const EMPTY: seq<seq<JobId>> := [[], [], [], []]
  const ONE_CRITICAL: seq<seq<JobId>> := [[], [], [], [0]]

  /** The single worker, the levels, the single job, and how often it has been retried. */
  ghost predicate At(s: System, worker: Worker, levels: seq<seq<JobId>>, job: Job, retries: nat) {
    && s.workers == [worker] && s.q.levels == levels
    && |s.q.caps| == LEVELS && s.q.caps[CRITICAL] >= 1
    && s.q.jobs == map[0 := job] && job.priority == CRITICAL && job.maxRetries == s.maxRetries
    && s.retries == retries
  }

  lemma SubmitAt(size: nat, maxRetries: int)
    requires size >= 8
    ensures var s := Start(size, maxRetries, 1);
            && CanStep(s, Submit(0, CRITICAL)) && !Step(s, Submit(0, CRITICAL)).q.down
            && At(Step(s, Submit(0, CRITICAL)), Idle, ONE_CRITICAL, NewJob(CRITICAL, maxRetries, false), 0)
  {
    StartInv(size, maxRetries, 1);
    hide Conserved, Fifo;
    var s' := Step(Start(size, maxRetries, 1), Submit(0, CRITICAL));
    assert s'.q.levels[CRITICAL] == [0];
  }

  lemma PollAt(s: System, levels: seq<seq<JobId>>, job: Job, retries: nat)
    requires Inv(s) && At(s, Idle, levels, job, retries) && !s.q.down
    ensures CanStep(s, Poll(0)) && At(Step(s, Poll(0)), Polling(0), levels, job, retries) && !Step(s, Poll(0)).q.down
  {
    hide Conserved, Fifo;
  }

  lemma ProbeAt(s: System, job: Job, retries: nat)
    requires Inv(s) && At(s, Polling(0), ONE_CRITICAL, job, retries)
    ensures CanStep(s, Probe(0)) && Step(s, Probe(0)).q.down == s.q.down
    ensures At(Step(s, Probe(0)), Taken(0), EMPTY, job.(status := Processing), retries)
  {
    hide Conserved, Fifo;
    assert ProbedLevel(s.workers[0]) == CRITICAL;
    assert s.q.levels[CRITICAL][1..] == [];
  }

  lemma CountTakeAt(s: System, job: Job, retries: nat)
    requires Inv(s) && At(s, Taken(0), EMPTY, job, retries)
    ensures CanStep(s, CountTake(0)) && Step(s, CountTake(0)).q.down == s.q.down
    ensures At(Step(s, CountTake(0)), Running(0), EMPTY, job, retries)
  {
    hide Conserved, Fifo;
  }

  lemma FailAt(s: System, job: Job, retries: nat)
    requires Inv(s) && At(s, Running(0), EMPTY, job, retries)
    ensures var e := Event.Complete(0, false);
            && CanStep(s, e) && Step(s, e).q.down == s.q.down
            && At(Step(s, e), Idle, EMPTY, Finished(job, false), retries + Bit(Retries(job, false)))
            && (if Retries(job, false) then 0 in Step(s, e).waiting else 0 in Step(s, e).dead)
  {
    hide Conserved, Fifo;
  }

  lemma DeadlineAt(s: System, levels: seq<seq<JobId>>, job: Job, retries: nat)
    requires Inv(s) && At(s, Idle, levels, job, retries) && job.ctx == Active
    ensures CanStep(s, Deadline(0)) && Step(s, Deadline(0)).q.down == s.q.down
    ensures At(Step(s, Deadline(0)), Idle, levels, job.(ctx := DeadlineExceeded), retries)
  {
    hide Conserved, Fifo;
  }

  lemma ShutdownAt(s: System, job: Job, retries: nat)
    requires Inv(s) && At(s, Running(0), EMPTY, job, retries) && !s.q.down
    ensures CanStep(s, Shutdown)
    ensures At(Step(s, Shutdown), Running(0), EMPTY, job.(ctx := CancelContext(job.ctx)), retries)
  {
    hide Conserved, Fifo;
  }

  lemma WakeAt(s: System, job: Job, retries: nat)
    requires Inv(s) && At(s, Idle, EMPTY, job, retries) && 0 in s.waiting && !s.q.down
    ensures CanStep(s, Wake(0)) && !Step(s, Wake(0)).q.down
    ensures At(Step(s, Wake(0)), Idle, EMPTY, job, retries) && 0 in Step(s, Wake(0)).resuming
  {
    hide Conserved, Fifo;
  }

  lemma ResendAt(s: System, job: Job, retries: nat)
    requires Inv(s) && At(s, Idle, EMPTY, job, retries) && 0 in s.resuming && !s.q.down
    ensures CanStep(s, Resend(0)) && !Step(s, Resend(0)).q.down
    ensures At(Step(s, Resend(0)), Idle, ONE_CRITICAL, job, retries)
  {
    hide Conserved, Fifo;
    assert s.q.levels[CRITICAL] + [0] == [0];
    assert s.q.jobs[0 := s.q.jobs[0]] == s.q.jobs;
  }

  /** The queued job is taken and counted. */
  lemma Taking(s0: System, es: seq<Event>, s: System, job: Job, retries: nat) returns (es': seq<Event>, s': System)
    requires Inv(s) && Run(s0, es, s) && At(s, Idle, ONE_CRITICAL, job, retries) && !s.q.down
    ensures Inv(s') && Run(s0, es', s') && !s'.q.down
    ensures At(s', Running(0), EMPTY, job.(status := Processing), retries)
  {
    hide Inv, Run, At, CanStep, Step;
    PollAt(s, ONE_CRITICAL, job, retries);
    es', s' := Then(s0, es, s, Poll(0));
    ProbeAt(s', job, retries);
    es', s' := Then(s0, es', s', Probe(0));
    CountTakeAt(s', job.(status := Processing), retries);
    es', s' := Then(s0, es', s', CountTake(0));
  }

  /** It is tried and fails, and its retry, if there is one, is put back. */
  lemma Failing(s0: System, es: seq<Event>, s: System, job: Job, retries: nat) returns (es': seq<Event>, s': System)
    requires Inv(s) && Run(s0, es, s) && At(s, Idle, ONE_CRITICAL, job, retries) && !s.q.down
    ensures Inv(s') && Run(s0, es', s') && !s'.q.down
    ensures var tried := job.(status := Processing);
            if Retries(job, false) then At(s', Idle, ONE_CRITICAL, Finished(tried, false), retries + 1)
            else At(s', Idle, EMPTY, Finished(tried, false), retries) && 0 in s'.dead
  {
    hide Inv, Run, At, CanStep, Step, Finished;
    var tried := job.(status := Processing);
    es', s' := Taking(s0, es, s, job, retries);
    FailAt(s', tried, retries);
    es', s' := Then(s0, es', s', Event.Complete(0, false));
    if Retries(job, false) {
      WakeAt(s', Finished(tried, false), retries + 1);
      es', s' := Then(s0, es', s', Wake(0));
      ResendAt(s', Finished(tried, false), retries + 1);
      es', s' := Then(s0, es', s', Resend(0));
    }
  }

  lemma Submitted(size: nat, maxRetries: int) returns (es: seq<Event>, s: System)
    requires size >= 8
    ensures Inv(s) && Run(Start(size, maxRetries, 1), es, s) && !s.q.down
    ensures At(s, Idle, ONE_CRITICAL, NewJob(CRITICAL, maxRetries, false), 0)
  {
    var s0 := Start(size, maxRetries, 1);
    StartInv(size, maxRetries, 1);
    assert Run(s0, [], s0);
    SubmitAt(size, maxRetries);
    hide Inv, Run, At, CanStep, Step, Start;
    es, s := Then(s0, [], s0, Submit(0, CRITICAL));
  }

  /** However many retries are configured, a job whose context is alive when it is first tried can
      end after two tries: the first completion cancels the context. Its first attempt is
      numbered two, and its retry counts as a failure. */
  lemma DiesAfterTwoTries(size: nat, maxRetries: int) returns (es: seq<Event>, s: System)
    requires size >= 8 && maxRetries >= 1
    ensures Run(Start(size, maxRetries, 1), es, s) && 0 in s.q.jobs && EndsWithTry(s, 0)
    ensures |s.q.jobs[0].attempts| == 2 && s.q.jobs[0].ctx == Canceled && s.q.jobs[0].attempts[0].number == 2
    ensures s.q.stats.failed == |s.dead| + 1
  {
    var s0 := Start(size, maxRetries, 1);
    var job := NewJob(CRITICAL, maxRetries, false);
    es, s := Submitted(size, maxRetries);
    hide Inv, Run, Start, At;
    es, s := Failing(s0, es, s, job, 0);
    var retried := Finished(job.(status := Processing), false);
    assert retried.ctx == Canceled && retried.retryCount == 1 && retried.attempts == [Attempt(2, false)];
    es, s := Failing(s0, es, s, retried, 1);
    var dead := Finished(retried.(status := Processing), false);
    assert dead.ctx == Canceled && dead.retryCount == 1 && dead.attempts == retried.attempts + [Attempt(2, false)];
    hide Finished;
    AtHas(s, EMPTY, dead, 1);
    FailedExceedsDead(size, maxRetries, es, s);
  }

  lemma AtHas(s: System, levels: seq<seq<JobId>>, job: Job, retries: nat)
    requires At(s, Idle, levels, job, retries)
    ensures 0 in s.q.jobs && s.q.jobs[0] == job && s.retries == retries
  {
  }

  lemma FailedExceedsDead(size: nat, maxRetries: int, es: seq<Event>, s: System)
    requires Run(Start(size, maxRetries, 1), es, s)
    ensures s.q.stats.failed == |s.dead| + s.retries
  {
    CounterLaws(size, maxRetries, 1, es, s);
    hide Run, Inv, TotalLaw, PriorityLaw, QueueLaw, SumLaw;
  }

  /** A shutdown during the first try leaves it at that. */
  lemma DiesAfterOneTry(size: nat, maxRetries: int) returns (es: seq<Event>, s: System)
    requires size >= 8
    ensures Run(Start(size, maxRetries, 1), es, s) && 0 in s.q.jobs && EndsWithTry(s, 0)
    ensures |s.q.jobs[0].attempts| == 1 && s.q.jobs[0].ctx == Canceled
  {
    var s0 := Start(size, maxRetries, 1);
    var job := NewJob(CRITICAL, maxRetries, false);
    es, s := Submitted(size, maxRetries);
    hide Inv, Run, Start, CanStep, Step, At;
    es, s := Taking(s0, es, s, job, 0);
    es, s := ShutDownWhileTrying(s0, es, s, job.(status := Processing));
  }

  lemma ShutDownWhileTrying(s0: System, es: seq<Event>, s: System, job: Job) returns (es': seq<Event>, s': System)
    requires Inv(s) && Run(s0, es, s) && At(s, Running(0), EMPTY, job, 0) && !s.q.down
    requires job.ctx == Active && job.retryCount == 0 && job.attempts == []
    ensures Run(s0, es', s') && 0 in s'.q.jobs && EndsWithTry(s', 0)
    ensures |s'.q.jobs[0].attempts| == 1 && s'.q.jobs[0].ctx == Canceled
  {
    var dead := Finished(job.(ctx := Canceled), false);
    assert !Retries(job.(ctx := Canceled), false);
    assert |dead.attempts| == 1 && dead.ctx == Canceled && dead.retryCount == 0;
    hide Inv, Run, CanStep, Step, At, Finished, Retries;
    ShutdownAt(s, job, 0);
    es', s' := Then(s0, es, s, Shutdown);
    FailAt(s', job.(ctx := Canceled), 0);
    es', s' := Then(s0, es', s', Event.Complete(0, false));
    AtHas(s', EMPTY, dead, 0);
  }

  /** The job after `k` failed tries past its deadline. */
  ghost predicate Overdue(job: Job, maxRetries: int, k: nat) {
    && job.priority == CRITICAL && job.maxRetries == maxRetries && job.ctx == DeadlineExceeded
    && job.retryCount == k && |job.attempts| == k
  }

  lemma {:induction false} KeepsTrying(size: nat, maxRetries: nat, k: nat) returns (es: seq<Event>, s: System, job: Job)
    requires size >= 8 && k <= maxRetries
    ensures Inv(s) && Run(Start(size, maxRetries, 1), es, s) && !s.q.down
    ensures At(s, Idle, ONE_CRITICAL, job, k) && Overdue(job, maxRetries, k)
  {
    var s0 := Start(size, maxRetries, 1);
    if k == 0 {
      es, s := Submitted(size, maxRetries);
      hide Inv, Run, Start, CanStep, Step, At;
      var untried := NewJob(CRITICAL, maxRetries, false);
      DeadlineAt(s, ONE_CRITICAL, untried, 0);
      es, s := Then(s0, es, s, Deadline(0));
      job := untried.(ctx := DeadlineExceeded);
    } else {
      es, s, job := KeepsTrying(size, maxRetries, k - 1);
      hide Inv, Run, Start, At;
      es, s := Failing(s0, es, s, job, k - 1);
      job := Finished(job.(status := Processing), false);
    }
  }

  /** A job whose deadline passes before its first try gets all of its tries. */
  lemma UsesItsBudgetUp(size: nat, maxRetries: nat) returns (es: seq<Event>, s: System)
    requires size >= 8
    ensures Run(Start(size, maxRetries, 1), es, s) && 0 in s.q.jobs && EndsWithTry(s, 0)
    ensures |s.q.jobs[0].attempts| == maxRetries + 1 && s.q.jobs[0].ctx == DeadlineExceeded
  {
    var job;
    es, s, job := KeepsTrying(size, maxRetries, maxRetries);
    hide Inv, Run, Start, At;
    es, s := Failing(Start(size, maxRetries, 1), es, s, job, maxRetries);
    AtHas(s, EMPTY, Finished(job.(status := Processing), false), maxRetries);
  }
}
