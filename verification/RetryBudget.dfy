/** How often a job is tried: over every run of the engine a job stays within its retry budget,
    its context usually ends it much sooner, and without new submissions the engine comes to
    rest (internal/async/queue.go:297-407). */
module RetryBudget {
  import opened Common
  import opened JobQueues
  import opened JobEngine

  // The life of a job ---------------------------------------------------------------------------------------

  /** - The retry count stays within the configured maximum.
      - A job has been tried once per retry, and at most once more.
      - While its context is alive it has not been tried, and unless the deadline ended its
        context it is retried at most once.
      - The attempt record numbers the tries that were retried from two on, and the last one
        by its position. */
  ghost predicate Life(job: Job, maxRetries: int) {
    && job.maxRetries == maxRetries
    && job.retryCount <= NonNegative(maxRetries)
    && job.retryCount <= |job.attempts| <= job.retryCount + 1
    && (job.ctx == Active ==> job.attempts == [])
    && (job.ctx != DeadlineExceeded ==> job.retryCount <= 1)
    && forall i :: 0 <= i < |job.attempts| ==>
         job.attempts[i].number == (if i < job.retryCount then i + 2 else i + 1)
           && (i < job.retryCount ==> !job.attempts[i].ok)
  }

  /** Only a job at its end has had a try beyond its retries. */
  ghost predicate Lives(s: System) {
    forall id :: id in s.q.jobs ==>
      && Life(s.q.jobs[id], s.maxRetries)
      && (id !in s.done + s.dead ==> |s.q.jobs[id].attempts| == s.q.jobs[id].retryCount)
  }

  lemma FinishedLife(job: Job, ok: bool, maxRetries: int)
    requires Life(job, maxRetries) && |job.attempts| == job.retryCount
    ensures var job' := Finished(job, ok);
            Life(job', maxRetries) && (Retries(job, ok) ==> |job'.attempts| == job'.retryCount)
  {
  }

  /** What a step does to a job the queue already knows: only a completion, the deadline and the
      shutdown change more than its status. */
  function JobAfter(s: System, e: Event, id: JobId): Job
    requires id in s.q.jobs
  {
    var job := s.q.jobs[id];
    if e.Complete? && e.w < |s.workers| && Holds(s.workers[e.w], id) then Finished(job, e.ok)
    else if e.Deadline? && e.id == id then job.(ctx := DeadlineExceeded)
    else if e.Shutdown? then job.(ctx := CancelContext(job.ctx))
    else job
  }

  lemma StepJob(s: System, e: Event, id: JobId)
    requires Shaped(s) && CanStep(s, e) && id in s.q.jobs
    ensures Step(s, e).maxRetries == s.maxRetries
    ensures id in Step(s, e).q.jobs
    ensures var job, job' := JobAfter(s, e, id), Step(s, e).q.jobs[id]; job' == job.(status := job'.status)
  {
    hide Finished;
  }

  lemma StepEnds(s: System, e: Event, id: JobId)
    requires Shaped(s) && CanStep(s, e) && id in s.done + s.dead
    ensures id in Step(s, e).done + Step(s, e).dead
  {
    hide Finished;
  }

  /** A completion that is not retried is an end. */
  lemma CompletionEnds(s: System, w: nat, ok: bool)
    requires Shaped(s) && CanStep(s, Event.Complete(w, ok)) && !Retries(s.q.jobs[s.workers[w].id], ok)
    ensures var s' := Step(s, Event.Complete(w, ok)); s.workers[w].id in s'.done + s'.dead
  {
  }

  lemma StepLife(s: System, e: Event, id: JobId)
    requires Inv(s) && Lives(s) && CanStep(s, e) && id in s.q.jobs
    ensures var s' := Step(s, e);
            && id in s'.q.jobs && Life(s'.q.jobs[id], s'.maxRetries)
            && (id !in s'.done + s'.dead ==> |s'.q.jobs[id].attempts| == s'.q.jobs[id].retryCount)
  {
    StepJob(s, e, id);
    if id in s.done + s.dead { StepEnds(s, e, id); }
    if e.Complete? && s.workers[e.w].id == id {
      NotParked(s, e.w);
      assert id !in s.done + s.dead;
      FinishedLife(s.q.jobs[id], e.ok, s.maxRetries);
      if !Retries(s.q.jobs[id], e.ok) { CompletionEnds(s, e.w, e.ok); }
    }
    hide Step, Inv, Finished, Retries;
  }

  lemma StepLives(s: System, e: Event)
    requires Inv(s) && Lives(s) && CanStep(s, e)
    ensures Lives(Step(s, e))
  {
    forall id | id in Step(s, e).q.jobs
      ensures var s' := Step(s, e);
              && Life(s'.q.jobs[id], s'.maxRetries)
              && (id !in s'.done + s'.dead ==> |s'.q.jobs[id].attempts| == s'.q.jobs[id].retryCount)
    {
      if id in s.q.jobs { StepLife(s, e, id); } else { NewLife(s, e, id); }
    }
  }

  lemma NewLife(s: System, e: Event, id: JobId)
    requires Shaped(s) && CanStep(s, e) && id in Step(s, e).q.jobs && id !in s.q.jobs
    ensures Step(s, e).q.jobs[id] == NewJob(e.p, s.maxRetries, s.q.down) && Step(s, e).maxRetries == s.maxRetries
  {
    hide Finished;
  }

  lemma SameMaxRetries(s: System, e: Event)
    requires Shaped(s) && CanStep(s, e)
    ensures Step(s, e).maxRetries == s.maxRetries
  {
  }

  lemma {:induction false} RunLives(s: System, events: seq<Event>, s': System)
    requires Inv(s) && Lives(s) && Run(s, events, s')
    ensures Inv(s') && Lives(s') && s'.maxRetries == s.maxRetries
    decreases |events|
  {
    if events != [] {
      StepLives(s, events[0]);
      StepInv(s, events[0]);
      SameMaxRetries(s, events[0]);
      hide Inv, Lives, Step;
      RunLives(Step(s, events[0]), events[1..], s');
    }
  }

  /** Executions per job: at most `maxRetries + 1`, and at most two unless the job's deadline
      had passed before its first try was over. */
  lemma ExecutionBound(size: nat, maxRetries: int, workers: nat, events: seq<Event>, s: System, id: JobId)
    requires Run(Start(size, maxRetries, workers), events, s) && id in s.q.jobs
    ensures |s.q.jobs[id].attempts| <= NonNegative(maxRetries) + 1
    ensures s.q.jobs[id].ctx != DeadlineExceeded ==> |s.q.jobs[id].attempts| <= 2
  {
    StartInv(size, maxRetries, workers);
    RunLives(Start(size, maxRetries, workers), events, s);
  }

  /** Did a job end with a failed try, and not with a retry that found its level full? */
  predicate EndsWithTry(s: System, id: JobId)
    requires id in s.q.jobs
  {
    id in s.dead && |s.q.jobs[id].attempts| == s.q.jobs[id].retryCount + 1
  }

  /** A job whose last try failed has a dead context; one that the deadline ended has used up
      its retries. */
  ghost predicate Ends(s: System, id: JobId)
    requires id in s.q.jobs
  {
    var job := s.q.jobs[id];
    EndsWithTry(s, id) ==> job.ctx != Active && (job.ctx == DeadlineExceeded ==> job.retryCount >= s.maxRetries)
  }

  ghost predicate AllEnd(s: System) {
    forall id :: id in s.q.jobs ==> Ends(s, id)
  }

  lemma DeadStay(s: System, e: Event, id: JobId)
    requires Inv(s) && CanStep(s, e) && id in s.q.jobs && id in s.dead && Ends(s, id)
    ensures id in Step(s, e).q.jobs && Ends(Step(s, e), id)
  {
    StepJob(s, e, id);
    if e.Complete? { NotParked(s, e.w); }
    hide Step, Inv, Finished;
  }

  lemma CompletionKills(s: System, w: nat, ok: bool)
    requires Inv(s) && Lives(s) && CanStep(s, Event.Complete(w, ok)) && s.workers[w].id !in s.dead
    ensures Ends(Step(s, Event.Complete(w, ok)), s.workers[w].id)
  {
    var id := s.workers[w].id;
    NotParked(s, w);
    assert Life(s.q.jobs[id], s.maxRetries);
    hide Inv;
  }

  lemma OthersDie(s: System, e: Event, id: JobId)
    requires Inv(s) && CanStep(s, e) && id in s.q.jobs && id !in s.dead && id in Step(s, e).dead
    requires !(e.Complete? && s.workers[e.w].id == id)
    ensures e == Resend(id) && id !in s.done
  {
    hide Finished, Conserved, Fifo;
    assert e == Resend(id);
    ParkedOnce(s, id);
  }

  lemma StepEndsJob(s: System, e: Event, id: JobId)
    requires Inv(s) && Lives(s) && CanStep(s, e) && id in s.q.jobs && Ends(s, id)
    ensures id in Step(s, e).q.jobs && Ends(Step(s, e), id)
  {
    StepJob(s, e, id);
    if id in s.dead {
      DeadStay(s, e, id);
    } else if e.Complete? && s.workers[e.w].id == id {
      CompletionKills(s, e.w, e.ok);
    } else if id in Step(s, e).dead {
      OthersDie(s, e, id);
      hide Step, Inv;
      assert |s.q.jobs[id].attempts| == s.q.jobs[id].retryCount;
    }
  }

  lemma StepAllEnd(s: System, e: Event)
    requires Inv(s) && Lives(s) && AllEnd(s) && CanStep(s, e)
    ensures AllEnd(Step(s, e))
  {
    forall id | id in Step(s, e).q.jobs ensures Ends(Step(s, e), id) {
      hide Step, Inv, Lives;
      if id in s.q.jobs { StepEndsJob(s, e, id); } else { NewJobLives(s, e, id); }
    }
  }

  lemma NewJobLives(s: System, e: Event, id: JobId)
    requires Inv(s) && CanStep(s, e) && id in Step(s, e).q.jobs && id !in s.q.jobs
    ensures Ends(Step(s, e), id)
  {
    NewLife(s, e, id);
    hide Step, Inv;
  }

  lemma {:induction false} RunAllEnd(s: System, events: seq<Event>, s': System)
    requires Inv(s) && Lives(s) && AllEnd(s) && Run(s, events, s')
    ensures AllEnd(s')
    decreases |events|
  {
    if events != [] {
      StepAllEnd(s, events[0]);
      StepLives(s, events[0]);
      StepInv(s, events[0]);
      hide Inv, Lives, AllEnd, Step;
      RunAllEnd(Step(s, events[0]), events[1..], s');
    }
  }

  /** A failed first try of the job is completed and finds its context already cancelled. */
  ghost predicate FindsCanceled(s: System, e: Event, id: JobId)
    requires Shaped(s) && CanStep(s, e)
  {
    && e.Complete? && !e.ok && s.workers[e.w].id == id
    && s.q.jobs[id].attempts == [] && s.q.jobs[id].ctx == Canceled
  }

  /** That happens at some point of a run. */
  ghost predicate FoundCanceled(s: System, events: seq<Event>, id: JobId)
    decreases |events|
  {
    && events != [] && Shaped(s) && CanStep(s, events[0])
    && (FindsCanceled(s, events[0], id) || FoundCanceled(Step(s, events[0]), events[1..], id))
  }

  /** Tries and retries are only ever added, and none to a job that is dead. */
  lemma StepAddsTries(s: System, e: Event, id: JobId)
    requires Inv(s) && CanStep(s, e) && id in s.q.jobs
    ensures id in Step(s, e).q.jobs
    ensures var job, job' := s.q.jobs[id], Step(s, e).q.jobs[id];
            && |job.attempts| <= |job'.attempts| && job.retryCount <= job'.retryCount
            && (id in s.dead ==>
                  job'.attempts == job.attempts && job'.retryCount == job.retryCount && id in Step(s, e).dead)
            && (id in s.done ==> id in Step(s, e).done)
  {
    StepJob(s, e, id);
    if e.Complete? { NotParked(s, e.w); }
    DeadAndDoneStay(s, e, id);
    hide Step, Inv;
  }

  lemma DeadAndDoneStay(s: System, e: Event, id: JobId)
    requires Shaped(s) && CanStep(s, e)
    ensures id in s.dead ==> id in Step(s, e).dead
    ensures id in s.done ==> id in Step(s, e).done
  {
    hide Finished, Retries;
  }

  lemma {:induction false} RunAddsTries(s: System, events: seq<Event>, s': System, id: JobId)
    requires Inv(s) && Run(s, events, s') && id in s.q.jobs
    ensures id in s'.q.jobs
    ensures var job, job' := s.q.jobs[id], s'.q.jobs[id];
            && |job.attempts| <= |job'.attempts| && job.retryCount <= job'.retryCount
            && (id in s.dead ==> job'.attempts == job.attempts)
            && (id in s.done ==> id in s'.done)
    ensures s.q.jobs[id].attempts != [] ==> !FoundCanceled(s, events, id)
    decreases |events|
  {
    if events != [] {
      StepAddsTries(s, events[0], id);
      StepInv(s, events[0]);
      hide Inv, Step;
      RunAddsTries(Step(s, events[0]), events[1..], s', id);
    }
  }

  lemma NeverBoth(s: System, id: JobId)
    requires Inv(s) && id in s.done
    ensures id !in s.dead
  {
    assert Places(s, id) <= 1;
  }

  /** The first completion of a failed try: it ends the job if it finds the context cancelled, and
      else it leads to a retry. */
  lemma FirstCompletion(s: System, w: nat, id: JobId)
    requires Inv(s) && Lives(s) && CanStep(s, Event.Complete(w, false)) && s.workers[w].id == id && s.maxRetries >= 1
    requires id in s.q.jobs && s.q.jobs[id].attempts == []
    ensures var s' := Step(s, Event.Complete(w, false));
            && id in s'.q.jobs && |s'.q.jobs[id].attempts| == 1
            && (s.q.jobs[id].ctx == Canceled ==> id in s'.dead)
            && (s.q.jobs[id].ctx != Canceled ==> s'.q.jobs[id].retryCount == 1)
  {
    assert Life(s.q.jobs[id], s.maxRetries);
    hide Inv;
  }

  /** With at least one retry, a job that ends with a failed try has had no other exactly if that
      one found its context cancelled. */
  lemma {:induction false} SingleTryIff(s: System, events: seq<Event>, s': System, id: JobId)
    requires Inv(s) && Lives(s) && Run(s, events, s') && s.maxRetries >= 1
    requires id in s.q.jobs ==> s.q.jobs[id].attempts == []
    requires id in s'.q.jobs && EndsWithTry(s', id)
    ensures |s'.q.jobs[id].attempts| == 1 <==> FoundCanceled(s, events, id)
    decreases |events|
  {
    if events != [] {
      var e, t := events[0], Step(s, events[0]);
      StepInv(s, e);
      StepLives(s, e);
      SameMaxRetries(s, e);
      if e.Complete? && s.workers[e.w].id == id {
        CompletionDecides(s, events, s', id);
      } else {
        StaysUntried(s, e, id);
        hide Inv, Lives, Step, EndsWithTry;
        SingleTryIff(t, events[1..], s', id);
      }
    }
  }

  lemma CompletionDecides(s: System, events: seq<Event>, s': System, id: JobId)
    requires Inv(s) && Lives(s) && Run(s, events, s') && s.maxRetries >= 1 && events != []
    requires var e := events[0]; CanStep(s, e) && e.Complete? && s.workers[e.w].id == id
    requires id in s.q.jobs && s.q.jobs[id].attempts == [] && id in s'.q.jobs && EndsWithTry(s', id)
    requires Inv(Step(s, events[0]))
    ensures |s'.q.jobs[id].attempts| == 1 <==> FoundCanceled(s, events, id)
  {
    var e, t := events[0], Step(s, events[0]);
    StepJob(s, e, id);
    RunAddsTries(t, events[1..], s', id);
    if e.ok {
      CompletionSucceeds(s, e.w, id);
      RunInv(t, events[1..], s');
      NeverBoth(s', id);
    } else {
      FirstCompletion(s, e.w, id);
    }
    hide Inv, Lives, Step;
  }

  lemma CompletionSucceeds(s: System, w: nat, id: JobId)
    requires Shaped(s) && CanStep(s, Event.Complete(w, true)) && s.workers[w].id == id
    ensures id in Step(s, Event.Complete(w, true)).done
  {
  }

  lemma StaysUntried(s: System, e: Event, id: JobId)
    requires Inv(s) && Lives(s) && CanStep(s, e) && !(e.Complete? && s.workers[e.w].id == id)
    requires id in s.q.jobs ==> s.q.jobs[id].attempts == []
    ensures var t := Step(s, e); id in t.q.jobs ==> t.q.jobs[id].attempts == []
  {
    if id in s.q.jobs { StepJob(s, e, id); } else if id in Step(s, e).q.jobs { NewLife(s, e, id); }
    hide Step, Inv, Lives;
  }

  /** When the configured budget is used up: with two retries or more, a job that ends with a
      failed try has had all its tries exactly if its deadline had ended its context before the
      first of them was over; with one retry, exactly if its first try did not find the context
      cancelled. Without retries the one try there is uses the budget up. */
  lemma BudgetIsUsedUpIff(size: nat, maxRetries: int, workers: nat, events: seq<Event>, s: System, id: JobId)
    requires Run(Start(size, maxRetries, workers), events, s) && id in s.q.jobs && EndsWithTry(s, id)
    ensures maxRetries >= 2 ==> (|s.q.jobs[id].attempts| == maxRetries + 1 <==> s.q.jobs[id].ctx == DeadlineExceeded)
    ensures maxRetries == 1 ==>
              (|s.q.jobs[id].attempts| == 2 <==> !FoundCanceled(Start(size, maxRetries, workers), events, id))
    ensures maxRetries <= 0 ==> |s.q.jobs[id].attempts| == 1
  {
    StartInv(size, maxRetries, workers);
    RunLives(Start(size, maxRetries, workers), events, s);
    RunAllEnd(Start(size, maxRetries, workers), events, s);
    assert Ends(s, id) && Life(s.q.jobs[id], maxRetries);
    if maxRetries == 1 { SingleTryIff(Start(size, maxRetries, workers), events, s, id); }
  }

  /** The first completion settles the context for good. */
  lemma ContextIsSettled(s: System, e: Event, id: JobId)
    requires Inv(s) && Lives(s) && CanStep(s, e) && id in s.q.jobs && s.q.jobs[id].attempts != []
    ensures id in Step(s, e).q.jobs && Step(s, e).q.jobs[id].ctx == s.q.jobs[id].ctx != Active
  {
    StepJob(s, e, id);
    hide Step, Inv;
  }

  /** The attempts are numbered 1, 2, 3, ... exactly when the job was never retried. */
  lemma AttemptsCountFromOneIff(job: Job, maxRetries: int)
    requires Life(job, maxRetries)
    ensures (forall i :: 0 <= i < |job.attempts| ==> job.attempts[i].number == i + 1) <==> job.retryCount == 0
  {
    if job.retryCount > 0 { assert job.attempts[0].number == 2; }
  }

  // Coming to rest ------------------------------------------------------------------------------------------

  /** How far a job still is from its end: its place in the cycle of one try, and the tries left. */
  function Rank(s: System, id: JobId): nat
    requires id in s.q.jobs
  {
    var tries := 6 * NonNegative(s.q.jobs[id].maxRetries - s.q.jobs[id].retryCount);
    if id in s.waiting then tries + 6
    else if id in s.resuming then tries + 5
    else if Queued(s.q.levels, id) > 0 then tries + 4
    else if Taken(id) in s.workers then tries + 3
    else if Running(id) in s.workers then tries + 2
    else 0
  }

  ghost function Total(ids: set<JobId>, rank: map<JobId, nat>): nat
    requires ids <= rank.Keys
    decreases ids
  {
    if ids == {} then 0 else var id :| id in ids; rank[id] + Total(ids - {id}, rank)
  }

  lemma {:induction false} TotalSplit(ids: set<JobId>, rank: map<JobId, nat>, x: JobId)
    requires ids <= rank.Keys && x in ids
    ensures Total(ids, rank) == rank[x] + Total(ids - {x}, rank)
    decreases ids
  {
    var id :| id in ids && Total(ids, rank) == rank[id] + Total(ids - {id}, rank);
    if id != x {
      TotalSplit(ids - {id}, rank, x);
      TotalSplit(ids - {x}, rank, id);
      assert ids - {id} - {x} == ids - {x} - {id};
    }
  }

  lemma {:induction false} TotalSame(ids: set<JobId>, rank: map<JobId, nat>, rank': map<JobId, nat>)
    requires ids <= rank.Keys && ids <= rank'.Keys && forall id :: id in ids ==> rank[id] == rank'[id]
    ensures Total(ids, rank) == Total(ids, rank')
    decreases ids
  {
    if ids != {} {
      var id :| id in ids && Total(ids, rank) == rank[id] + Total(ids - {id}, rank);
      TotalSame(ids - {id}, rank, rank');
      TotalSplit(ids, rank', id);
    }
  }

  lemma {:induction false} TotalBound(ids: set<JobId>, rank: map<JobId, nat>, bound: nat)
    requires ids <= rank.Keys && forall id :: id in ids ==> rank[id] <= bound
    ensures Total(ids, rank) <= bound * |ids|
    decreases ids
  {
    if ids != {} {
      var id :| id in ids && Total(ids, rank) == rank[id] + Total(ids - {id}, rank);
      TotalBound(ids - {id}, rank, bound);
      hide Total;
      var n := |ids - {id}|;
      assert |ids| == n + 1;
      assert bound * (n + 1) == bound * n + bound;
    }
  }

  ghost function Ranks(s: System): map<JobId, nat> {
    map id | id in s.q.jobs :: Rank(s, id)
  }

  ghost function Measure(s: System): nat {
    Total(s.q.jobs.Keys, Ranks(s))
  }

  /** The steps that move a job. */
  ghost predicate MovesJob(s: System, e: Event)
    requires Shaped(s) && CanStep(s, e)
  {
    Hit(s, e) || e.CountTake? || e.Complete? || e.Wake? || e.Resend?
  }

  ghost function Moved(s: System, e: Event): JobId
    requires Shaped(s) && CanStep(s, e) && MovesJob(s, e)
  {
    match e
    case Probe(w) => s.q.levels[ProbedLevel(s.workers[w])][0]
    case CountTake(w) => s.workers[w].id
    case Complete(w, _) => s.workers[w].id
    case Wake(id) => id
    case Resend(id) => id
  }

  lemma {:induction false} NotHeld(workers: seq<Worker>, id: JobId)
    ensures Held(workers, id) == 0 <==> Taken(id) !in workers && Running(id) !in workers
  {
    if workers != [] {
      var n := |workers| - 1;
      NotHeld(workers[..n], id);
      assert workers == workers[..n] + [workers[n]];
    }
  }

  ghost predicate SamePlace(s: System, s': System, id: JobId)
    requires id in s.q.jobs && id in s'.q.jobs
  {
    && s'.q.jobs[id].retryCount == s.q.jobs[id].retryCount && s'.q.jobs[id].maxRetries == s.q.jobs[id].maxRetries
    && (id in s'.waiting <==> id in s.waiting)
    && (id in s'.resuming <==> id in s.resuming)
    && Queued(s'.q.levels, id) == Queued(s.q.levels, id)
    && (Taken(id) in s'.workers <==> Taken(id) in s.workers)
    && (Running(id) in s'.workers <==> Running(id) in s.workers)
  }

  lemma OthersKeepQueue(s: System, e: Event, id: JobId)
    requires Inv(s) && CanStep(s, e) && !e.Submit? && (MovesJob(s, e) ==> id != Moved(s, e))
    ensures Queued(Step(s, e).q.levels, id) == Queued(s.q.levels, id)
  {
    hide Conserved, Fifo, Finished, Queued, Occurs;
    if Hit(s, e) {
      var p := ProbedLevel(s.workers[e.w]);
      QueuedUpdate(s.q.levels, p, s.q.levels[p][1..], id);
      OccursPop(s.q.levels[p], id);
    } else if e.Resend? {
      var p := s.q.jobs[e.id].priority;
      QueuedUpdate(s.q.levels, p, s.q.levels[p] + [e.id], id);
      OccursPush(s.q.levels[p], e.id, id);
    }
  }

  lemma OthersKeepWorkers(s: System, e: Event, id: JobId)
    requires Inv(s) && CanStep(s, e) && !e.Submit? && (MovesJob(s, e) ==> id != Moved(s, e))
    ensures Taken(id) in Step(s, e).workers <==> Taken(id) in s.workers
    ensures Running(id) in Step(s, e).workers <==> Running(id) in s.workers
  {
    hide Conserved, Fifo, Finished;
    if e.Poll? || e.Probe? || e.CountTake? || e.Complete? {
      SameWorkers(s.workers, e.w, Step(s, e).workers[e.w], id);
      assert Step(s, e).workers == s.workers[e.w := Step(s, e).workers[e.w]];
    }
  }

  lemma OthersKeepSets(s: System, e: Event, id: JobId)
    requires Inv(s) && CanStep(s, e) && (MovesJob(s, e) ==> id != Moved(s, e))
    ensures id in Step(s, e).waiting <==> id in s.waiting
    ensures id in Step(s, e).resuming <==> id in s.resuming
  {
    hide Conserved, Fifo, Finished;
  }

  /** A job that a step does not move keeps its rank. */
  lemma OthersKeepRank(s: System, e: Event, id: JobId)
    requires Inv(s) && CanStep(s, e) && !e.Submit? && id in s.q.jobs && (MovesJob(s, e) ==> id != Moved(s, e))
    ensures id in Step(s, e).q.jobs && Rank(Step(s, e), id) == Rank(s, id)
  {
    StepJob(s, e, id);
    OthersKeepQueue(s, e, id);
    OthersKeepWorkers(s, e, id);
    OthersKeepSets(s, e, id);
    hide Step, Inv, Queued;
    assert SamePlace(s, Step(s, e), id);
  }

  lemma SameWorkers(workers: seq<Worker>, w: nat, x: Worker, id: JobId)
    requires w < |workers| && !Holds(workers[w], id) && !Holds(x, id)
    ensures Taken(id) in workers[w := x] <==> Taken(id) in workers
    ensures Running(id) in workers[w := x] <==> Running(id) in workers
  {
    forall y: Worker | y in workers && y != workers[w] ensures y in workers[w := x] {
      var i :| 0 <= i < |workers| && workers[i] == y;
      assert workers[w := x][i] == y;
    }
  }

  // The moved job gets closer to its end ------------------------------------------------------------------------

  lemma QueuedRank(s: System, id: JobId)
    requires Conserved(s) && Queued(s.q.levels, id) > 0 && id in s.q.jobs
    ensures Rank(s, id) == 6 * NonNegative(s.q.jobs[id].maxRetries - s.q.jobs[id].retryCount) + 4
  {
    assert Places(s, id) == 1;
  }

  lemma WorkerRank(s: System, w: nat)
    requires Conserved(s) && w < |s.workers| && Holding(s.workers[w]) && s.workers[w].id in s.q.jobs
    ensures var id := s.workers[w].id;
            Rank(s, id) == 6 * NonNegative(s.q.jobs[id].maxRetries - s.q.jobs[id].retryCount)
                           + if s.workers[w].Taken? then 3 else 2
  {
    var id := s.workers[w].id;
    NotParked(s, w);
    assert s.workers[w] in s.workers;
    if s.workers[w].Running? && Taken(id) in s.workers {
      var v :| 0 <= v < |s.workers| && s.workers[v] == Taken(id);
      TwoHolders(s.workers, v, w, id);
    }
  }

  lemma {:induction false} TwoHolders(workers: seq<Worker>, v: nat, w: nat, id: JobId)
    requires v < |workers| && w < |workers| && v != w && Holds(workers[v], id) && Holds(workers[w], id)
    ensures Held(workers, id) >= 2
  {
    var n := |workers| - 1;
    if v < n && w < n {
      TwoHolders(workers[..n], v, w, id);
    } else {
      HeldBy(workers[..n], if v < n then v else w);
    }
  }

  lemma WaitingRank(s: System, id: JobId)
    requires id in s.q.jobs
    ensures id in s.waiting ==> Rank(s, id) == 6 * NonNegative(s.q.jobs[id].maxRetries - s.q.jobs[id].retryCount) + 6
    ensures id !in s.waiting && id in s.resuming ==>
            Rank(s, id) == 6 * NonNegative(s.q.jobs[id].maxRetries - s.q.jobs[id].retryCount) + 5
  {
  }

  lemma EndedRank(s: System, id: JobId)
    requires Conserved(s) && id in s.done + s.dead + s.abandoned && id in s.q.jobs
    ensures Rank(s, id) == 0
  {
    assert Places(s, id) == 1;
    NotHeld(s.workers, id);
  }

  lemma ProbeRank(s: System, e: Event)
    requires Inv(s) && CanStep(s, e) && Hit(s, e) && Inv(Step(s, e))
    ensures var id := Moved(s, e); id in s.q.jobs && id in Step(s, e).q.jobs && Rank(Step(s, e), id) < Rank(s, id)
  {
    var p := ProbedLevel(s.workers[e.w]);
    var id := Moved(s, e);
    assert id in s.q.levels[p];
    QueuedIn(s.q.levels, p, id);
    QueuedRank(s, id);
    WorkerRank(Step(s, e), e.w);
    hide Conserved, Fifo, Rank, Queued;
  }

  lemma CountTakeRank(s: System, w: nat)
    requires Inv(s) && CanStep(s, CountTake(w)) && Inv(Step(s, CountTake(w)))
    ensures var id := s.workers[w].id;
            && id in s.q.jobs && id in Step(s, CountTake(w)).q.jobs
            && Rank(Step(s, CountTake(w)), id) < Rank(s, id)
  {
    WorkerRank(s, w);
    WorkerRank(Step(s, CountTake(w)), w);
    hide Conserved, Fifo, Rank;
  }

  lemma CompleteRank(s: System, w: nat, ok: bool)
    requires Inv(s) && CanStep(s, Event.Complete(w, ok)) && Inv(Step(s, Event.Complete(w, ok)))
    ensures var id, s' := s.workers[w].id, Step(s, Event.Complete(w, ok));
            id in s.q.jobs && id in s'.q.jobs && Rank(s', id) < Rank(s, id)
  {
    var id, s' := s.workers[w].id, Step(s, Event.Complete(w, ok));
    WorkerRank(s, w);
    if Retries(s.q.jobs[id], ok) {
      WaitingRank(s', id);
    } else {
      EndedRank(s', id);
    }
    hide Conserved, Fifo, Rank;
  }

  lemma WakeRank(s: System, id: JobId)
    requires Inv(s) && CanStep(s, Wake(id)) && Inv(Step(s, Wake(id)))
    ensures var s' := Step(s, Wake(id)); id in s.q.jobs && id in s'.q.jobs && Rank(s', id) < Rank(s, id)
  {
    var s' := Step(s, Wake(id));
    WaitingRank(s, id);
    WaitingRank(s', id);
    if s.q.down { EndedRank(s', id); }
    hide Conserved, Fifo, Rank;
  }

  lemma ResendRank(s: System, id: JobId)
    requires Inv(s) && CanStep(s, Resend(id)) && Inv(Step(s, Resend(id)))
    ensures var s' := Step(s, Resend(id)); id in s.q.jobs && id in s'.q.jobs && Rank(s', id) < Rank(s, id)
  {
    var s' := Step(s, Resend(id));
    var p := s.q.jobs[id].priority;
    ParkedOnce(s, id);
    WaitingRank(s, id);
    if HasRoom(s.q, p) {
      assert s'.q.levels[p] == s.q.levels[p] + [id];
      QueuedIn(s'.q.levels, p, id);
      QueuedRank(s', id);
    } else {
      EndedRank(s', id);
    }
    hide Conserved, Fifo, Rank, Queued;
  }

  lemma MovedRank(s: System, e: Event)
    requires Inv(s) && CanStep(s, e) && MovesJob(s, e)
    ensures var id := Moved(s, e); id in s.q.jobs && id in Step(s, e).q.jobs && Rank(Step(s, e), id) < Rank(s, id)
  {
    StepInv(s, e);
    match e {
      case Probe(w) => ProbeRank(s, e);
      case CountTake(w) => CountTakeRank(s, w);
      case Complete(w, ok) => CompleteRank(s, w, ok);
      case Wake(id) => WakeRank(s, id);
      case Resend(id) => ResendRank(s, id);
    }
  }

  /** Every step of a job lowers the measure by at least one; no other step, save a submission,
      changes it. */
  lemma StepMeasure(s: System, e: Event)
    requires Inv(s) && CanStep(s, e) && !e.Submit?
    ensures Measure(Step(s, e)) + (if MovesJob(s, e) then 1 else 0) <= Measure(s)
    ensures !MovesJob(s, e) ==> Measure(Step(s, e)) == Measure(s)
  {
    var s' := Step(s, e);
    var ids := s.q.jobs.Keys;
    SameJobs(s, e);
    forall id | id in ids && (MovesJob(s, e) ==> id != Moved(s, e))
      ensures Ranks(s')[id] == Ranks(s)[id]
    {
      OthersKeepRank(s, e, id);
    }
    if MovesJob(s, e) {
      var x := Moved(s, e);
      MovedRank(s, e);
      hide Rank, Step, Inv;
      TotalSplit(ids, Ranks(s), x);
      TotalSplit(ids, Ranks(s'), x);
      TotalSame(ids - {x}, Ranks(s), Ranks(s'));
    } else {
      hide Rank, Step, Inv;
      TotalSame(ids, Ranks(s), Ranks(s'));
    }
  }

  lemma SameJobs(s: System, e: Event)
    requires Shaped(s) && CanStep(s, e) && !e.Submit?
    ensures Step(s, e).q.jobs.Keys == s.q.jobs.Keys
  {
  }

  ghost function JobSteps(s: System, events: seq<Event>, s': System): nat
    requires Run(s, events, s')
    decreases |events|
  {
    if events == [] then 0
    else (if MovesJob(s, events[0]) then 1 else 0) + JobSteps(Step(s, events[0]), events[1..], s')
  }

  lemma {:induction false} RunMeasure(s: System, events: seq<Event>, s': System)
    requires Inv(s) && Run(s, events, s') && forall i :: 0 <= i < |events| ==> !events[i].Submit?
    ensures JobSteps(s, events, s') + Measure(s') <= Measure(s)
    decreases |events|
  {
    if events != [] {
      StepMeasure(s, events[0]);
      StepInv(s, events[0]);
      hide Inv, Step, Measure;
      RunMeasure(Step(s, events[0]), events[1..], s');
    }
  }

  lemma RankBound(s: System, id: JobId)
    requires id in s.q.jobs && s.q.jobs[id].maxRetries == s.maxRetries
    ensures Rank(s, id) <= 6 * NonNegative(s.maxRetries) + 6
  {
  }

  lemma MeasureBound(s: System)
    requires Lives(s)
    ensures Measure(s) <= (6 * NonNegative(s.maxRetries) + 6) * |s.q.jobs|
  {
    forall id | id in s.q.jobs ensures Rank(s, id) <= 6 * NonNegative(s.maxRetries) + 6 {
      assert Life(s.q.jobs[id], s.maxRetries);
      RankBound(s, id);
    }
    hide Rank, Lives, NonNegative;
    TotalBound(s.q.jobs.Keys, Ranks(s), 6 * NonNegative(s.maxRetries) + 6);
  }

  /** Without new submissions the jobs an engine knows make only so many more steps: six for
      each of their tries. */
  lemma RunsAreFinite(s: System, events: seq<Event>, s': System)
    requires Inv(s) && Lives(s) && Run(s, events, s') && forall i :: 0 <= i < |events| ==> !events[i].Submit?
    ensures JobSteps(s, events, s') <= (6 * NonNegative(s.maxRetries) + 6) * |s.q.jobs|
  {
    RunMeasure(s, events, s');
    hide Run, Inv, Rank, JobSteps, Lives;
    MeasureBound(s);
  }
}
