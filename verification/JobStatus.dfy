/** What the status of a job says about where it is and how its last try went, after every run of
    the engine (internal/async/queue.go:217-407). */
module JobStatuses {
  import opened Common
  import opened JobQueues
  import opened JobEngine
  import opened RetryBudget

  predicate Tried(job: Job, ok: bool) {
    job.attempts != [] && job.attempts[|job.attempts| - 1].ok == ok
  }

  /** Untried or, if the last try failed, waiting for another one. */
  predicate Outstanding(job: Job) {
    if job.attempts == [] then job.status == Pending else job.status == Retrying && Tried(job, false)
  }

  /** The status of a job fits its place. */
  ghost predicate Fits(s: System, id: JobId)
    requires id in s.q.jobs
  {
    var job := s.q.jobs[id];
    && (id in s.done ==> job.status == Completed && Tried(job, true))
    && (id in s.dead ==> job.status == Failed && Tried(job, false))
    && (id in s.waiting + s.resuming + s.abandoned ==> job.status == Retrying && Tried(job, false))
    && (forall w :: 0 <= w < |s.workers| && Holds(s.workers[w], id) ==> job.status == Processing)
    && (forall p :: 0 <= p < |s.q.levels| && id in s.q.levels[p] ==> Outstanding(job))
  }

  ghost predicate AllFit(s: System) {
    forall id :: id in s.q.jobs ==> Fits(s, id)
  }

  lemma {:induction false} NoHolder(workers: seq<Worker>, id: JobId)
    requires Held(workers, id) == 0
    ensures forall w :: 0 <= w < |workers| ==> !Holds(workers[w], id)
  {
    if workers != [] { NoHolder(workers[..|workers| - 1], id); }
  }

  lemma {:induction false} NotQueued(levels: seq<seq<JobId>>, id: JobId)
    requires Queued(levels, id) == 0
    ensures forall p :: 0 <= p < |levels| ==> id !in levels[p]
  {
    if levels != [] { NotQueued(levels[..|levels| - 1], id); }
  }

  /** A job is in one place only, so its status needs to fit that place only. */
  lemma QueuedFits(s: System, p: nat, id: JobId)
    requires Conserved(s) && p < |s.q.levels| && id in s.q.levels[p] && id in s.q.jobs && Outstanding(s.q.jobs[id])
    ensures Fits(s, id)
  {
    QueuedIn(s.q.levels, p, id);
    assert Places(s, id) <= 1;
    NoHolder(s.workers, id);
  }

  lemma HeldFits(s: System, w: nat)
    requires Conserved(s) && w < |s.workers| && Holding(s.workers[w])
    requires s.workers[w].id in s.q.jobs && s.q.jobs[s.workers[w].id].status == Processing
    ensures Fits(s, s.workers[w].id)
  {
    NotParked(s, w);
    NotQueued(s.q.levels, s.workers[w].id);
  }

  lemma ParkedFits(s: System, id: JobId)
    requires Conserved(s) && id in s.q.jobs
    requires var job := s.q.jobs[id];
             || (id in s.done && job.status == Completed && Tried(job, true))
             || (id in s.dead && job.status == Failed && Tried(job, false))
             || (id in s.waiting + s.resuming + s.abandoned && job.status == Retrying && Tried(job, false))
    ensures Fits(s, id)
  {
    hide Tried;
    ParkedOnce(s, id);
    NoHolder(s.workers, id);
    NotQueued(s.q.levels, id);
  }

  lemma NewFits(s: System, e: Event, id: JobId)
    requires Inv(s) && CanStep(s, e) && Inv(Step(s, e)) && id in Step(s, e).q.jobs && id !in s.q.jobs
    ensures Fits(Step(s, e), id)
  {
    NewLife(s, e, id);
    NewIsQueued(s, e, id);
    hide Step, Shaped, Conserved, Fifo;
    QueuedFits(Step(s, e), e.p, id);
  }

  lemma NewIsQueued(s: System, e: Event, id: JobId)
    requires Shaped(s) && CanStep(s, e) && id in Step(s, e).q.jobs && id !in s.q.jobs
    ensures e.Submit? && e.p < |Step(s, e).q.levels| && id in Step(s, e).q.levels[e.p]
  {
    hide Finished;
  }

  lemma FinishedTells(job: Job, ok: bool)
    ensures var job' := Finished(job, ok);
            && job'.status == (if ok then Completed else if Retries(job, ok) then Retrying else Failed)
            && Tried(job', ok)
  {
  }

  lemma CompleteFits(s: System, w: nat, ok: bool)
    requires Inv(s) && CanStep(s, Event.Complete(w, ok)) && Inv(Step(s, Event.Complete(w, ok)))
    ensures s.workers[w].id in Step(s, Event.Complete(w, ok)).q.jobs
    ensures Fits(Step(s, Event.Complete(w, ok)), s.workers[w].id)
  {
    var id, s' := s.workers[w].id, Step(s, Event.Complete(w, ok));
    CompletePlace(s, w, ok);
    FinishedTells(s.q.jobs[id], ok);
    hide Step, CanStep, Shaped, Conserved, Fifo, Finished, Retries, Tried, Fits;
    ParkedFits(s', id);
  }

  lemma CompletePlace(s: System, w: nat, ok: bool)
    requires Shaped(s) && CanStep(s, Event.Complete(w, ok))
    ensures var id, s' := s.workers[w].id, Step(s, Event.Complete(w, ok));
            && id in s'.q.jobs && s'.q.jobs[id] == Finished(s.q.jobs[id], ok)
            && id in if Retries(s.q.jobs[id], ok) then s'.waiting else if ok then s'.done else s'.dead
  {
  }

  lemma ProbeFits(s: System, e: Event)
    requires Inv(s) && CanStep(s, e) && Hit(s, e) && Inv(Step(s, e))
    ensures var id := s.q.levels[ProbedLevel(s.workers[e.w])][0]; id in Step(s, e).q.jobs && Fits(Step(s, e), id)
  {
    var id := s.q.levels[ProbedLevel(s.workers[e.w])][0];
    var s' := Step(s, e);
    assert Holds(s'.workers[e.w], id) && s'.q.jobs[id].status == Processing;
    hide Step, Shaped, Conserved, Fifo, Fits;
    HeldFits(s', e.w);
  }

  lemma WakeFits(s: System, id: JobId)
    requires Inv(s) && CanStep(s, Wake(id)) && Inv(Step(s, Wake(id))) && Fits(s, id)
    ensures Fits(Step(s, Wake(id)), id)
  {
    var s' := Step(s, Wake(id));
    assert s'.q == s.q && id in s'.waiting + s'.resuming + s'.abandoned;
    hide Step, Shaped, Conserved, Fifo, Tried;
    ParkedFits(s', id);
  }

  lemma ResendFits(s: System, id: JobId)
    requires Inv(s) && CanStep(s, Resend(id)) && Inv(Step(s, Resend(id))) && Fits(s, id)
    ensures id in Step(s, Resend(id)).q.jobs && Fits(Step(s, Resend(id)), id)
  {
    var s' := Step(s, Resend(id));
    var p := s.q.jobs[id].priority;
    ResendPlace(s, id);
    assert s.q.jobs[id].status == Retrying && Tried(s.q.jobs[id], false);
    hide Step, CanStep, Shaped, Conserved, Fifo, HasRoom, Fits;
    if HasRoom(s.q, p) {
      QueuedFits(s', p, id);
    } else {
      ParkedFits(s', id);
    }
  }

  lemma ResendPlace(s: System, id: JobId)
    requires Shaped(s) && CanStep(s, Resend(id))
    ensures var p, s' := s.q.jobs[id].priority, Step(s, Resend(id));
            && p < |s'.q.levels| && id in s'.q.jobs
            && if HasRoom(s.q, p) then s'.q.jobs[id] == s.q.jobs[id] && id in s'.q.levels[p]
               else s'.q.jobs[id] == s.q.jobs[id].(status := Failed) && id in s'.dead
  {
  }

  /** The other steps change neither the place of a job nor more than its context. */
  lemma OthersFit(s: System, e: Event, id: JobId)
    requires Shaped(s) && CanStep(s, e) && id in s.q.jobs && Fits(s, id)
    requires MovesJob(s, e) ==> Moved(s, e) != id
    ensures id in Step(s, e).q.jobs && Fits(Step(s, e), id)
  {
    OthersKeepStatus(s, e, id);
    OthersKeepPlace(s, e, id);
    OthersKeepLevels(s, e, id);
    OthersKeepHolders(s, e, id);
    hide Step, CanStep, Shaped, MovesJob, Moved;
  }

  lemma OthersKeepHolders(s: System, e: Event, id: JobId)
    requires Shaped(s) && CanStep(s, e) && (MovesJob(s, e) ==> Moved(s, e) != id)
    ensures forall w :: 0 <= w < |Step(s, e).workers| && Holds(Step(s, e).workers[w], id) ==>
              w < |s.workers| && Holds(s.workers[w], id)
  {
    hide Finished, Retries;
  }

  lemma OthersKeepStatus(s: System, e: Event, id: JobId)
    requires Shaped(s) && CanStep(s, e) && id in s.q.jobs && (MovesJob(s, e) ==> Moved(s, e) != id)
    ensures id in Step(s, e).q.jobs
    ensures Step(s, e).q.jobs[id].status == s.q.jobs[id].status
            && Step(s, e).q.jobs[id].attempts == s.q.jobs[id].attempts
  {
    hide Finished;
  }

  lemma OthersKeepPlace(s: System, e: Event, id: JobId)
    requires Shaped(s) && CanStep(s, e) && (MovesJob(s, e) ==> Moved(s, e) != id)
    ensures id in Step(s, e).done <==> id in s.done
    ensures id in Step(s, e).dead <==> id in s.dead
    ensures id in Step(s, e).waiting + Step(s, e).resuming + Step(s, e).abandoned
       <==> id in s.waiting + s.resuming + s.abandoned
  {
    hide Finished, Retries;
  }

  lemma OthersKeepLevels(s: System, e: Event, id: JobId)
    requires Shaped(s) && CanStep(s, e) && id in s.q.jobs && (MovesJob(s, e) ==> Moved(s, e) != id)
    ensures forall p :: 0 <= p < |Step(s, e).q.levels| && id in Step(s, e).q.levels[p] ==>
              p < |s.q.levels| && id in s.q.levels[p]
  {
    hide Finished;
  }

  lemma CountTakeFits(s: System, w: nat)
    requires Inv(s) && CanStep(s, CountTake(w)) && s.workers[w].id in s.q.jobs && Fits(s, s.workers[w].id)
    ensures s.workers[w].id in Step(s, CountTake(w)).q.jobs && Fits(Step(s, CountTake(w)), s.workers[w].id)
  {
    assert Holds(s.workers[w], s.workers[w].id);
    hide Conserved, Fifo;
  }

  lemma MovedFits(s: System, e: Event)
    requires Inv(s) && Lives(s) && CanStep(s, e) && MovesJob(s, e) && Inv(Step(s, e))
    requires Moved(s, e) in s.q.jobs && Fits(s, Moved(s, e))
    ensures Moved(s, e) in Step(s, e).q.jobs && Fits(Step(s, e), Moved(s, e))
  {
    StepJob(s, e, Moved(s, e));
    hide Step, Conserved, Fifo, Lives, Fits;
    match e {
      case Probe(w) => ProbeFits(s, e);
      case CountTake(w) => CountTakeFits(s, w);
      case Complete(w, ok) => CompleteFits(s, w, ok);
      case Wake(i) => WakeFits(s, i);
      case Resend(i) => ResendFits(s, i);
    }
  }

  lemma StepFits(s: System, e: Event)
    requires Inv(s) && Lives(s) && AllFit(s) && CanStep(s, e)
    ensures AllFit(Step(s, e))
  {
    StepInv(s, e);
    hide Step, CanStep, Shaped, Conserved, Fifo, Lives, Fits, MovesJob, Moved;
    forall id | id in Step(s, e).q.jobs ensures Fits(Step(s, e), id) {
      if id !in s.q.jobs {
        NewFits(s, e, id);
      } else if MovesJob(s, e) && Moved(s, e) == id {
        MovedFits(s, e);
      } else {
        OthersFit(s, e, id);
      }
    }
  }

  lemma {:induction false} RunFits(s: System, events: seq<Event>, s': System)
    requires Inv(s) && Lives(s) && AllFit(s) && Run(s, events, s')
    ensures AllFit(s')
    decreases |events|
  {
    if events != [] {
      StepFits(s, events[0]);
      StepLives(s, events[0]);
      StepInv(s, events[0]);
      hide Inv, Lives, AllFit, Step;
      RunFits(Step(s, events[0]), events[1..], s');
    }
  }

  /** After every run of the engine: a job that is done is completed and its last try succeeded; one
      that is dead has failed, as did its last try; one between two tries, or abandoned there, is
      retrying; one in a worker's hands is processing; and a queued one is pending until it has been
      tried, and retrying from then on. */
  lemma StatusTellsPlace(size: nat, maxRetries: int, workers: nat, events: seq<Event>, s: System, id: JobId)
    requires Run(Start(size, maxRetries, workers), events, s) && id in s.q.jobs
    ensures var job := s.q.jobs[id];
            && (id in s.done ==> job.status == Completed && job.attempts != [] && job.attempts[|job.attempts| - 1].ok)
            && (id in s.dead ==> job.status == Failed && job.attempts != [] && !job.attempts[|job.attempts| - 1].ok)
            && (id in s.waiting + s.resuming + s.abandoned ==>
                  job.status == Retrying && job.attempts != [] && !job.attempts[|job.attempts| - 1].ok)
            && (forall w :: 0 <= w < |s.workers| && s.workers[w] in {Taken(id), Running(id)} ==>
                  job.status == Processing)
            && (forall p :: 0 <= p < |s.q.levels| && id in s.q.levels[p] ==>
                  job.status == if job.attempts == [] then Pending else Retrying)
  {
    StartInv(size, maxRetries, workers);
    RunFits(Start(size, maxRetries, workers), events, s);
    RunInv(Start(size, maxRetries, workers), events, s);
    assert Fits(s, id);
  }
}
