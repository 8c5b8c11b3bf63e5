/** What a shutdown leads to: no context stays alive, no worker begins to poll, and no retry that is
    still waiting is put back (internal/async/queue.go:264-420,
    internal/async/priority_worker_pool.go:387-425). */
module JobShutdowns {
  import opened Common
  import opened JobCounters
  import opened JobEngine
  import opened JobQueues
  import opened RetryBudget

  // Contexts ------------------------------------------------------------------------------------------

  ghost predicate DownIsDead(s: System) {
    s.q.down ==> forall id :: id in s.q.jobs ==> s.q.jobs[id].ctx != Active
  }

  lemma StepDown(s: System, e: Event)
    requires Shaped(s) && CanStep(s, e)
    ensures Step(s, e).q.down == (s.q.down || e == Shutdown)
  {
  }

  lemma StepDead(s: System, e: Event)
    requires Shaped(s) && CanStep(s, e) && DownIsDead(s)
    ensures DownIsDead(Step(s, e))
  {
    StepDown(s, e);
    forall id | Step(s, e).q.down && id in Step(s, e).q.jobs ensures Step(s, e).q.jobs[id].ctx != Active {
      if id in s.q.jobs { StepJob(s, e, id); } else { NewLife(s, e, id); }
      hide Step;
    }
  }

  lemma {:induction false} RunDead(s: System, events: seq<Event>, s': System)
    requires DownIsDead(s) && Run(s, events, s')
    ensures DownIsDead(s')
    decreases |events|
  {
    if events != [] {
      StepDead(s, events[0]);
      hide DownIsDead, Step;
      RunDead(Step(s, events[0]), events[1..], s');
    }
  }

  /** Once an engine is shut down no context is alive, that of a job accepted afterwards included;
      so a try that fails then ends its job unless the job's deadline had passed before. */
  lemma ShutdownCancels(size: nat, maxRetries: int, workers: nat, events: seq<Event>, s: System, id: JobId)
    requires Run(Start(size, maxRetries, workers), events, s) && s.q.down && id in s.q.jobs
    ensures s.q.jobs[id].ctx in {Canceled, DeadlineExceeded}
    ensures Retries(s.q.jobs[id], false) ==> s.q.jobs[id].ctx == DeadlineExceeded
  {
    RunDead(Start(size, maxRetries, workers), events, s);
  }

  // Workers and retries -------------------------------------------------------------------------------

  function PollingCount(workers: seq<Worker>): nat {
    if workers == [] then 0 else PollingCount(workers[..|workers| - 1]) + Bit(workers[|workers| - 1].Polling?)
  }

  lemma {:induction false} PollingUpdate(workers: seq<Worker>, w: nat, x: Worker)
    requires w < |workers|
    ensures PollingCount(workers[w := x]) == PollingCount(workers) - Bit(workers[w].Polling?) + Bit(x.Polling?)
  {
    var n, workers' := |workers| - 1, workers[w := x];
    if w == n {
      assert workers'[..n] == workers[..n];
    } else {
      assert workers'[..n] == workers[..n][w := x];
      PollingUpdate(workers[..n], w, x);
    }
  }

  /** The jobs taken so far, and the workers that may still take one. */
  function Takes(s: System): nat
    requires |s.dequeued| == LEVELS
  {
    Length4(s.dequeued) + PollingCount(s.workers)
  }

  /** The retries put back or refused so far, and those that are past their check for shutdown. */
  function Resends(s: System): nat {
    s.requeues + s.refusals + |s.resuming|
  }

  lemma StepTakes(s: System, e: Event)
    requires Shaped(s) && CanStep(s, e) && s.q.down && Shaped(Step(s, e))
    ensures Takes(Step(s, e)) <= Takes(s)
  {
    hide PollingCount, Finished;
    if e.Poll? || e.Probe? || e.CountTake? || e.Complete? {
      PollingUpdate(s.workers, e.w, Step(s, e).workers[e.w]);
      assert Step(s, e).workers == s.workers[e.w := Step(s, e).workers[e.w]];
    }
  }

  lemma StepResends(s: System, e: Event)
    requires Shaped(s) && CanStep(s, e) && s.q.down
    ensures Resends(Step(s, e)) == Resends(s)
  {
    hide Finished, Retries, Shaped;
    match e {
      case Resend(id) => Grow(s.resuming, id);
      case _ =>
    }
  }

  /** After a shutdown the engine runs dry: however its goroutines interleave, it takes at most one
      job for each worker that was polling at the time, and puts back at most the retries that
      were past their check for shutdown. */
  lemma {:induction false} DrainsAfterShutdown(s: System, events: seq<Event>, s': System)
    requires Inv(s) && s.q.down && Run(s, events, s')
    ensures Inv(s') && s'.q.down
    ensures Length4(s'.dequeued) + PollingCount(s'.workers) <= Length4(s.dequeued) + PollingCount(s.workers)
    ensures s'.requeues + s'.refusals + |s'.resuming| == s.requeues + s.refusals + |s.resuming|
    decreases |events|
  {
    if events != [] {
      StepInv(s, events[0]);
      StepDown(s, events[0]);
      StepTakes(s, events[0]);
      StepResends(s, events[0]);
      hide Step, Conserved, Fifo, PollingCount;
      DrainsAfterShutdown(Step(s, events[0]), events[1..], s');
    }
  }
}
