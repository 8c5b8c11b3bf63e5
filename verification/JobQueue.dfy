/** The priority queue of webhook jobs (internal/async/queue.go:173-502): four bounded channels,
    the life of a job, its retries, and the statistics.

    The functions on `Queue` are the atomic actions of the code; the class performs them as one
    caller does, and the module `JobEngine` interleaves them. */
module JobQueues {
  import opened Common

  type JobId = nat

  const LEVELS := 4
  const LOW := 0
  const NORMAL := 1
  const HIGH := 2
  const CRITICAL := 3

  datatype Status = Pending | Processing | Completed | Failed | Retrying

  /** The error of a job's context: it dies once, by cancellation or by its deadline. */
  datatype Context = Active | Canceled | DeadlineExceeded

  datatype Attempt = Attempt(number: nat, ok: bool)

  datatype Job = Job(priority: nat, status: Status, retryCount: nat, maxRetries: int, ctx: Context,
                     attempts: seq<Attempt>)

  datatype Stats = Stats(total: int, pending: int, processing: int, completed: int, failed: int, retrying: int,
                         byPriority: seq<int>)

  datatype Queue = Queue(levels: seq<seq<JobId>>, caps: seq<nat>, jobs: map<JobId, Job>, stats: Stats, down: bool)

  // The actions -----------------------------------------------------------------------------------------

  /** The capacity of a level, given the configured queue size. */
  function Capacity(size: nat, p: nat): nat
    requires p < LEVELS
  {
    if p == NORMAL then size / 2 else if p == CRITICAL then size / 8 else size / 4
  }

  function EmptyQueue(size: nat): Queue {
    Queue([[], [], [], []],
          [Capacity(size, LOW), Capacity(size, NORMAL), Capacity(size, HIGH), Capacity(size, CRITICAL)],
          map[], Stats(0, 0, 0, 0, 0, 0, [0, 0, 0, 0]), false)
  }

  ghost predicate WellFormed(q: Queue) {
    && |q.levels| == LEVELS && |q.caps| == LEVELS && |q.stats.byPriority| == LEVELS
    && (forall id :: id in q.jobs ==> q.jobs[id].priority < LEVELS)
    && (forall p, i :: 0 <= p < LEVELS && 0 <= i < |q.levels[p]| ==> q.levels[p][i] in q.jobs)
  }

  predicate HasRoom(q: Queue, p: nat)
    requires p < |q.levels| && p < |q.caps|
  {
    |q.levels[p]| < q.caps[p]
  }

  function NewJob(p: nat, maxRetries: int, down: bool): Job {
    Job(p, Pending, 0, maxRetries, if down then Canceled else Active, [])
  }

  /** The channel send of `SubmitJob`. */
  function Enqueued(q: Queue, id: JobId, job: Job): Queue
    requires job.priority < |q.levels|
  {
    q.(levels := q.levels[job.priority := q.levels[job.priority] + [id]], jobs := q.jobs[id := job])
  }

  function CountSubmitted(s: Stats, p: nat): Stats
    requires p < |s.byPriority|
  {
    s.(total := s.total + 1, pending := s.pending + 1, byPriority := s.byPriority[p := s.byPriority[p] + 1])
  }

  /** The channel receive of `GetJob`. */
  function Dequeued(q: Queue, p: nat): Queue
    requires p < |q.levels| && q.levels[p] != [] && q.levels[p][0] in q.jobs
  {
    var id := q.levels[p][0];
    q.(levels := q.levels[p := q.levels[p][1..]], jobs := q.jobs[id := q.jobs[id].(status := Processing)])
  }

  function CountProcessing(s: Stats): Stats {
    s.(pending := s.pending - 1, processing := s.processing + 1)
  }

  /** Does `CompleteJob` schedule a retry? */
  predicate Retries(job: Job, ok: bool) {
    !ok && job.retryCount < job.maxRetries && job.ctx != Canceled
  }

  function CancelContext(c: Context): Context {
    if c == Active then Canceled else c
  }

  /** The job after `CompleteJob`; the attempt is numbered after the retry count went up. */
  function Finished(job: Job, ok: bool): Job {
    var retryCount := if Retries(job, ok) then job.retryCount + 1 else job.retryCount;
    job.(status := if ok then Completed else if Retries(job, ok) then Retrying else Failed,
         retryCount := retryCount,
         attempts := job.attempts + [Attempt(retryCount + 1, ok)],
         ctx := CancelContext(job.ctx))
  }

  function CountFinished(s: Stats, ok: bool): Stats {
    if ok then s.(processing := s.processing - 1, completed := s.completed + 1)
    else s.(processing := s.processing - 1, failed := s.failed + 1)
  }

  /** The retry goroutine's send of a job the queue already knows. */
  function Requeued(q: Queue, id: JobId): Queue
    requires id in q.jobs && q.jobs[id].priority < |q.levels|
  {
    Enqueued(q, id, q.jobs[id])
  }

  function CountRetryScheduled(s: Stats): Stats {
    s.(retrying := s.retrying + 1)
  }

  /** The retry found its level full. */
  function RetryFailed(q: Queue, id: JobId): Queue
    requires id in q.jobs
  {
    q.(jobs := q.jobs[id := q.jobs[id].(status := Failed)],
       stats := q.stats.(retrying := q.stats.retrying - 1, failed := q.stats.failed + 1))
  }

  /** `Shutdown` cancels the context every job's context hangs on. */
  function ShutDown(q: Queue): Queue {
    q.(down := true, jobs := map id | id in q.jobs :: q.jobs[id].(ctx := CancelContext(q.jobs[id].ctx)))
  }

  // Strict priority -------------------------------------------------------------------------------------

  /** The single queue that the four levels stand for. */
  function Line(levels: seq<seq<JobId>>): seq<JobId>
    requires |levels| == LEVELS
  {
    levels[CRITICAL] + levels[HIGH] + levels[NORMAL] + levels[LOW]
  }

  /** The highest level that holds a job, or `LEVELS` when none does. */
  function TopLevel(levels: seq<seq<JobId>>): (p: nat)
    requires |levels| == LEVELS
    ensures p <= LEVELS
    ensures p < LEVELS ==> levels[p] != [] && forall r :: p < r < LEVELS ==> levels[r] == []
    ensures p == LEVELS <==> forall r :: 0 <= r < LEVELS ==> levels[r] == []
  {
    if levels[CRITICAL] != [] then CRITICAL
    else if levels[HIGH] != [] then HIGH
    else if levels[NORMAL] != [] then NORMAL
    else if levels[LOW] != [] then LOW
    else LEVELS
  }

  lemma TopLevelIs(levels: seq<seq<JobId>>, p: nat)
    requires |levels| == LEVELS && p < LEVELS && levels[p] != [] && forall r :: p < r < LEVELS ==> levels[r] == []
    ensures TopLevel(levels) == p
  {
  }

  lemma PopIsHeadOfLine(levels: seq<seq<JobId>>, p: nat)
    requires |levels| == LEVELS && p < LEVELS && levels[p] != [] && forall r :: p < r < LEVELS ==> levels[r] == []
    ensures Line(levels) == [levels[p][0]] + Line(levels[p := levels[p][1..]])
  {
    assert levels[p] == [levels[p][0]] + levels[p][1..];
  }

  /** Taking from the highest non-empty level is taking the first of the line. */
  lemma TakeIsHeadOfLine(q: Queue)
    requires WellFormed(q) && TopLevel(q.levels) < LEVELS
    ensures var p := TopLevel(q.levels);
            Line(q.levels) == [q.levels[p][0]] + Line(Dequeued(q, p).levels)
  {
    var p := TopLevel(q.levels);
    PopIsHeadOfLine(q.levels, p);
  }

  datatype SubmitResult = Accepted | InvalidPriority | QueueTimeout | QueueShutdown

  class PriorityQueue {
    var levels: seq<seq<JobId>>
    const caps: seq<nat>
    const maxRetries: int
    var jobs: map<JobId, Job>
    var down: bool
    var total: int
    var pending: int
    var processing: int
    var completed: int
    var failed: int
    var retrying: int
    var byPriority: seq<int>

    ghost function Value(): Queue
      reads this
    {
      Queue(levels, caps, jobs, Stats(total, pending, processing, completed, failed, retrying, byPriority), down)
    }

    ghost predicate Valid()
      reads this
    {
      WellFormed(Value())
    }

    constructor (size: nat, maxRetries: int)
      ensures Valid() && Value() == EmptyQueue(size) && this.maxRetries == maxRetries
    {
      levels, jobs, down := [[], [], [], []], map[], false;
      caps := [size / 4, size / 2, size / 4, size / 8];
      this.maxRetries := maxRetries;
      total, pending, processing, completed, failed, retrying := 0, 0, 0, 0, 0, 0;
      byPriority := [0, 0, 0, 0];
    }

    /** `SubmitJob`, at the moment when its select statement decides. A queue that is shut down and
        has room may do either: `preferSend` is the choice that the statement makes at random. */
    method SubmitJob(id: JobId, priority: int, preferSend: bool) returns (r: SubmitResult)
      requires Valid() && id !in jobs
      modifies this
      ensures Valid()
      ensures r == InvalidPriority <==> !(0 <= priority < LEVELS)
      ensures r == Accepted <==> 0 <= priority < LEVELS && HasRoom(old(Value()), priority) && (!old(down) || preferSend)
      ensures r == QueueShutdown ==> old(down)
      ensures r == Accepted ==>
                var q := Enqueued(old(Value()), id, NewJob(priority, maxRetries, old(down)));
                Value() == q.(stats := CountSubmitted(q.stats, priority))
      ensures r != Accepted ==> Value() == old(Value())
    {
      if !(0 <= priority < LEVELS) {
        return InvalidPriority;
      }
      if |levels[priority]| < caps[priority] && (!down || preferSend) {
        jobs := jobs[id := NewJob(priority, maxRetries, down)];
        levels := levels[priority := levels[priority] + [id]];
        UpdateStats(Submitted(priority));
        return Accepted;
      }
      return if down then QueueShutdown else QueueTimeout;
    }

    /** `GetJob`: polls the levels from the highest to the lowest. */
    method GetJob() returns (r: Option<JobId>)
      requires Valid()
      modifies this
      ensures Valid()
      ensures r == None <==> old(down) || TopLevel(old(levels)) == LEVELS
      ensures r == None ==> Value() == old(Value())
      ensures r.Some? ==>
                var p := TopLevel(old(levels));
                && r.value == old(levels)[p][0]
                && Value() == Dequeued(old(Value()), p).(stats := CountProcessing(old(Value()).stats))
    {
      if down {
        return None;
      }
      var priorities := [CRITICAL, HIGH, NORMAL, LOW];
      for i := 0 to LEVELS
        invariant Value() == old(Value())
        invariant forall r :: LEVELS - i <= r < LEVELS ==> levels[r] == []
      {
        var p := priorities[i];
        assert p == LEVELS - 1 - i;
        if levels[p] != [] {
          TopLevelIs(levels, p);
          var id := Take(p);
          return Some(id);
        }
      }
      return None;
    }

    /** The successful receive from one level. */
    method Take(p: nat) returns (id: JobId)
      requires Valid() && p < LEVELS && levels[p] != []
      modifies this
      ensures Valid() && id == old(levels)[p][0]
      ensures Value() == Dequeued(old(Value()), p).(stats := CountProcessing(old(Value()).stats))
    {
      id := levels[p][0];
      jobs := jobs[id := jobs[id].(status := Processing)];
      levels := levels[p := levels[p][1..]];
      UpdateStats(Processed);
    }

    /** `CompleteJob`: true when a retry has been scheduled. */
    method CompleteJob(id: JobId, ok: bool) returns (retry: bool)
      requires Valid() && id in jobs
      modifies this
      ensures Valid()
      ensures retry <==> !ok && old(jobs)[id].retryCount < old(jobs)[id].maxRetries && old(jobs)[id].ctx != Canceled
      ensures id in jobs && jobs[id].status == if ok then Completed else if retry then Retrying else Failed
      ensures Value() == old(Value()).(jobs := old(jobs)[id := Finished(old(jobs)[id], ok)],
                                       stats := CountFinished(old(Value()).stats, ok))
    {
      var job := jobs[id];
      retry := false;
      if !ok {
        job := job.(status := Failed);
        UpdateStats(Fail);
        if job.retryCount < job.maxRetries && job.ctx != Canceled {
          job := job.(status := Retrying, retryCount := job.retryCount + 1);
          retry := true;
        }
      } else {
        job := job.(status := Completed);
        UpdateStats(Succeed);
      }
      job := job.(attempts := job.attempts + [Attempt(job.retryCount + 1, ok)]);
      jobs := jobs[id := job.(ctx := CancelContext(job.ctx))];
    }

    /** What the retry goroutine does when its delay is over; false when the queue is shut down
        and the job is abandoned. */
    method RetryJob(id: JobId) returns (alive: bool)
      requires Valid() && id in jobs
      modifies this
      ensures Valid()
      ensures alive == !old(down)
      ensures !alive ==> Value() == old(Value())
      ensures alive ==>
                Value() == if HasRoom(old(Value()), old(jobs)[id].priority)
                           then Requeued(old(Value()), id).(stats := CountRetryScheduled(old(Value()).stats))
                           else RetryFailed(old(Value()), id)
    {
      if down {
        return false;
      }
      var p := jobs[id].priority;
      if |levels[p]| < caps[p] {
        levels := levels[p := levels[p] + [id]];
        UpdateStats(RetryScheduled);
        assert jobs[id := jobs[id]] == jobs;
      } else {
        jobs := jobs[id := jobs[id].(status := Failed)];
        UpdateStats(RetryFull);
      }
      return true;
    }

    method Shutdown()
      requires Valid()
      modifies this
      ensures Valid() && Value() == ShutDown(old(Value()))
    {
      down := true;
      jobs := map id | id in jobs :: jobs[id].(ctx := CancelContext(jobs[id].ctx));
    }

    /** `updateStats`. */
    method UpdateStats(action: Action)
      requires |byPriority| == LEVELS && (action.Submitted? ==> action.priority < LEVELS)
      modifies this`total, this`pending, this`processing, this`completed, this`failed, this`retrying, this`byPriority
      ensures Value() == old(Value()).(stats := Counted(old(Value()).stats, action))
    {
      match action {
        case Submitted(p) =>
          total := total + 1;
          pending := pending + 1;
          byPriority := byPriority[p := byPriority[p] + 1];
        case Processed =>
          pending := pending - 1;
          processing := processing + 1;
        case Succeed =>
          processing := processing - 1;
          completed := completed + 1;
        case Fail =>
          processing := processing - 1;
          failed := failed + 1;
        case RetryScheduled =>
          retrying := retrying + 1;
        case RetryFull =>
          retrying := retrying - 1;
          failed := failed + 1;
      }
    }
  }

  datatype Action = Submitted(priority: nat) | Processed | Succeed | Fail | RetryScheduled | RetryFull

  function Counted(s: Stats, action: Action): Stats
    requires action.Submitted? ==> action.priority < |s.byPriority|
  {
    match action
    case Submitted(p) => CountSubmitted(s, p)
    case Processed => CountProcessing(s)
    case Succeed => CountFinished(s, true)
    case Fail => CountFinished(s, false)
    case RetryScheduled => CountRetryScheduled(s)
    case RetryFull => s.(retrying := s.retrying - 1, failed := s.failed + 1)
  }

  /** The pending counter can go below zero: one job that fails once, is put back and is taken
      again leaves it at minus one, with nothing queued. */
  method PendingBelowZero() returns (pending: int, queued: nat)
    ensures pending == -1 && queued == 0
  {
    var pq := new PriorityQueue(8, 1);
    assert pq.caps == [2, 4, 2, 1];
    assert HasRoom(pq.Value(), CRITICAL);
    var submitted := pq.SubmitJob(0, CRITICAL, true);
    assert pq.levels[CRITICAL] == [0];
    var first := pq.GetJob();
    assert pq.levels[CRITICAL] == [];
    var retry := pq.CompleteJob(0, false);
    assert HasRoom(pq.Value(), CRITICAL) && pq.jobs[0].priority == CRITICAL && !pq.down;
    var alive := pq.RetryJob(0);
    assert pq.levels[CRITICAL] == [0];
    var second := pq.GetJob();
    assert pq.levels[CRITICAL] == [];
    return pq.pending, |Line(pq.levels)|;
  }
}
