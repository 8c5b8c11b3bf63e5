/** What strict-priority polling of the four channels amounts to: draining a queue that nobody
    else touches yields the stable sort of its contents by descending priority
    (internal/async/queue.go:264-295). */
module PriorityOrder {
  import opened JobQueues

  datatype Arrival = Arrival(id: JobId, priority: nat)

  /** The arrivals of one priority, in order. */
  function OfLevel(line: seq<Arrival>, p: nat): seq<Arrival> {
    if line == [] then []
    else
      var n := |line| - 1;
      if line[n].priority == p then OfLevel(line[..n], p) + [line[n]] else OfLevel(line[..n], p)
  }

  function Ids(line: seq<Arrival>): (s: seq<JobId>)
    ensures |s| == |line|
  {
    seq(|line|, i requires 0 <= i < |line| => line[i].id)
  }

  /** The levels hold what arrived, each level in the order of arrival. */
  ghost predicate Holds(levels: seq<seq<JobId>>, arrivals: seq<Arrival>) {
    && |levels| == LEVELS
    && (forall a :: a in arrivals ==> a.priority < LEVELS)
    && (forall p :: 0 <= p < LEVELS ==> levels[p] == Ids(OfLevel(arrivals, p)))
  }

  /** Highest priority first, and within a priority the order of arrival. */
  ghost predicate IsStableSort(line: seq<Arrival>, arrivals: seq<Arrival>) {
    && (forall i, j :: 0 <= i < j < |line| ==> line[i].priority >= line[j].priority)
    && (forall p: nat :: OfLevel(line, p) == OfLevel(arrivals, p))
  }

  /** Taking jobs, as `GetJob` does, until none is left. */
  function Drain(levels: seq<seq<JobId>>): seq<JobId>
    requires |levels| == LEVELS
    decreases |levels[0]| + |levels[1]| + |levels[2]| + |levels[3]|
  {
    var p := TopLevel(levels);
    if p == LEVELS then [] else [levels[p][0]] + Drain(levels[p := levels[p][1..]])
  }

  lemma {:induction false} DrainIsLine(levels: seq<seq<JobId>>)
    requires |levels| == LEVELS
    ensures Drain(levels) == Line(levels)
    decreases |levels[0]| + |levels[1]| + |levels[2]| + |levels[3]|
  {
    var p := TopLevel(levels);
    if p < LEVELS {
      var levels' := levels[p := levels[p][1..]];
      DrainIsLine(levels');
      PopIsHeadOfLine(levels, p);
    }
  }

  lemma {:induction false} OfLevelConcat(a: seq<Arrival>, b: seq<Arrival>, p: nat)
    ensures OfLevel(a + b, p) == OfLevel(a, p) + OfLevel(b, p)
    decreases |b|
  {
    if b == [] {
      assert a + b == a;
    } else {
      var n := |b| - 1;
      assert (a + b)[..|a + b| - 1] == a + b[..n];
      OfLevelConcat(a, b[..n], p);
    }
  }

  lemma {:induction false} OfLevelTwice(line: seq<Arrival>, p: nat, r: nat)
    ensures forall a :: a in OfLevel(line, p) ==> a.priority == p
    ensures OfLevel(OfLevel(line, p), r) == if p == r then OfLevel(line, p) else []
  {
    if line != [] {
      var n := |line| - 1;
      OfLevelTwice(line[..n], p, r);
      var init := OfLevel(line[..n], p);
      OfLevelConcat(init, if line[n].priority == p then [line[n]] else [], r);
    }
  }

  lemma {:induction false} NoneOfLevel(line: seq<Arrival>, p: nat)
    requires forall a :: a in line ==> a.priority != p
    ensures OfLevel(line, p) == []
  {
    if line != [] { NoneOfLevel(line[..|line| - 1], p); }
  }

  function Sorted(arrivals: seq<Arrival>): seq<Arrival> {
    OfLevel(arrivals, CRITICAL) + OfLevel(arrivals, HIGH) + OfLevel(arrivals, NORMAL) + OfLevel(arrivals, LOW)
  }

  lemma SortedLevels(arrivals: seq<Arrival>, r: nat)
    ensures OfLevel(Sorted(arrivals), r) == if r < LEVELS then OfLevel(arrivals, r) else []
  {
    var a3, a2, a1, a0 := OfLevel(arrivals, CRITICAL), OfLevel(arrivals, HIGH),
                          OfLevel(arrivals, NORMAL), OfLevel(arrivals, LOW);
    OfLevelConcat(a3 + a2 + a1, a0, r);
    OfLevelConcat(a3 + a2, a1, r);
    OfLevelConcat(a3, a2, r);
    OfLevelTwice(arrivals, CRITICAL, r);
    OfLevelTwice(arrivals, HIGH, r);
    OfLevelTwice(arrivals, NORMAL, r);
    OfLevelTwice(arrivals, LOW, r);
  }

  lemma SortedIsStableSort(arrivals: seq<Arrival>)
    requires forall a :: a in arrivals ==> a.priority < LEVELS
    ensures IsStableSort(Sorted(arrivals), arrivals)
  {
    forall p: nat ensures OfLevel(Sorted(arrivals), p) == OfLevel(arrivals, p) {
      SortedLevels(arrivals, p);
      if p >= LEVELS { NoneOfLevel(arrivals, p); }
    }
    hide OfLevel;
    forall p ensures AllOf(OfLevel(arrivals, p), p) { OfLevelTwice(arrivals, p, 0); }
    SortedDescends(OfLevel(arrivals, CRITICAL), OfLevel(arrivals, HIGH),
                   OfLevel(arrivals, NORMAL), OfLevel(arrivals, LOW));
  }

  ghost predicate AllOf(s: seq<Arrival>, p: nat) {
    forall i :: 0 <= i < |s| ==> s[i].priority == p
  }

  lemma SortedDescends(a3: seq<Arrival>, a2: seq<Arrival>, a1: seq<Arrival>, a0: seq<Arrival>)
    requires AllOf(a3, CRITICAL) && AllOf(a2, HIGH) && AllOf(a1, NORMAL) && AllOf(a0, LOW)
    ensures var line := a3 + a2 + a1 + a0; forall i, j :: 0 <= i < j < |line| ==> line[i].priority >= line[j].priority
  {
  }

  lemma IdsConcat(a: seq<Arrival>, b: seq<Arrival>)
    ensures Ids(a + b) == Ids(a) + Ids(b)
  {
  }

  /** Draining is stable sorting. */
  lemma DrainIsStableSort(levels: seq<seq<JobId>>, arrivals: seq<Arrival>)
    requires Holds(levels, arrivals)
    ensures Drain(levels) == Ids(Sorted(arrivals)) && IsStableSort(Sorted(arrivals), arrivals)
  {
    DrainIsLine(levels);
    SortedIsStableSort(arrivals);
    hide OfLevel, IsStableSort;
    var a3, a2, a1, a0 := OfLevel(arrivals, CRITICAL), OfLevel(arrivals, HIGH),
                          OfLevel(arrivals, NORMAL), OfLevel(arrivals, LOW);
    IdsConcat(a3 + a2 + a1, a0);
    IdsConcat(a3 + a2, a1);
    IdsConcat(a3, a2);
  }

  /** There is only one stable sort. */
  lemma {:induction false} StableSortIsUnique(line: seq<Arrival>, arrivals: seq<Arrival>)
    requires IsStableSort(line, arrivals) && forall a :: a in line ==> a.priority < LEVELS
    ensures line == Sorted(arrivals)
  {
    DescendingIsSorted(line);
    assert OfLevel(line, CRITICAL) == OfLevel(arrivals, CRITICAL) && OfLevel(line, HIGH) == OfLevel(arrivals, HIGH);
    assert OfLevel(line, NORMAL) == OfLevel(arrivals, NORMAL) && OfLevel(line, LOW) == OfLevel(arrivals, LOW);
  }

  lemma {:induction false} DescendingIsSorted(line: seq<Arrival>)
    requires forall i, j :: 0 <= i < j < |line| ==> line[i].priority >= line[j].priority
    requires forall a :: a in line ==> a.priority < LEVELS
    ensures line == Sorted(line)
  {
    if line != [] {
      var n := |line| - 1;
      var init, x := line[..n], line[n];
      hide OfLevel;
      assert forall a :: a in init ==> a in line;
      DescendingIsSorted(init);
      assert line == init + [x];
      forall p: nat | p < x.priority ensures OfLevel(init, p) == [] {
        forall a | a in init ensures a.priority != p {}
        NoneOfLevel(init, p);
      }
      OfLevelAppend(init, x, CRITICAL);
      OfLevelAppend(init, x, HIGH);
      OfLevelAppend(init, x, NORMAL);
      OfLevelAppend(init, x, LOW);
      assert x in line;
      hide With;
      AppendLowest(OfLevel(init, CRITICAL), OfLevel(init, HIGH), OfLevel(init, NORMAL), OfLevel(init, LOW), x);
    }
  }

  function With(s: seq<Arrival>, x: Arrival, p: nat): seq<Arrival> {
    if x.priority == p then s + [x] else s
  }

  lemma OfLevelAppend(init: seq<Arrival>, x: Arrival, p: nat)
    ensures OfLevel(init + [x], p) == With(OfLevel(init, p), x, p)
  {
    assert (init + [x])[..|init|] == init;
  }

  lemma AppendLowest(a3: seq<Arrival>, a2: seq<Arrival>, a1: seq<Arrival>, a0: seq<Arrival>, x: Arrival)
    requires x.priority < LEVELS
    requires (LOW < x.priority ==> a0 == []) && (NORMAL < x.priority ==> a1 == []) && (HIGH < x.priority ==> a2 == [])
    ensures a3 + a2 + a1 + a0 + [x]
            == With(a3, x, CRITICAL) + With(a2, x, HIGH) + With(a1, x, NORMAL) + With(a0, x, LOW)
  {
  }

  /** Submitting a job appends an arrival. */
  lemma EnqueueHolds(q: Queue, arrivals: seq<Arrival>, id: JobId, job: Job)
    requires Holds(q.levels, arrivals) && job.priority < LEVELS
    ensures Holds(Enqueued(q, id, job).levels, arrivals + [Arrival(id, job.priority)])
  {
    var a := Arrival(id, job.priority);
    assert (arrivals + [a])[..|arrivals|] == arrivals;
    forall p | 0 <= p < LEVELS ensures Enqueued(q, id, job).levels[p] == Ids(OfLevel(arrivals + [a], p)) {
      if p == job.priority { IdsConcat(OfLevel(arrivals, p), [a]); }
    }
  }

  // Runs ------------------------------------------------------------------------------------------------

  /** The arrival to serve next: one of the highest priority, and the earliest of those. */
  ghost predicate IsNext(arrivals: seq<Arrival>, i: nat) {
    && i < |arrivals|
    && (forall j :: 0 <= j < |arrivals| ==> arrivals[j].priority <= arrivals[i].priority)
    && (forall j :: 0 <= j < i ==> arrivals[j].priority != arrivals[i].priority)
  }

  function Without(arrivals: seq<Arrival>, i: nat): seq<Arrival>
    requires i < |arrivals|
  {
    arrivals[..i] + arrivals[i + 1..]
  }

  lemma {:induction false} FirstOf(arrivals: seq<Arrival>, p: nat) returns (i: nat)
    requires exists a :: a in arrivals && a.priority == p
    ensures i < |arrivals| && arrivals[i].priority == p && forall j :: 0 <= j < i ==> arrivals[j].priority != p
  {
    if arrivals[0].priority == p {
      i := 0;
    } else {
      assert arrivals == [arrivals[0]] + arrivals[1..];
      i := FirstOf(arrivals[1..], p);
      i := i + 1;
    }
  }

  /** Serving the first arrival of a priority shortens that level at the front and leaves the
      others alone. */
  lemma OfLevelWithout(arrivals: seq<Arrival>, i: nat, p: nat)
    requires i < |arrivals| && forall j :: 0 <= j < i ==> arrivals[j].priority != arrivals[i].priority
    ensures OfLevel(arrivals, p)
            == (if p == arrivals[i].priority then [arrivals[i]] else []) + OfLevel(Without(arrivals, i), p)
  {
    var before, x, after := arrivals[..i], arrivals[i], arrivals[i + 1..];
    assert arrivals == before + [x] + after;
    OfLevelConcat(before + [x], after, p);
    OfLevelConcat(before, [x], p);
    OfLevelConcat(before, after, p);
    assert OfLevel([x], p) == if p == x.priority then [x] else [] by { assert [x][..0] == []; }
    NoneOfLevel(before, x.priority);
  }

  lemma {:induction false} OfLevelMembers(arrivals: seq<Arrival>, p: nat, a: Arrival)
    ensures a in OfLevel(arrivals, p) <==> a in arrivals && a.priority == p
  {
    if arrivals != [] {
      var n := |arrivals| - 1;
      assert arrivals == arrivals[..n] + [arrivals[n]];
      OfLevelMembers(arrivals[..n], p, a);
    }
  }

  /** The next arrival is of the highest level that holds a job. */
  lemma NextOfLevels(levels: seq<seq<JobId>>, arrivals: seq<Arrival>) returns (i: nat)
    requires Holds(levels, arrivals) && TopLevel(levels) < LEVELS
    ensures IsNext(arrivals, i) && arrivals[i].priority == TopLevel(levels)
  {
    var p := TopLevel(levels);
    OfLevelMembers(arrivals, p, OfLevel(arrivals, p)[0]);
    hide OfLevel;
    i := FirstOf(arrivals, p);
    forall j | 0 <= j < |arrivals| ensures arrivals[j].priority <= p {
      assert arrivals[j] in arrivals;
      OfLevelMembers(arrivals, arrivals[j].priority, arrivals[j]);
    }
  }

  lemma NextIsHead(arrivals: seq<Arrival>, i: nat)
    requires IsNext(arrivals, i) && arrivals[i].priority < LEVELS
    ensures Sorted(arrivals) != [] && Sorted(arrivals)[0] == arrivals[i]
  {
    var p := arrivals[i].priority;
    OfLevelWithout(arrivals, i, p);
    forall r | p < r ensures OfLevel(arrivals, r) == [] {
      forall a | a in arrivals ensures a.priority != r {}
      NoneOfLevel(arrivals, r);
    }
    hide OfLevel;
    assert p == CRITICAL || p == HIGH || p == NORMAL || p == LOW;
  }

  /** What `GetJob` takes is the next arrival, the head of the stable sort, and the levels then
      hold the arrivals without it. */
  lemma TakeHolds(q: Queue, arrivals: seq<Arrival>) returns (i: nat)
    requires WellFormed(q) && Holds(q.levels, arrivals) && TopLevel(q.levels) < LEVELS
    ensures IsNext(arrivals, i)
    ensures var p := TopLevel(q.levels);
            && p == arrivals[i].priority && q.levels[p][0] == arrivals[i].id
            && Sorted(arrivals) != [] && Sorted(arrivals)[0] == arrivals[i]
            && Holds(Dequeued(q, p).levels, Without(arrivals, i))
  {
    i := NextOfLevels(q.levels, arrivals);
    NextIsHead(arrivals, i);
    TailHolds(q.levels, arrivals, i);
  }

  lemma IdsTail(level: seq<JobId>, line: seq<Arrival>, x: Arrival, rest: seq<Arrival>)
    requires level == Ids(line) && line == [x] + rest
    ensures level != [] && level[0] == x.id && level[1..] == Ids(rest)
  {
  }

  lemma TailHolds(levels: seq<seq<JobId>>, arrivals: seq<Arrival>, i: nat)
    requires Holds(levels, arrivals) && i < |arrivals| && arrivals[i].priority < LEVELS
    requires forall j :: 0 <= j < i ==> arrivals[j].priority != arrivals[i].priority
    ensures var p := arrivals[i].priority;
            levels[p] != [] && levels[p][0] == arrivals[i].id
              && Holds(levels[p := levels[p][1..]], Without(arrivals, i))
  {
    hide OfLevel, Ids;
    var p, rest := arrivals[i].priority, Without(arrivals, i);
    OfLevelWithout(arrivals, i, p);
    IdsTail(levels[p], OfLevel(arrivals, p), arrivals[i], OfLevel(rest, p));
    forall a | a in rest ensures a.priority < LEVELS { assert a in arrivals; }
    forall r | 0 <= r < LEVELS && r != p ensures levels[r] == Ids(OfLevel(rest, r)) {
      OfLevelWithout(arrivals, i, r);
      assert [] + OfLevel(rest, r) == OfLevel(rest, r);
    }
  }

  /** What happens to the queue: submissions, retries that are put back, and takes. */
  datatype Op = Submit(id: JobId, job: Job) | Requeue(id: JobId, priority: nat) | Take

  ghost predicate CanDo(q: Queue, op: Op)
    requires WellFormed(q)
  {
    match op
    case Submit(id, job) => id !in q.jobs && job.priority < LEVELS && HasRoom(q, job.priority)
    case Requeue(id, p) => id in q.jobs && q.jobs[id].priority == p && HasRoom(q, p)
    case Take => TopLevel(q.levels) < LEVELS
  }

  ghost function Do(q: Queue, op: Op): Queue
    requires WellFormed(q) && CanDo(q, op)
  {
    match op
    case Submit(id, job) => Enqueued(q, id, job)
    case Requeue(id, _) => Requeued(q, id)
    case Take => Dequeued(q, TopLevel(q.levels))
  }

  lemma DoWellFormed(q: Queue, op: Op)
    requires WellFormed(q) && CanDo(q, op)
    ensures WellFormed(Do(q, op))
  {
  }

  /** The four levels go through the operations, and the takes yield `taken`. */
  ghost predicate QueueRun(q: Queue, ops: seq<Op>, q': Queue, taken: seq<JobId>)
    requires WellFormed(q)
    decreases |ops|
  {
    if ops == [] then q' == q && taken == []
    else
      && CanDo(q, ops[0])
      && (DoWellFormed(q, ops[0]);
          if ops[0].Take?
          then taken != [] && taken[0] == q.levels[TopLevel(q.levels)][0]
            && QueueRun(Do(q, ops[0]), ops[1..], q', taken[1..])
          else QueueRun(Do(q, ops[0]), ops[1..], q', taken))
  }

  /** One list goes through the same operations: arrivals join its end, and each take yields the
      next arrival. */
  ghost predicate ServesInOrder(arrivals: seq<Arrival>, ops: seq<Op>, arrivals': seq<Arrival>, taken: seq<JobId>)
    decreases |ops|
  {
    if ops == [] then arrivals' == arrivals && taken == []
    else
      match ops[0]
      case Submit(id, job) => ServesInOrder(arrivals + [Arrival(id, job.priority)], ops[1..], arrivals', taken)
      case Requeue(id, p) => ServesInOrder(arrivals + [Arrival(id, p)], ops[1..], arrivals', taken)
      case Take =>
        exists i: nat :: IsNext(arrivals, i) && taken != [] && taken[0] == arrivals[i].id
                    && ServesInOrder(Without(arrivals, i), ops[1..], arrivals', taken[1..])
  }

  /** The four channels are one queue ordered by priority and then arrival, on every run of
      submissions, retries and takes; what is left at its end drains as a stable sort. */
  lemma {:induction false} RunIsOneQueue(q: Queue, arrivals: seq<Arrival>, ops: seq<Op>, q': Queue, taken: seq<JobId>)
    returns (arrivals': seq<Arrival>)
    requires WellFormed(q) && Holds(q.levels, arrivals) && QueueRun(q, ops, q', taken)
    ensures ServesInOrder(arrivals, ops, arrivals', taken)
    ensures Holds(q'.levels, arrivals') && Drain(q'.levels) == Ids(Sorted(arrivals'))
    decreases |ops|
  {
    if ops == [] {
      arrivals' := arrivals;
      DrainIsStableSort(q.levels, arrivals);
    } else {
      DoWellFormed(q, ops[0]);
      match ops[0] {
        case Submit(id, job) =>
          EnqueueHolds(q, arrivals, id, job);
          hide Holds, Drain, Sorted;
          arrivals' := RunIsOneQueue(Do(q, ops[0]), arrivals + [Arrival(id, job.priority)], ops[1..], q', taken);
        case Requeue(id, p) =>
          EnqueueHolds(q, arrivals, id, q.jobs[id]);
          hide Holds, Drain, Sorted;
          arrivals' := RunIsOneQueue(Do(q, ops[0]), arrivals + [Arrival(id, p)], ops[1..], q', taken);
        case Take =>
          var i := TakeHolds(q, arrivals);
          hide Holds, Drain, Sorted;
          arrivals' := RunIsOneQueue(Do(q, ops[0]), Without(arrivals, i), ops[1..], q', taken[1..]);
      }
    }
  }
}
