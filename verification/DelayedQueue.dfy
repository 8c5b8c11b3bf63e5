/** The list of delayed jobs and its concurrent drainers (internal/async/delayed_queue.go:66-233). */
module DelayedQueues {
  import opened Common

  const RETRY_DELAY := 1_000_000_000

  datatype Work = Work(event: nat, handler: nat, priority: int)

  /** A delayed job; `due` remembers the time its submitter asked for. */
  datatype Entry = Entry(work: Work, scheduledAt: int, due: int)

  predicate IsReady(e: Entry, now: int) {
    now >= e.scheduledAt
  }

  function Ready(jobs: seq<Entry>, now: int): seq<Entry> {
    if jobs == [] then []
    else
      var n := |jobs| - 1;
      if IsReady(jobs[n], now) then Ready(jobs[..n], now) + [jobs[n]] else Ready(jobs[..n], now)
  }

  function Remaining(jobs: seq<Entry>, now: int): seq<Entry> {
    if jobs == [] then []
    else
      var n := |jobs| - 1;
      if IsReady(jobs[n], now) then Remaining(jobs[..n], now) else Remaining(jobs[..n], now) + [jobs[n]]
  }

  /** An entry of the list is taken exactly when its time has come, and stays exactly when not. */
  lemma {:induction false} SplitBySchedule(jobs: seq<Entry>, now: int)
    ensures forall e :: e in Ready(jobs, now) <==> e in jobs && e.scheduledAt <= now
    ensures forall e :: e in Remaining(jobs, now) <==> e in jobs && now < e.scheduledAt
  {
    if jobs != [] {
      var n := |jobs| - 1;
      SplitBySchedule(jobs[..n], now);
      assert jobs == jobs[..n] + [jobs[n]];
    }
  }

  /** A job the main queue refused comes back a second later, as a new entry. */
  function Readded(e: Entry, now: int): Entry {
    Entry(e.work, now + RETRY_DELAY, e.due)
  }

  /** The entries of a batch that the main queue accepts, and the ones that come back. */
  function AcceptedOf(batch: seq<Entry>, accept: nat -> bool): seq<Entry> {
    if batch == [] then []
    else
      var n := |batch| - 1;
      if accept(n) then AcceptedOf(batch[..n], accept) + [batch[n]] else AcceptedOf(batch[..n], accept)
  }

  function ReaddedOf(batch: seq<Entry>, accept: nat -> bool, at: nat -> int): seq<Entry> {
    if batch == [] then []
    else
      var n := |batch| - 1;
      if accept(n) then ReaddedOf(batch[..n], accept, at)
        else ReaddedOf(batch[..n], accept, at) + [Readded(batch[n], at(n))]
  }

  /** Each entry of a batch is accepted or comes back. */
  lemma {:induction false} BatchIsHandled(batch: seq<Entry>, accept: nat -> bool, at: nat -> int)
    ensures forall e :: e in AcceptedOf(batch, accept) ==> e in batch
    ensures forall e :: e in batch && e !in AcceptedOf(batch, accept) ==>
              exists i :: !accept(i) && Entry(e.work, at(i) + 1_000_000_000, e.due) in ReaddedOf(batch, accept, at)
    ensures (forall i :: accept(i)) ==> AcceptedOf(batch, accept) == batch && ReaddedOf(batch, accept, at) == []
  {
    if batch != [] {
      var n := |batch| - 1;
      BatchIsHandled(batch[..n], accept, at);
      assert batch == batch[..n] + [batch[n]];
      var a, r := AcceptedOf(batch[..n], accept), ReaddedOf(batch[..n], accept, at);
      assert forall e :: e in a + [batch[n]] <==> e in a || e == batch[n];
      assert forall e :: e in r ==> e in ReaddedOf(batch, accept, at);
      assert !accept(n) ==> Entry(batch[n].work, at(n) + 1_000_000_000, batch[n].due) in ReaddedOf(batch, accept, at);
    }
  }

  class DelayedQueue {
    var jobs: seq<Entry>

    constructor ()
      ensures jobs == []
    {
      jobs := [];
    }

    method SubmitDelayedJob(work: Work, delay: int, now: int)
      modifies this
      ensures jobs == old(jobs) + [Entry(work, now + delay, now + delay)]
    {
      jobs := jobs + [Entry(work, now + delay, now + delay)];
    }

    /** The locked part of `processReadyJobs`: splits the list, keeping its order in both parts. */
    method TakeReady(now: int) returns (ready: seq<Entry>)
      modifies this
      ensures ready == Ready(old(jobs), now) && jobs == Remaining(old(jobs), now)
      ensures forall e :: e in ready <==> e in old(jobs) && e.scheduledAt <= now
      ensures forall e :: e in jobs <==> e in old(jobs) && now < e.scheduledAt
    {
      ready := [];
      var remaining := [];
      for i := 0 to |jobs|
        invariant jobs == old(jobs)
        invariant ready == Ready(jobs[..i], now) && remaining == Remaining(jobs[..i], now)
      {
        assert jobs[..i + 1][..i] == jobs[..i];
        if now >= jobs[i].scheduledAt {
          ready := ready + [jobs[i]];
        } else {
          remaining := remaining + [jobs[i]];
        }
      }
      assert jobs[..|jobs|] == jobs;
      SplitBySchedule(jobs, now);
      jobs := remaining;
    }

    /** `processReadyJobs` undisturbed: `accept` says which submissions to the main queue succeed,
        `at` when the failed ones are re-added. */
    method ProcessReadyJobs(now: int, accept: nat -> bool, at: nat -> int) returns (moved: seq<Entry>)
      modifies this
      ensures var batch := Ready(old(jobs), now);
              && moved == AcceptedOf(batch, accept)
              && jobs == Remaining(old(jobs), now) + ReaddedOf(batch, accept, at)
      ensures forall e :: e in moved ==> e in old(jobs) && e.scheduledAt <= now
      ensures forall e :: e in old(jobs) && e.scheduledAt <= now ==>
                e in moved || exists i :: !accept(i) && Entry(e.work, at(i) + 1_000_000_000, e.due) in jobs
      ensures forall e :: e in old(jobs) && now < e.scheduledAt ==> e in jobs
      ensures (forall i :: accept(i)) ==> forall e :: e in jobs <==> e in old(jobs) && now < e.scheduledAt
    {
      var ready := TakeReady(now);
      moved := [];
      for i := 0 to |ready|
        invariant moved == AcceptedOf(ready[..i], accept)
        invariant jobs == Remaining(old(jobs), now) + ReaddedOf(ready[..i], accept, at)
      {
        assert ready[..i + 1][..i] == ready[..i];
        if accept(i) {
          moved := moved + [ready[i]];
        } else {
          jobs := jobs + [Readded(ready[i], at(i))];
        }
      }
      assert ready[..|ready|] == ready;
      BatchIsHandled(ready, accept, at);
    }
  }

  // Concurrent drainers -----------------------------------------------------------------------------------

  /** One call of `processReadyJobs`: the list it found, and when. */
  datatype Call = Call(list: seq<Entry>, now: int)

  /** A drainer works through the batch it took in its current call; `next` is the first entry it
      has not handled. */
  datatype Drainer = Drainer(now: int, batch: seq<Entry>, next: nat, call: nat)

  datatype Move = Move(entry: Entry, at: int, call: nat)

  /** The calls and the submissions only record history. */
  datatype System = System(
    clock: int,
    jobs: seq<Entry>,
    drainers: seq<Drainer>,
    main: seq<Move>,
    calls: seq<Call>,
    submitted: seq<Entry>)

  datatype Event =
    | Submit(work: Work, delay: int, now: int)
    | Take(d: nat, now: int)
    | Hand(d: nat, accepted: bool, now: int)

  predicate Busy(d: Drainer) {
    d.next < |d.batch|
  }

  predicate CanStep(s: System, e: Event) {
    && e.now >= s.clock
    && match e
       case Submit(_, _, _) => true
       case Take(d, _) => d < |s.drainers| && !Busy(s.drainers[d])
       case Hand(d, _, _) => d < |s.drainers| && Busy(s.drainers[d])
  }

  function Step(s: System, e: Event): System
    requires CanStep(s, e)
  {
    match e
    case Submit(work, delay, now) =>
      var entry := Entry(work, now + delay, now + delay);
      s.(clock := now, jobs := s.jobs + [entry], submitted := s.submitted + [entry])
    case Take(d, now) =>
      s.(clock := now, jobs := Remaining(s.jobs, now), calls := s.calls + [Call(s.jobs, now)],
         drainers := s.drainers[d := Drainer(now, Ready(s.jobs, now), 0, |s.calls|)])
    case Hand(d, accepted, now) =>
      var dr := s.drainers[d];
      var entry := dr.batch[dr.next];
      var s1 := s.(clock := now, drainers := s.drainers[d := dr.(next := dr.next + 1)]);
      if accepted then s1.(main := s.main + [Move(entry, now, dr.call)])
      else s1.(jobs := s.jobs + [Readded(entry, now)])
  }

  function Start(drainers: nat, clock: int): System {
    System(clock, [], seq(drainers, _ => Drainer(clock, [], 0, 0)), [], [], [])
  }

  /** What identifies a submission: the work and the time it was asked for. */
  datatype Key = Key(work: Work, due: int)

  function KeyOf(e: Entry): Key {
    Key(e.work, e.due)
  }

  function Count(es: seq<Entry>, k: Key): nat {
    if es == [] then 0 else Count(es[..|es| - 1], k) + Bit(KeyOf(es[|es| - 1]) == k)
  }

  function Unhandled(d: Drainer): seq<Entry> {
    if d.next <= |d.batch| then d.batch[d.next..] else []
  }

  function Held(drainers: seq<Drainer>, k: Key): nat {
    if drainers == [] then 0 else Held(drainers[..|drainers| - 1], k) + Count(Unhandled(drainers[|drainers| - 1]), k)
  }

  function Moved(main: seq<Move>, k: Key): nat {
    if main == [] then 0 else Moved(main[..|main| - 1], k) + Bit(KeyOf(main[|main| - 1].entry) == k)
  }

  /** Nothing is lost and nothing is duplicated. */
  ghost predicate Conserved(s: System) {
    forall k: Key :: Count(s.jobs, k) + Held(s.drainers, k) + Moved(s.main, k) == Count(s.submitted, k)
  }

  /** Nothing is early: a drainer only holds entries whose time had come, and every move
      happened no earlier than its schedule and than the time first asked for. */
  ghost predicate OnTime(s: System) {
    && (forall i :: 0 <= i < |s.jobs| ==> s.jobs[i].due <= s.jobs[i].scheduledAt)
    && (forall d :: 0 <= d < |s.drainers| ==> BatchOnTime(s.drainers[d]) && s.drainers[d].now <= s.clock)
    && (forall i :: 0 <= i < |s.main| ==>
          s.main[i].entry.due <= s.main[i].entry.scheduledAt <= s.main[i].at <= s.clock)
  }

  ghost predicate BatchOnTime(d: Drainer) {
    forall i :: 0 <= i < |d.batch| ==> d.batch[i].due <= d.batch[i].scheduledAt <= d.now
  }

  lemma CountPush(es: seq<Entry>, e: Entry, k: Key)
    ensures Count(es + [e], k) == Count(es, k) + Bit(KeyOf(e) == k)
  {
    assert (es + [e])[..|es|] == es;
  }

  lemma {:induction false} CountPop(es: seq<Entry>, k: Key)
    requires es != []
    ensures Count(es, k) == Bit(KeyOf(es[0]) == k) + Count(es[1..], k)
  {
    var n := |es| - 1;
    if n > 0 {
      CountPop(es[..n], k);
      assert es[..n][1..] == es[1..][..n - 1];
    } else {
      assert es[..0] == [] && es[1..] == [];
    }
  }

  lemma {:induction false} SplitCount(jobs: seq<Entry>, now: int, k: Key)
    ensures Count(Ready(jobs, now), k) + Count(Remaining(jobs, now), k) == Count(jobs, k)
  {
    if jobs != [] {
      var n := |jobs| - 1;
      SplitCount(jobs[..n], now, k);
      if IsReady(jobs[n], now) {
        CountPush(Ready(jobs[..n], now), jobs[n], k);
      } else {
        CountPush(Remaining(jobs[..n], now), jobs[n], k);
      }
    }
  }

  lemma {:induction false} HeldUpdate(drainers: seq<Drainer>, d: nat, x: Drainer, k: Key)
    requires d < |drainers|
    ensures Held(drainers[d := x], k) == Held(drainers, k) - Count(Unhandled(drainers[d]), k) + Count(Unhandled(x), k)
  {
    hide Unhandled, Count;
    var n, drainers' := |drainers| - 1, drainers[d := x];
    if d == n {
      assert drainers'[..n] == drainers[..n];
    } else {
      assert drainers'[..n] == drainers[..n][d := x];
      HeldUpdate(drainers[..n], d, x, k);
    }
  }

  lemma MovedPush(main: seq<Move>, m: Move, k: Key)
    ensures Moved(main + [m], k) == Moved(main, k) + Bit(KeyOf(m.entry) == k)
  {
    assert (main + [m])[..|main|] == main;
  }

  lemma StepCount(s: System, e: Event, k: Key)
    requires CanStep(s, e)
    requires Count(s.jobs, k) + Held(s.drainers, k) + Moved(s.main, k) == Count(s.submitted, k)
    ensures var s' := Step(s, e); Count(s'.jobs, k) + Held(s'.drainers, k) + Moved(s'.main, k) == Count(s'.submitted, k)
  {
    match e {
      case Submit(work, delay, now) =>
        var entry := Entry(work, now + delay, now + delay);
        CountPush(s.jobs, entry, k);
        CountPush(s.submitted, entry, k);
      case Take(d, now) =>
        SplitCount(s.jobs, now, k);
        HeldUpdate(s.drainers, d, Drainer(now, Ready(s.jobs, now), 0, |s.calls|), k);
        assert Unhandled(Drainer(now, Ready(s.jobs, now), 0, |s.calls|)) == Ready(s.jobs, now);
        assert Unhandled(s.drainers[d]) == [];
      case Hand(d, accepted, now) =>
        var dr := s.drainers[d];
        var entry := dr.batch[dr.next];
        HeldUpdate(s.drainers, d, dr.(next := dr.next + 1), k);
        CountPop(Unhandled(dr), k);
        assert Unhandled(dr)[1..] == Unhandled(dr.(next := dr.next + 1));
        if accepted {
          MovedPush(s.main, Move(entry, now, dr.call), k);
        } else {
          CountPush(s.jobs, Readded(entry, now), k);
        }
    }
  }

  /** The parts of a split list: an entry is in one of them, in list order, by its schedule. */
  lemma {:induction false} SplitMembers(jobs: seq<Entry>, now: int)
    ensures forall i :: 0 <= i < |Ready(jobs, now)| ==> Ready(jobs, now)[i] in jobs && IsReady(Ready(jobs, now)[i], now)
    ensures forall i :: 0 <= i < |Remaining(jobs, now)| ==>
            Remaining(jobs, now)[i] in jobs && !IsReady(Remaining(jobs, now)[i], now)
  {
    if jobs != [] {
      var n := |jobs| - 1;
      SplitMembers(jobs[..n], now);
      assert forall e :: e in jobs[..n] ==> e in jobs;
      assert jobs[n] in jobs;
    }
  }

  lemma StepOnTime(s: System, e: Event)
    requires CanStep(s, e) && OnTime(s)
    ensures OnTime(Step(s, e))
  {
    match e {
      case Submit(work, delay, now) =>
      case Take(d, now) => SplitMembers(s.jobs, now);
      case Hand(d, accepted, now) =>
        var dr := s.drainers[d];
        var entry := dr.batch[dr.next];
        assert entry.due <= entry.scheduledAt <= now;
        assert BatchOnTime(dr.(next := dr.next + 1));
    }
  }

  ghost predicate Run(s: System, events: seq<Event>, s': System)
    decreases |events|
  {
    if events == [] then s == s'
    else CanStep(s, events[0]) && Run(Step(s, events[0]), events[1..], s')
  }

  lemma {:induction false} RunKeeps(s: System, events: seq<Event>, s': System)
    requires Conserved(s) && OnTime(s) && Run(s, events, s')
    ensures Conserved(s') && OnTime(s')
    decreases |events|
  {
    if events != [] {
      forall k: Key
        ensures var t := Step(s, events[0]);
                Count(t.jobs, k) + Held(t.drainers, k) + Moved(t.main, k) == Count(t.submitted, k)
      {
        StepCount(s, events[0], k);
      }
      StepOnTime(s, events[0]);
      hide OnTime, Step;
      RunKeeps(Step(s, events[0]), events[1..], s');
    }
  }

  lemma {:induction false} NobodyHolds(n: nat, clock: int, k: Key)
    ensures Held(seq(n, _ => Drainer(clock, [], 0, 0)), k) == 0
  {
    var ds := seq(n, _ => Drainer(clock, [], 0, 0));
    if n > 0 {
      assert ds[..n - 1] == seq(n - 1, _ => Drainer(clock, [], 0, 0));
      NobodyHolds(n - 1, clock, k);
    }
  }

  /** What was asked for: each submission is due when its delay is over. */
  function Asked(events: seq<Event>): seq<Entry> {
    if events == [] then []
    else
      var e := events[0];
      (if e.Submit? then [Entry(e.work, e.now + e.delay, e.now + e.delay)] else []) + Asked(events[1..])
  }

  lemma {:induction false} RunRecords(s: System, events: seq<Event>, s': System)
    requires Run(s, events, s')
    ensures s'.submitted == s.submitted + Asked(events)
    decreases |events|
  {
    if events != [] { RunRecords(Step(s, events[0]), events[1..], s'); }
  }

  /** Delayed jobs are never lost, duplicated or early, with any number of drainers: the list, the
      batches and the main queue hold what was asked for, and nothing is moved before its delay is
      over. */
  lemma NeverLostNorEarly(drainers: nat, clock: int, events: seq<Event>, s: System)
    requires Run(Start(drainers, clock), events, s)
    ensures Conserved(s) && OnTime(s) && s.submitted == Asked(events)
  {
    RunRecords(Start(drainers, clock), events, s);
    forall k: Key ensures Held(Start(drainers, clock).drainers, k) == 0 { NobodyHolds(drainers, clock, k); }
    RunKeeps(Start(drainers, clock), events, s);
  }

  // Not late either -------------------------------------------------------------------------------------------

  /** A drainer that splits the list takes all entries whose time has come: none is left behind. */
  lemma TakeLeavesNothingDue(s: System, d: nat, now: int)
    requires CanStep(s, Take(d, now))
    ensures var s' := Step(s, Take(d, now));
            && (forall e :: e in s'.jobs ==> now < e.scheduledAt)
            && (forall e :: e in s.jobs && e.scheduledAt <= now ==> e in s'.drainers[d].batch)
            && (forall e :: e in s.jobs && now < e.scheduledAt ==> e in s'.jobs)
  {
    SplitBySchedule(s.jobs, now);
  }

  ghost predicate HandedOver(main: seq<Move>, e: Entry, call: nat) {
    exists i :: 0 <= i < |main| && main[i].entry == e && main[i].call == call
  }

  /** A call has handed the entry over, or its drainer has it still before it. */
  ghost predicate OnItsWay(s: System, d: nat, call: nat, e: Entry) {
    && d < |s.drainers|
    && (HandedOver(s.main, e, call) || (s.drainers[d].call == call && e in Unhandled(s.drainers[d])))
  }

  predicate Refuses(ev: Event, d: nat) {
    ev.Hand? && ev.d == d && !ev.accepted
  }

  lemma StepOnItsWay(s: System, ev: Event, d: nat, call: nat, e: Entry)
    requires CanStep(s, ev) && OnItsWay(s, d, call, e) && !Refuses(ev, d)
    ensures OnItsWay(Step(s, ev), d, call, e)
  {
    var s' := Step(s, ev);
    hide Ready, Remaining, Readded;
    if HandedOver(s.main, e, call) {
      var i :| 0 <= i < |s.main| && s.main[i].entry == e && s.main[i].call == call;
      assert s'.main[i] == s.main[i];
    } else if ev.Hand? && ev.d == d {
      var dr := s.drainers[d];
      assert Unhandled(dr) == [dr.batch[dr.next]] + Unhandled(dr.(next := dr.next + 1));
      assert s'.main[|s.main|] == Move(dr.batch[dr.next], ev.now, dr.call);
    } else {
      assert s'.drainers[d] == s.drainers[d];
    }
  }

  lemma {:induction false} RunOnItsWay(s: System, events: seq<Event>, s': System, d: nat, call: nat, e: Entry)
    requires Run(s, events, s') && OnItsWay(s, d, call, e) && forall i :: 0 <= i < |events| ==> !Refuses(events[i], d)
    ensures OnItsWay(s', d, call, e)
    decreases |events|
  {
    if events != [] {
      StepOnItsWay(s, events[0], d, call, e);
      hide OnItsWay, Step;
      RunOnItsWay(Step(s, events[0]), events[1..], s', d, call, e);
    }
  }

  /** However the drainers interleave: once a call of `processReadyJobs` that was refused nothing
      is through its batch, it has handed over every entry whose time had come when it began. */
  lemma NeverLate(s: System, d: nat, now: int, events: seq<Event>, s': System, e: Entry)
    requires CanStep(s, Take(d, now)) && e in s.jobs && e.scheduledAt <= now
    requires Run(Step(s, Take(d, now)), events, s') && forall i :: 0 <= i < |events| ==> !Refuses(events[i], d)
    ensures d < |s'.drainers|
    ensures s'.drainers[d].next >= |s'.drainers[d].batch| ==>
              exists i :: 0 <= i < |s'.main| && s'.main[i].entry == e && s'.main[i].call == |s.calls|
  {
    TakeLeavesNothingDue(s, d, now);
    var dr := Step(s, Take(d, now)).drainers[d];
    assert Unhandled(dr) == dr.batch;
    RunOnItsWay(Step(s, Take(d, now)), events, s', d, |s.calls|, e);
  }

  // Order ---------------------------------------------------------------------------------------------------

  /** `sub` is `s` with entries left out. */
  ghost predicate Subsequence(sub: seq<Entry>, s: seq<Entry>) {
    if sub == [] then true
    else if s == [] then false
    else
      var m, n := |sub| - 1, |s| - 1;
      (sub[m] == s[n] && Subsequence(sub[..m], s[..n])) || Subsequence(sub, s[..n])
  }

  /** Both parts of the split, and the accepted part of a batch, keep the order of the list. */
  lemma {:induction false} SplitKeepsOrder(jobs: seq<Entry>, now: int)
    ensures Subsequence(Ready(jobs, now), jobs) && Subsequence(Remaining(jobs, now), jobs)
  {
    if jobs != [] {
      var n := |jobs| - 1;
      SplitKeepsOrder(jobs[..n], now);
      var r, m := Ready(jobs[..n], now), Remaining(jobs[..n], now);
      assert (r + [jobs[n]])[..|r|] == r && (m + [jobs[n]])[..|m|] == m;
    }
  }

  lemma {:induction false} AcceptedKeepOrder(batch: seq<Entry>, accept: nat -> bool)
    ensures Subsequence(AcceptedOf(batch, accept), batch)
  {
    if batch != [] {
      var n := |batch| - 1;
      AcceptedKeepOrder(batch[..n], accept);
      var a := AcceptedOf(batch[..n], accept);
      assert (a + [batch[n]])[..|a|] == a;
    }
  }

  lemma {:induction false} SubsequencePrefix(sub: seq<Entry>, s: seq<Entry>, i: nat)
    requires i <= |s| && Subsequence(sub, s[..i])
    ensures Subsequence(sub, s)
    decreases |s|
  {
    if i < |s| {
      assert s[..|s| - 1][..i] == s[..i];
      SubsequencePrefix(sub, s[..|s| - 1], i);
    } else {
      assert s[..i] == s;
    }
  }

  lemma {:induction false} SubsequenceTrans(a: seq<Entry>, b: seq<Entry>, c: seq<Entry>)
    requires Subsequence(a, b) && Subsequence(b, c)
    ensures Subsequence(a, c)
    decreases |b| + |c|
  {
    if a != [] {
      var l, m, n := |a| - 1, |b| - 1, |c| - 1;
      if b[m] == c[n] && Subsequence(b[..m], c[..n]) {
        if a[l] == b[m] && Subsequence(a[..l], b[..m]) {
          SubsequenceTrans(a[..l], b[..m], c[..n]);
        } else {
          SubsequenceTrans(a, b[..m], c[..n]);
        }
      } else {
        SubsequenceTrans(a, b, c[..n]);
      }
    }
  }

  /** What one call has handed over, in that order. */
  function MovesOf(main: seq<Move>, call: nat): seq<Entry> {
    if main == [] then []
    else
      var n := |main| - 1;
      if main[n].call == call then MovesOf(main[..n], call) + [main[n].entry] else MovesOf(main[..n], call)
  }

  lemma MovesPush(main: seq<Move>, m: Move, call: nat)
    ensures MovesOf(main + [m], call) == MovesOf(main, call) + if m.call == call then [m.entry] else []
  {
    assert (main + [m])[..|main|] == main;
  }

  lemma {:induction false} NoMovesYet(main: seq<Move>, call: nat)
    requires forall i :: 0 <= i < |main| ==> main[i].call < call
    ensures MovesOf(main, call) == []
  {
    if main != [] { NoMovesYet(main[..|main| - 1], call); }
  }

  /** A drainer has handed over part of what it has handled of its batch, in order. */
  ghost predicate InStep(s: System, d: Drainer) {
    d.batch != [] ==>
      && d.call < |s.calls| && d.batch == Ready(s.calls[d.call].list, s.calls[d.call].now)
      && d.next <= |d.batch| && Subsequence(MovesOf(s.main, d.call), d.batch[..d.next])
  }

  ghost predicate Ordered(s: System) {
    && (forall i :: 0 <= i < |s.main| ==> s.main[i].call < |s.calls|)
    && (forall d :: 0 <= d < |s.drainers| ==> InStep(s, s.drainers[d]))
    && (forall c, d :: 0 <= c < d < |s.drainers| && s.drainers[c].batch != [] && s.drainers[d].batch != [] ==>
          s.drainers[c].call != s.drainers[d].call)
    && (forall k :: 0 <= k < |s.calls| ==> Subsequence(MovesOf(s.main, k), Ready(s.calls[k].list, s.calls[k].now)))
  }

  lemma TakeOrdered(s: System, d: nat, now: int)
    requires CanStep(s, Take(d, now)) && Ordered(s)
    ensures Ordered(Step(s, Take(d, now)))
  {
    hide Ready, Remaining, MovesOf;
    var s' := Step(s, Take(d, now));
    NoMovesYet(s.main, |s.calls|);
    forall c | 0 <= c < |s'.drainers| ensures InStep(s', s'.drainers[c]) {
      if c != d { assert InStep(s, s.drainers[c]); }
    }
  }

  lemma HandledInOrder(moved: seq<Entry>, batch: seq<Entry>, n: nat, accepted: bool)
    requires n < |batch| && Subsequence(moved, batch[..n])
    ensures var moved' := if accepted then moved + [batch[n]] else moved;
            Subsequence(moved', batch[..n + 1]) && Subsequence(moved', batch)
  {
    assert batch[..n + 1][..n] == batch[..n] && (moved + [batch[n]])[..|moved|] == moved;
    SubsequencePrefix(if accepted then moved + [batch[n]] else moved, batch, n + 1);
  }

  lemma HandMoves(s: System, d: nat, accepted: bool, now: int, k: nat)
    requires CanStep(s, Hand(d, accepted, now))
    ensures var dr := s.drainers[d];
            MovesOf(Step(s, Hand(d, accepted, now)).main, k)
              == if accepted && k == dr.call then MovesOf(s.main, k) + [dr.batch[dr.next]] else MovesOf(s.main, k)
  {
    var dr := s.drainers[d];
    hide MovesOf, Readded;
    if accepted { MovesPush(s.main, Move(dr.batch[dr.next], now, dr.call), k); }
    assert MovesOf(s.main, k) + [] == MovesOf(s.main, k);
  }

  lemma HandInStep(s: System, d: nat, accepted: bool, now: int, c: nat)
    requires CanStep(s, Hand(d, accepted, now)) && c < |s.drainers|
    requires InStep(s, s.drainers[d]) && InStep(s, s.drainers[c])
    requires c != d && s.drainers[c].batch != [] ==> s.drainers[c].call != s.drainers[d].call
    ensures var s' := Step(s, Hand(d, accepted, now)); InStep(s', s'.drainers[c])
  {
    hide Ready, Readded, Subsequence, MovesOf;
    var dr := s.drainers[d];
    HandMoves(s, d, accepted, now, s.drainers[c].call);
    if c == d { HandledInOrder(MovesOf(s.main, dr.call), dr.batch, dr.next, accepted); }
  }

  lemma HandCall(s: System, d: nat, accepted: bool, now: int, k: nat)
    requires CanStep(s, Hand(d, accepted, now)) && InStep(s, s.drainers[d]) && k < |s.calls|
    requires Subsequence(MovesOf(s.main, k), Ready(s.calls[k].list, s.calls[k].now))
    ensures var s' := Step(s, Hand(d, accepted, now));
            s'.calls == s.calls && Subsequence(MovesOf(s'.main, k), Ready(s.calls[k].list, s.calls[k].now))
  {
    hide Ready, Readded, Subsequence, MovesOf;
    var dr := s.drainers[d];
    HandMoves(s, d, accepted, now, k);
    if k == dr.call { HandledInOrder(MovesOf(s.main, k), dr.batch, dr.next, accepted); }
  }

  lemma HandOrdered(s: System, d: nat, accepted: bool, now: int)
    requires CanStep(s, Hand(d, accepted, now)) && Ordered(s)
    ensures Ordered(Step(s, Hand(d, accepted, now)))
  {
    hide Ready, Readded, Subsequence, MovesOf;
    var s' := Step(s, Hand(d, accepted, now));
    assert InStep(s, s.drainers[d]) && s.drainers[d].call < |s.calls|;
    forall c | 0 <= c < |s'.drainers| ensures InStep(s', s'.drainers[c]) { HandInStep(s, d, accepted, now, c); }
    forall k | 0 <= k < |s'.calls| ensures Subsequence(MovesOf(s'.main, k), Ready(s'.calls[k].list, s'.calls[k].now)) {
      HandCall(s, d, accepted, now, k);
    }
    hide InStep;
  }

  lemma StepOrdered(s: System, e: Event)
    requires CanStep(s, e) && Ordered(s)
    ensures Ordered(Step(s, e))
  {
    match e {
      case Submit(work, delay, now) =>
        forall c | 0 <= c < |s.drainers| ensures InStep(Step(s, e), s.drainers[c]) { assert InStep(s, s.drainers[c]); }
      case Take(d, now) => TakeOrdered(s, d, now);
      case Hand(d, accepted, now) => HandOrdered(s, d, accepted, now);
    }
  }

  lemma {:induction false} RunOrdered(s: System, events: seq<Event>, s': System)
    requires Ordered(s) && Run(s, events, s')
    ensures Ordered(s')
    decreases |events|
  {
    if events != [] {
      StepOrdered(s, events[0]);
      hide Ordered, Step;
      RunOrdered(Step(s, events[0]), events[1..], s');
    }
  }

  /** However the drainers interleave, what one call hands over keeps the order of the list that
      the call found. */
  lemma CallKeepsOrder(drainers: nat, clock: int, events: seq<Event>, s: System, k: nat)
    requires Run(Start(drainers, clock), events, s) && k < |s.calls|
    ensures Subsequence(MovesOf(s.main, k), s.calls[k].list)
  {
    RunOrdered(Start(drainers, clock), events, s);
    SplitKeepsOrder(s.calls[k].list, s.calls[k].now);
    SubsequenceTrans(MovesOf(s.main, k), Ready(s.calls[k].list, s.calls[k].now), s.calls[k].list);
  }

  // Waiting for the list to drain ---------------------------------------------------------------------------

  ghost predicate AllMoved(s: System) {
    forall k: Key :: Moved(s.main, k) == Count(s.submitted, k)
  }

  lemma {:induction false} HeldBy(drainers: seq<Drainer>, d: nat)
    requires d < |drainers| && Busy(drainers[d])
    ensures Held(drainers, KeyOf(drainers[d].batch[drainers[d].next])) >= 1
  {
    var n := |drainers| - 1;
    var k := KeyOf(drainers[d].batch[drainers[d].next]);
    if d < n {
      HeldBy(drainers[..n], d);
    } else {
      CountPop(Unhandled(drainers[n]), k);
    }
  }

  lemma {:induction false} NobodyBusy(drainers: seq<Drainer>, k: Key)
    requires forall d :: 0 <= d < |drainers| ==> !Busy(drainers[d])
    ensures Held(drainers, k) == 0
  {
    if drainers != [] { NobodyBusy(drainers[..|drainers| - 1], k); }
  }

  /** `WaitForReadyJobs` reports success as soon as the list is empty. Then every job has
      reached the main queue exactly if no other drainer is still working on its batch. */
  lemma EmptyListMeansAllMovedIff(s: System)
    requires Conserved(s) && s.jobs == []
    ensures AllMoved(s) <==> forall d :: 0 <= d < |s.drainers| ==> !Busy(s.drainers[d])
  {
    if d :| 0 <= d < |s.drainers| && Busy(s.drainers[d]) {
      HeldBy(s.drainers, d);
      var k := KeyOf(s.drainers[d].batch[s.drainers[d].next]);
      assert Moved(s.main, k) < Count(s.submitted, k);
    } else {
      forall k: Key ensures Moved(s.main, k) == Count(s.submitted, k) { NobodyBusy(s.drainers, k); }
    }
  }

  /** It can happen with any number of drainers from one on: the list is empty as soon as a
      drainer has taken a job, before that job has reached the main queue. */
  lemma EmptyListWhileBusy(drainers: nat, clock: int, work: Work) returns (events: seq<Event>, s: System)
    requires drainers >= 1
    ensures Run(Start(drainers, clock), events, s) && |s.drainers| == drainers
    ensures s.jobs == [] && Busy(s.drainers[0]) && !AllMoved(s)
  {
    var s0 := Start(drainers, clock);
    var submit, take := Submit(work, 0, clock), Take(0, clock);
    SubmitThenTake(drainers, clock, work);
    var s1 := Step(s0, submit);
    s := Step(s1, take);
    events := [submit, take];
    hide Step, CanStep, Start;
    assert [take][1..] == [] && events[1..] == [take];
    assert Run(s1, [take], s);
    assert Run(Step(s0, events[0]), events[1..], s);
    assert Run(s0, events, s);
    hide Run;
    NeverLostNorEarly(drainers, clock, events, s);
    hide Conserved, OnTime, AllMoved;
    EmptyListMeansAllMovedIff(s);
  }

  lemma SubmitThenTake(drainers: nat, clock: int, work: Work)
    requires drainers >= 1
    ensures var s0, submit, take := Start(drainers, clock), Submit(work, 0, clock), Take(0, clock);
            && CanStep(s0, submit) && CanStep(Step(s0, submit), take)
            && var s := Step(Step(s0, submit), take);
               |s.drainers| == drainers && s.jobs == [] && Busy(s.drainers[0])
  {
    OnlyEntry(Entry(work, clock, clock), clock);
    assert Step(Start(drainers, clock), Submit(work, 0, clock)).jobs == [Entry(work, clock, clock)];
    hide Ready, Remaining;
  }

  lemma OnlyEntry(e: Entry, now: int)
    requires IsReady(e, now)
    ensures Ready([e], now) == [e] && Remaining([e], now) == []
  {
    assert [e][..0] == [];
  }
}
