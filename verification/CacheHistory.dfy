/** What every run of `AdvancedCache` has in common, whatever its strategy and whatever it evicts:
    an item is what the calls made of it, a hit is the value last set and in time, and each
    strategy evicts by the history of the keys (internal/cache/advanced_cache.go:157-481). */
module CacheHistories {
  import opened AdvancedCaches
  import opened Common
  import opened EvictionScans
  import opened Histories

  /** One call at time `now` on the cache, and what a `Get` finds. */
  ghost predicate CacheStep(policy: Policy, c: Cache, op: Op<Packed>, now: int, c': Cache, r: Option<Item>) {
    match op
    case Get(key) => c' == AfterGet(c, key, now) && r == Found(c, key, now)
    case Set(key, packed, ttl) => Sets(policy, c, key, NewItem(packed, ttl, now), now, c') && r == None
    case Delete(key) => c' == Removed(c, key) && r == None
    case Clear => c' == EMPTY && r == None
    case Cleanup =>
      && r == None
      && var c1 := Cleaned(c, now);
         if |c1.data| > policy.maxSize then Evicts(policy.strategy, c1, now, c') else c' == c1
  }

  const EMPTY := Cache(map[], 0)

  type Call = Event<Packed, Item>

  ghost predicate Run(policy: Policy, c: Cache, events: seq<Call>, c': Cache)
    decreases |events|
  {
    if events == [] then c' == c
    else
      var e := events[0];
      exists c1 :: CacheStep(policy, c, e.op, e.now, c1, e.found) && Run(policy, c1, events[1..], c')
  }

  lemma FirstStep(policy: Policy, c: Cache, events: seq<Call>, c': Cache) returns (c1: Cache)
    requires events != [] && Run(policy, c, events, c')
    ensures CacheStep(policy, c, events[0].op, events[0].now, c1, events[0].found)
    ensures Run(policy, c1, events[1..], c')
  {
    hide CacheStep;
    var e := events[0];
    c1 :| CacheStep(policy, c, e.op, e.now, c1, e.found) && Run(policy, c1, events[1..], c');
  }

  // The history of a key -------------------------------------------------------------------------------

  /** A value set with a time to live is good until it is over, and one set without for ever. */
  predicate InTime(e: Call, now: int)
    requires e.op.Set?
  {
    e.op.ttl <= 0 || now <= e.now + e.op.ttl
  }

  /** The item is what the calls made of it. */
  ghost predicate Describes(past: seq<Call>, key: string, item: Item) {
    && LastSet(past, key).Some?
    && var e := LastSet(past, key).value;
       && item.packed == e.op.payload && item.createdAt == e.now
       && item.expiresAt == (if e.op.ttl > 0 then Some(e.now + e.op.ttl) else None)
       && item.accessCount == Uses(past, key) && item.accessedAt == LastUse(past, key)
  }

  ghost predicate Follows(past: seq<Call>, c: Cache) {
    forall k :: k in c.data ==> Describes(past, k, c.data[k])
  }

  /** What a call can do to the item of a key. */
  lemma StepOnKey(policy: Policy, c: Cache, op: Op<Packed>, now: int, c': Cache, r: Option<Item>, key: string)
    requires CacheStep(policy, c, op, now, c', r) && key in c'.data
    ensures !op.Clear? && (op.Delete? ==> op.key != key)
    ensures if op.Set? && op.key == key then c'.data[key] == NewItem(op.payload, op.ttl, now)
            else key in c.data && c'.data[key] == if op.Get? && op.key == key then Touched(c.data[key], now)
                                                  else c.data[key]
  {
    hide Pressure, Evicts, Sets, TotalSize, Victim;
    match op {
      case Set(k, packed, ttl) => SetOnKeys(policy, c, k, NewItem(packed, ttl, now), now, c');
      case Cleanup =>
        var c1 := Cleaned(c, now);
        if |c1.data| > policy.maxSize { EvictsMemory(policy.strategy, c1, now, c'); }
      case _ =>
    }
  }

  /** The history of a key goes on as its item does. */
  lemma SetIsDescribed(past: seq<Call>, e: Call)
    requires e.op.Set?
    ensures Describes(past + [e], e.op.key, NewItem(e.op.payload, e.op.ttl, e.now))
  {
    JustSet(past, e);
    hide LastSet, Uses, LastUse;
  }

  lemma StillDescribed(past: seq<Call>, e: Call, key: string, item: Item)
    requires Describes(past, key, item) && !Stores(e, key) && !Forgets(e, key)
    ensures Describes(past + [e], key, if Asks(e, key) then Touched(item, e.now) else item)
  {
    GoesOn(past, e, key);
    hide LastSet, Uses, LastUse;
  }

  lemma StepFollows(policy: Policy, past: seq<Call>, c: Cache, e: Call, c': Cache)
    requires Follows(past, c) && CacheStep(policy, c, e.op, e.now, c', e.found)
    ensures Follows(past + [e], c')
  {
    hide CacheStep, Describes, NewItem, Touched;
    forall k | k in c'.data ensures Describes(past + [e], k, c'.data[k]) {
      StepOnKey(policy, c, e.op, e.now, c', e.found, k);
      if Stores(e, k) { SetIsDescribed(past, e); } else { StillDescribed(past, e, k, c.data[k]); }
    }
  }

  lemma {:induction false} RunFollows(policy: Policy, past: seq<Call>, c: Cache, events: seq<Call>, c': Cache)
    requires Follows(past, c) && Run(policy, c, events, c')
    ensures Follows(past + events, c')
    decreases |events|
  {
    if events == [] {
      assert past + events == past;
    } else {
      hide CacheStep, Follows;
      var c1 := FirstStep(policy, c, events, c');
      StepFollows(policy, past, c, events[0], c1);
      RunFollows(policy, past + [events[0]], c1, events[1..], c');
      assert past + [events[0]] + events[1..] == past + events;
    }
  }

  /** After every run from the empty cache, each item holds the value last set under its key, its
      creation is that `Set`, its expiry the time to live asked for, and its use the calls of `Get`
      since; and it is found exactly as long as it is in time. */
  lemma ItemIsItsHistory(policy: Policy, events: seq<Call>, c: Cache, key: string, now: int)
    requires Run(policy, EMPTY, events, c) && key in c.data
    ensures Describes(events, key, c.data[key])
    ensures var last := LastSet(events, key).value;
            Found(c, key, now) == if last.op.ttl <= 0 || now <= last.now + last.op.ttl then Some(c.data[key]) else None
  {
    RunFollows(policy, [], EMPTY, events, c);
    assert [] + events == events;
    hide Run;
  }

  // What a hit tells --------------------------------------------------------------------------------------

  /** The cache that the `j`-th call of a run finds. */
  lemma {:induction false} CacheAt(policy: Policy, c: Cache, events: seq<Call>, c': Cache, j: nat)
    returns (d: Cache, d': Cache)
    requires Run(policy, c, events, c') && j < |events|
    ensures Run(policy, c, events[..j], d)
    ensures CacheStep(policy, d, events[j].op, events[j].now, d', events[j].found)
    decreases |events|
  {
    hide CacheStep;
    var c1 := FirstStep(policy, c, events, c');
    if j == 0 {
      d, d' := c, c1;
      assert events[..0] == [];
    } else {
      d, d' := CacheAt(policy, c1, events[1..], c', j - 1);
      assert events[..j][1..] == events[1..][..j - 1] && events[..j][0] == events[0];
    }
  }

  /** On every run, for every strategy: what a `Get` finds is what was last set under its key, was
      neither deleted nor cleared since, and is in time. */
  lemma HitIsLastSet(policy: Policy, events: seq<Call>, c: Cache, j: nat)
    requires Run(policy, EMPTY, events, c) && j < |events| && events[j].op.Get? && events[j].found.Some?
    ensures var last := LastSet(events[..j], events[j].op.key);
            && last.Some? && events[j].found.value.packed == last.value.op.payload
            && (last.value.op.ttl <= 0 || events[j].now <= last.value.now + last.value.op.ttl)
  {
    var d, d' := CacheAt(policy, EMPTY, events, c, j);
    ItemIsItsHistory(policy, events[..j], d, events[j].op.key, events[j].now);
    hide Run, LastSet;
  }

  /** A value set with a time to live is not found any more once that is over: whatever the
      strategy and whatever was called since, unless the key was set again. */
  lemma ExpiredIsNotFound(policy: Policy, events: seq<Call>, c: Cache, i: nat, j: nat)
    requires Run(policy, EMPTY, events, c) && i < j < |events|
    requires events[i].op.Set? && events[j].op.Get? && events[j].op.key == events[i].op.key
    requires forall k :: i < k < j ==> !(events[k].op.Set? && events[k].op.key == events[i].op.key)
    requires events[i].op.ttl > 0 && events[j].now > events[i].now + events[i].op.ttl
    ensures events[j].found == None
  {
    LastSetIs(events[..j], i, events[i].op.key);
    if events[j].found.Some? { HitIsLastSet(policy, events, c, j); }
  }

  /** A cleanup leaves no item that is out of time, and as long as the others are within the limit,
      every one that is in time. */
  lemma CleanupLeavesLive(policy: Policy, past: seq<Call>, c: Cache, now: int, c': Cache, key: string)
    requires Run(policy, EMPTY, past, c) && CacheStep(policy, c, Cleanup, now, c', None) && key in c.data
    ensures LastSet(past, key).Some?
    ensures var last := LastSet(past, key).value;
            && (key in c'.data ==> last.op.ttl <= 0 || now <= last.now + last.op.ttl)
            && (|c.data| <= policy.maxSize && (last.op.ttl <= 0 || now <= last.now + last.op.ttl) ==> key in c'.data)
  {
    ItemIsItsHistory(policy, past, c, key, now);
    var c1 := Cleaned(c, now);
    FewerKeys(c1.data, c.data);
    if |c1.data| > policy.maxSize { EvictsMemory(policy.strategy, c1, now, c'); }
    hide Run, LastSet, Evicts, TotalSize;
  }

  // The TTL strategy ----------------------------------------------------------------------------------------

  lemma LiveItemsStay(policy: Policy, c: Cache, op: Op<Packed>, now: int, c': Cache, r: Option<Item>, key: string)
    requires policy.strategy == TTL && CacheStep(policy, c, op, now, c', r)
    requires (op.Set? && op.key == key) || (key in c.data && !Expired(c.data[key], now))
    requires !op.Clear? && !(op.Delete? && op.key == key)
    ensures key in c'.data
  {
    hide Pressure, TotalSize, Sets;
    match op {
      case Set(k, packed, ttl) => var c1 := SetsElim(policy, c, k, NewItem(packed, ttl, now), now, c');
      case _ =>
    }
  }

  ghost predicate InOrder(events: seq<Call>) {
    forall i, j :: 0 <= i < j < |events| ==> events[i].now <= events[j].now
  }

  /** Everything that is in time is stored. */
  ghost predicate KeepsLive(past: seq<Call>, c: Cache) {
    forall k, now | LastSet(past, k).Some? && InTime(LastSet(past, k).value, now) ::
      (forall i :: 0 <= i < |past| ==> past[i].now <= now) ==> k in c.data
  }

  lemma StepKeepsLive(policy: Policy, past: seq<Call>, c: Cache, e: Call, c': Cache)
    requires policy.strategy == TTL && Follows(past, c) && KeepsLive(past, c) && InOrder(past + [e])
    requires CacheStep(policy, c, e.op, e.now, c', e.found)
    ensures KeepsLive(past + [e], c')
  {
    var past' := past + [e];
    forall k, now | LastSet(past', k).Some? && InTime(LastSet(past', k).value, now)
                    && forall i :: 0 <= i < |past'| ==> past'[i].now <= now
      ensures k in c'.data
    {
      assert past'[|past|].now <= now;
      assert forall i :: 0 <= i < |past| ==> past[i] == past'[i] && past[i].now <= e.now;
      if !(e.op.Set? && e.op.key == k) {
        assert LastSet(past, k) == LastSet(past', k) && InTime(LastSet(past, k).value, e.now);
        assert k in c.data && Describes(past, k, c.data[k]);
      }
      hide CacheStep;
      LiveItemsStay(policy, c, e.op, e.now, c', e.found, k);
    }
  }

  lemma {:induction false} RunKeepsLive(policy: Policy, past: seq<Call>, c: Cache, events: seq<Call>, c': Cache)
    requires policy.strategy == TTL && Follows(past, c) && KeepsLive(past, c) && InOrder(past + events)
    requires Run(policy, c, events, c')
    ensures KeepsLive(past + events, c')
    decreases |events|
  {
    if events == [] {
      assert past + events == past;
    } else {
      var past' := past + [events[0]];
      assert past' + events[1..] == past + events;
      assert forall i :: 0 <= i < |past'| ==> past'[i] == (past + events)[i];
      hide CacheStep, Follows, KeepsLive;
      var c1 := FirstStep(policy, c, events, c');
      StepFollows(policy, past, c, events[0], c1);
      StepKeepsLive(policy, past, c, events[0], c1);
      RunKeepsLive(policy, past', c1, events[1..], c');
    }
  }

  /** With the TTL strategy the cache is a plain map with expiry, however full it is: on every run
      whose clock does not go back, a `Get` finds something exactly if its key was set, was neither
      deleted nor cleared since, and is in time. */
  lemma TtlIsPlainMap(policy: Policy, events: seq<Call>, c: Cache, j: nat)
    requires policy.strategy == TTL && Run(policy, EMPTY, events, c) && InOrder(events)
    requires j < |events| && events[j].op.Get?
    ensures events[j].found.Some? <==>
              var last := LastSet(events[..j], events[j].op.key);
              last.Some? && (last.value.op.ttl <= 0 || events[j].now <= last.value.now + last.value.op.ttl)
  {
    var past, key, now := events[..j], events[j].op.key, events[j].now;
    var d, d' := CacheAt(policy, EMPTY, events, c, j);
    RunKeepsLive(policy, [], EMPTY, past, d);
    assert [] + past == past;
    if key in d.data { ItemIsItsHistory(policy, past, d, key, now); }
    hide Run;
    assert forall i :: 0 <= i < |past| ==> past[i].now == events[i].now <= now;
    assert LastSet(past, key).Some? && InTime(LastSet(past, key).value, now) ==> key in d.data;
  }

  // What each strategy evicts ----------------------------------------------------------------------------------

  /** The strategies, in terms of the calls: with `TTL` an item goes when it is out of time, with the
      others no remaining one came before it. */
  ghost predicate GoesFirst(strategy: Strategy, past: seq<Call>, k: string, keys: set<string>, now: int) {
    match strategy
    case LRU => forall j :: j in keys ==> LastUse(past, k) <= LastUse(past, j)
    case FIFO =>
      && LastSet(past, k).Some?
      && forall j :: j in keys ==> LastSet(past, j).Some? && LastSet(past, k).value.now <= LastSet(past, j).value.now
    case TTL => LastSet(past, k).Some? && !InTime(LastSet(past, k).value, now)
    case _ => forall j :: j in keys ==> Uses(past, k) <= Uses(past, j)
  }

  lemma EvictedGoesFirst(strategy: Strategy, past: seq<Call>, c: Cache, now: int, c': Cache, k: string)
    requires Follows(past, c) && Evicts(strategy, c, now, c') && "" !in c.data && k in c.data && k !in c'.data
    ensures GoesFirst(strategy, past, k, c.data.Keys, now)
  {
    assert Describes(past, k, c.data[k]);
    if strategy != TTL {
      LosesOnlyExposed(strategy, c, k, now, c');
      var scores := ScoresOf(strategy, c.data);
      hide EvictsOne;
      forall j | j in c.data ensures scores[k] <= scores[j] && Describes(past, j, c.data[j]) {
        assert j in scores && j != "";
      }
    }
    hide Evicts;
  }

  lemma PutFollows(past: seq<Call>, c: Cache, e: Call)
    requires Follows(past, c) && e.op.Set?
    ensures Follows(past + [e], Put(c, e.op.key, NewItem(e.op.payload, e.op.ttl, e.now)))
  {
    hide Describes, NewItem, Touched;
    SetIsDescribed(past, e);
    forall k | k in c.data && k != e.op.key ensures Describes(past + [e], k, c.data[k]) {
      StillDescribed(past, e, k, c.data[k]);
    }
  }

  /** What `Set` evicts when the cache is full, after every run with non-empty keys: with `LRU` the
      key unused for longest, with `FIFO` the one set first, with `LFU` and `Adaptive` one asked
      for least often since it was set, the key just set included; with `TTL` one out of time. */
  lemma SetEvictsFirst(policy: Policy, past: seq<Call>, c: Cache, e: Call, c': Cache, k: string)
    requires Run(policy, EMPTY, past, c) && CacheStep(policy, c, e.op, e.now, c', e.found) && e.op.Set?
    requires "" !in c.data && e.op.key != "" && !Pressure(policy, c, |e.op.payload.bytes|)
    requires k in c.data.Keys + {e.op.key} && k !in c'.data
    ensures GoesFirst(policy.strategy, past + [e], k, c.data.Keys + {e.op.key}, e.now)
  {
    var item := NewItem(e.op.payload, e.op.ttl, e.now);
    assert Sets(policy, c, e.op.key, item, e.now, c') && item.packed == e.op.payload;
    hide Run, CacheStep, NewItem, Sets, Pressure, Evicts, Follows, GoesFirst, Put;
    EvictedAfterPut(policy, c, e.op.key, item, e.now, c', k);
    RunFollows(policy, [], EMPTY, past, c);
    assert [] + past == past;
    PutFollows(past, c, e);
    EvictedGoesFirst(policy.strategy, past + [e], Put(c, e.op.key, item), e.now, c', k);
  }

  lemma EvictedAfterPut(policy: Policy, c: Cache, key: string, item: Item, now: int, c': Cache, k: string)
    requires Sets(policy, c, key, item, now, c') && !Pressure(policy, c, item.Size())
    requires k in c.data.Keys + {key} && k !in c'.data
    ensures Evicts(policy.strategy, Put(c, key, item), now, c')
    ensures Put(c, key, item).data.Keys == c.data.Keys + {key}
  {
    hide Pressure, Evicts, Sets;
    var c1 := SetsElim(policy, c, key, item, now, c');
  }
}
