/** What every run of one level of the two-level cache has in common: an item is what the calls made
    of it, a hit is the value last set and in time, and what is evicted has been used least, and
    among those was set first (internal/cache/cache.go:73-205). */
module MemoryHistories {
  import opened Common
  import opened Histories
  import opened MultiLevelCaches

  ghost predicate MemoryStep<V(!new)>(maxSize: int, m: Data<V>, op: Op<V>, now: int, m': Data<V>, r: Option<V>) {
    match op
    case Get(key) => m' == AfterGet(m, key, now) && r == Found(m, key, now)
    case Set(key, value, ttl) => Sets(m, maxSize, key, Item(value, now + ttl, now, 0), m') && r == None
    case Delete(key) => m' == m - {key} && r == None
    case Clear => m' == map[] && r == None
    case Cleanup => m' == Unexpired(m, now) && r == None
  }

  ghost predicate Run<V(!new)>(maxSize: int, m: Data<V>, events: seq<Event<V, V>>, m': Data<V>)
    decreases |events|
  {
    if events == [] then m' == m
    else
      var e := events[0];
      exists m1 :: MemoryStep(maxSize, m, e.op, e.now, m1, e.found) && Run(maxSize, m1, events[1..], m')
  }

  lemma FirstStep<V(!new)>(maxSize: int, m: Data<V>, events: seq<Event<V, V>>, m': Data<V>) returns (m1: Data<V>)
    requires events != [] && Run(maxSize, m, events, m')
    ensures MemoryStep(maxSize, m, events[0].op, events[0].now, m1, events[0].found)
    ensures Run(maxSize, m1, events[1..], m')
  {
    hide MemoryStep;
    var e := events[0];
    m1 :| MemoryStep(maxSize, m, e.op, e.now, m1, e.found) && Run(maxSize, m1, events[1..], m');
  }

  /** The item is what the calls made of it. */
  ghost predicate Describes<V(!new)>(past: seq<Event<V, V>>, key: string, item: Item<V>) {
    && LastSet(past, key).Some?
    && var e := LastSet(past, key).value;
       item == Item(e.op.payload, e.now + e.op.ttl, e.now, Uses(past, key))
  }

  ghost predicate Follows<V(!new)>(past: seq<Event<V, V>>, m: Data<V>) {
    forall k :: k in m ==> Describes(past, k, m[k])
  }

  lemma SetIsDescribed<V(!new)>(past: seq<Event<V, V>>, e: Event<V, V>)
    requires e.op.Set?
    ensures Describes(past + [e], e.op.key, Item(e.op.payload, e.now + e.op.ttl, e.now, 0))
  {
    JustSet(past, e);
    hide LastSet, Uses;
  }

  lemma StillDescribed<V(!new)>(past: seq<Event<V, V>>, e: Event<V, V>, key: string, item: Item<V>)
    requires Describes(past, key, item) && !Stores(e, key) && !Forgets(e, key)
    ensures Describes(past + [e], key, item.(accessCount := item.accessCount + Bit(Asks(e, key))))
  {
    GoesOn(past, e, key);
    hide LastSet, Uses;
  }

  /** What a call can do to the item of a key. */
  lemma StepOnKey<V(!new)>(maxSize: int, m: Data<V>, e: Event<V, V>, m': Data<V>, key: string)
    requires MemoryStep(maxSize, m, e.op, e.now, m', e.found) && key in m'
    ensures !Forgets(e, key)
    ensures if Stores(e, key) then m'[key] == Item(e.op.payload, e.now + e.op.ttl, e.now, 0)
            else key in m && m'[key] == m[key].(accessCount := m[key].accessCount + Bit(Asks(e, key)))
  {
  }

  lemma StepFollows<V(!new)>(maxSize: int, past: seq<Event<V, V>>, m: Data<V>, e: Event<V, V>, m': Data<V>)
    requires Follows(past, m) && MemoryStep(maxSize, m, e.op, e.now, m', e.found)
    ensures Follows(past + [e], m')
  {
    hide MemoryStep, Describes;
    forall k | k in m' ensures Describes(past + [e], k, m'[k]) {
      StepOnKey(maxSize, m, e, m', k);
      if Stores(e, k) { SetIsDescribed(past, e); } else { StillDescribed(past, e, k, m[k]); }
    }
  }

  lemma {:induction false} RunFollows<V(!new)>(maxSize: int, past: seq<Event<V, V>>, m: Data<V>,
                                               events: seq<Event<V, V>>, m': Data<V>)
    requires Follows(past, m) && Run(maxSize, m, events, m')
    ensures Follows(past + events, m')
    decreases |events|
  {
    if events == [] {
      assert past + events == past;
    } else {
      hide MemoryStep, Follows;
      var m1 := FirstStep(maxSize, m, events, m');
      StepFollows(maxSize, past, m, events[0], m1);
      RunFollows(maxSize, past + [events[0]], m1, events[1..], m');
      assert past + [events[0]] + events[1..] == past + events;
    }
  }

  /** After every run from the empty cache, each item holds the value last set under its key, until
      the time to live asked for is over, and counts the calls of `Get` since; and it is found
      exactly until then. */
  lemma ItemIsItsHistory<V(!new)>(maxSize: int, events: seq<Event<V, V>>, m: Data<V>, key: string, now: int)
    requires Run(maxSize, map[], events, m) && key in m
    ensures LastSet(events, key).Some?
    ensures var last := LastSet(events, key).value;
            && m[key] == Item(last.op.payload, last.now + last.op.ttl, last.now, Uses(events, key))
            && Found(m, key, now) == if now <= last.now + last.op.ttl then Some(last.op.payload) else None
  {
    RunTells(maxSize, events, m);
    hide Run;
  }

  lemma RunTells<V(!new)>(maxSize: int, events: seq<Event<V, V>>, m: Data<V>)
    requires Run(maxSize, map[], events, m)
    ensures Follows(events, m)
  {
    hide Run, Describes;
    RunFollows(maxSize, [], map[], events, m);
    assert [] + events == events;
  }

  /** A cleanup leaves exactly the items that are in time. */
  lemma CleanupLeavesLive<V(!new)>(maxSize: int, past: seq<Event<V, V>>, m: Data<V>, now: int, m': Data<V>, key: string)
    requires Run(maxSize, map[], past, m) && MemoryStep(maxSize, m, Cleanup, now, m', None) && key in m
    ensures LastSet(past, key).Some?
    ensures var last := LastSet(past, key).value; key in m' <==> now <= last.now + last.op.ttl
  {
    ItemIsItsHistory(maxSize, past, m, key, now);
    hide Run, LastSet;
  }

  lemma VictimIsLowest<V(!new)>(maxSize: int, m: Data<V>, key: string, item: Item<V>, m': Data<V>, k: string)
    requires Sets(m, maxSize, key, item, m') && k in m && k !in m'
    ensures |m| >= maxSize && Lowest(m, k) && m'.Keys == m.Keys - {k} + {key}
  {
    var e :| Evicts(m, e) && m' == e[key := item];
    hide Lowest;
    var j :| Lowest(m, j) && e == if j == "" then m else m - {j};
  }

  lemma LowestIsLeastUsed<V(!new)>(past: seq<Event<V, V>>, m: Data<V>, k: string, j: string)
    requires Follows(past, m) && Lowest(m, k) && j in m
    ensures LastSet(past, k).Some? && LastSet(past, j).Some?
    ensures Uses(past, k) < Uses(past, j)
            || (Uses(past, k) == Uses(past, j) && LastSet(past, k).value.now <= LastSet(past, j).value.now)
  {
    hide LastSet, Uses;
    assert Describes(past, k, m[k]) && Describes(past, j, m[j]) && NotAfter(m[k], m[j]);
  }

  /** What `Set` evicts from a full cache, after every run: a key that has been
      asked for no more often than any other since it was set, and if as often, that was set no
      later. At most one key goes. */
  lemma SetEvictsLeastUsed<V(!new)>(maxSize: int, past: seq<Event<V, V>>, m: Data<V>, key: string, value: V, ttl: int,
                                    now: int, m': Data<V>, k: string, j: string)
    requires Run(maxSize, map[], past, m) && MemoryStep(maxSize, m, Set(key, value, ttl), now, m', None)
    requires k in m && k !in m' && j in m
    ensures |m| >= maxSize && m'.Keys == m.Keys - {k} + {key}
    ensures LastSet(past, k).Some? && LastSet(past, j).Some?
    ensures Uses(past, k) < Uses(past, j)
            || (Uses(past, k) == Uses(past, j) && LastSet(past, k).value.now <= LastSet(past, j).value.now)
  {
    hide Run, LastSet, Uses, Follows, Lowest, Sets, Evicts;
    assert Sets(m, maxSize, key, Item(value, now + ttl, now, 0), m');
    hide MemoryStep;
    VictimIsLowest(maxSize, m, key, Item(value, now + ttl, now, 0), m', k);
    RunTells(maxSize, past, m);
    LowestIsLeastUsed(past, m, k, j);
  }
}
