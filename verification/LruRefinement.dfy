/** With the LRU strategy the timestamped map of `AdvancedCache` behaves, call by call, like a
    list that keeps the most recently used item in front
    (internal/cache/advanced_cache.go:157-380). */
module LruRefinement {
  import opened AdvancedCaches
  import opened CacheHistories
  import opened Common
  import opened EvictionScans
  import opened Histories

  // The move-to-front list ------------------------------------------------------------------------------

  datatype Entry = Entry(key: string, item: Item)

  datatype Lru = Lru(entries: seq<Entry>, memory: int)

  /** An item without its time stamp: the list has no clock. */
  function Core(i: Item): Item {
    i.(accessedAt := 0)
  }

  /** The position of a key, or the length of the list. */
  function Position(es: seq<Entry>, key: string): (p: nat)
    ensures p <= |es| && (p < |es| ==> es[p].key == key)
    ensures forall i :: 0 <= i < p ==> es[i].key != key
  {
    if es == [] || es[0].key == key then 0 else 1 + Position(es[1..], key)
  }

  function DropAt(l: Lru, p: nat): Lru
    requires p < |l.entries|
  {
    Lru(l.entries[..p] + l.entries[p + 1..], l.memory - l.entries[p].item.Size())
  }

  function Evicted(l: Lru): Lru {
    if l.entries == [] then l else DropAt(l, |l.entries| - 1)
  }

  function ToFront(l: Lru, key: string, item: Item): Lru {
    var p := Position(l.entries, key);
    l.(entries := [Entry(key, item)] + if p < |l.entries| then DropAt(l, p).entries else l.entries)
  }

  function Lookup(l: Lru, key: string, now: int): Option<Item> {
    var p := Position(l.entries, key);
    if p < |l.entries| && !Expired(l.entries[p].item, now) then Some(l.entries[p].item) else None
  }

  function ListGet(l: Lru, key: string, now: int): Lru {
    var p := Position(l.entries, key);
    if p == |l.entries| then l
    else
      var item := l.entries[p].item;
      if Expired(item, now) then l.(entries := DropAt(l, p).entries)
      else ToFront(l, key, item.(accessCount := item.accessCount + 1))
  }

  predicate ListPressure(policy: Policy, l: Lru, size: nat) {
    l.memory / MEGABYTE + size / MEGABYTE > policy.maxMemoryMB
  }

  function ListSet(policy: Policy, l: Lru, key: string, item: Item): Lru {
    var l1 := if ListPressure(policy, l, item.Size()) then Evicted(l) else l;
    var l2 := ToFront(l1.(memory := l1.memory + item.Size()), key, item);
    if |l2.entries| > policy.maxSize then Evicted(l2) else l2
  }

  function ListDelete(l: Lru, key: string): Lru {
    var p := Position(l.entries, key);
    if p < |l.entries| then DropAt(l, p) else l
  }

  function FirstExpired(es: seq<Entry>, now: int): (p: nat)
    ensures p <= |es| && (p < |es| ==> Expired(es[p].item, now))
    ensures forall i :: 0 <= i < p ==> !Expired(es[i].item, now)
  {
    if es == [] || Expired(es[0].item, now) then 0 else 1 + FirstExpired(es[1..], now)
  }

  function ListClean(l: Lru, now: int): Lru
    decreases |l.entries|
  {
    var p := FirstExpired(l.entries, now);
    if p == |l.entries| then l else ListClean(DropAt(l, p), now)
  }

  // The abstraction --------------------------------------------------------------------------------------

  /** The list holds the map's items in the order of their time stamps, newest first, and all
      stamps are at most `clock`. */
  ghost predicate Lists(es: seq<Entry>, d: Data, clock: int) {
    if es == [] then d == map[]
    else
      var k := es[0].key;
      && k in d && k != "" && es[0].item == Core(d[k]) && d[k].accessedAt <= clock
      && Lists(es[1..], d - {k}, d[k].accessedAt - 1)
  }

  ghost predicate Represents(l: Lru, c: Cache, clock: int) {
    l.memory == c.memory && Lists(l.entries, c.data, clock)
  }

  lemma ListsLater(es: seq<Entry>, d: Data, clock: int, later: int)
    requires Lists(es, d, clock) && clock <= later
    ensures Lists(es, d, later)
  {
  }

  /** Looking a key up in the list and in the map gives the same item. */
  lemma {:induction false} ListsPosition(es: seq<Entry>, d: Data, clock: int, k: string)
    requires Lists(es, d, clock)
    ensures |es| == |d|
    ensures k in d <==> Position(es, k) < |es|
    ensures k in d ==> k != "" && es[Position(es, k)].item == Core(d[k]) && d[k].accessedAt <= clock
  {
    if es != [] {
      var k0 := es[0].key;
      assert (d - {k0}).Keys == d.Keys - {k0};
      ListsPosition(es[1..], d - {k0}, d[k0].accessedAt - 1, k);
    }
  }

  lemma {:induction false} ListsIndex(es: seq<Entry>, d: Data, clock: int, p: nat)
    requires Lists(es, d, clock) && p < |es|
    ensures es[p].key in d && es[p].item == Core(d[es[p].key]) && d[es[p].key].accessedAt <= clock
  {
    if p > 0 {
      var k0 := es[0].key;
      ListsIndex(es[1..], d - {k0}, d[k0].accessedAt - 1, p - 1);
    }
  }

  lemma {:induction false} ListsDrop(es: seq<Entry>, d: Data, clock: int, p: nat)
    requires Lists(es, d, clock) && p < |es|
    ensures Lists(es[..p] + es[p + 1..], d - {es[p].key}, clock)
    decreases p
  {
    var k0, k := es[0].key, es[p].key;
    var fs := es[..p] + es[p + 1..];
    if p == 0 {
      assert fs == es[1..];
      ListsLater(es[1..], d - {k0}, d[k0].accessedAt - 1, clock);
    } else {
      ListsIndex(es[1..], d - {k0}, d[k0].accessedAt - 1, p - 1);
      ListsDrop(es[1..], d - {k0}, d[k0].accessedAt - 1, p - 1);
      assert fs[1..] == es[1..][..p - 1] + es[1..][p..];
      assert d - {k} - {k0} == d - {k0} - {k};
    }
  }

  lemma DropRepresents(l: Lru, c: Cache, clock: int, p: nat)
    requires Represents(l, c, clock) && p < |l.entries|
    ensures Represents(DropAt(l, p), Removed(c, l.entries[p].key), clock)
  {
    ListsIndex(l.entries, c.data, clock, p);
    ListsDrop(l.entries, c.data, clock, p);
  }

  lemma ListsPush(es: seq<Entry>, d: Data, clock: int, key: string, item: Item, now: int)
    requires Lists(es, d, clock) && key !in d && key != "" && item.accessedAt == now > clock
    ensures Lists([Entry(key, Core(item))] + es, d[key := item], now)
  {
    var fs := [Entry(key, Core(item))] + es;
    assert fs[1..] == es && d[key := item] - {key} == d;
    ListsLater(es, d, clock, now - 1);
  }

  /** Moving to the front is stamping with the current time. */
  lemma ListsToFront(l: Lru, d: Data, clock: int, key: string, item: Item, now: int)
    requires Lists(l.entries, d, clock) && key != "" && item.accessedAt == now > clock
    ensures Lists(ToFront(l, key, Core(item)).entries, d[key := item], now)
  {
    var p := Position(l.entries, key);
    ListsPosition(l.entries, d, clock, key);
    if key in d {
      ListsDrop(l.entries, d, clock, p);
      ListsPush(l.entries[..p] + l.entries[p + 1..], d - {key}, clock, key, item, now);
      assert (d - {key})[key := item] == d[key := item];
    } else {
      ListsPush(l.entries, d, clock, key, item, now);
    }
  }

  // The victim ---------------------------------------------------------------------------------------------

  /** In whatever order the map is visited, the oldest item is evicted unless its key is the
      empty string, which is never evicted. */
  lemma OldestIsEvictedIff(c: Cache, c': Cache, o: string)
    requires EvictsOne(LRU, c, c') && StrictlyLeast(ScoresOf(LRU, c.data), o)
    ensures c' == Removed(c, o) <==> o != ""
  {
    if o != "" {
      EvictionRemovesLeast(LRU, c, c', 0);
    } else {
      var order :| Enumerates(order, c.data.Keys) && c' == WithoutVictim(c, Victim(LRU, c.data, order));
      assert o in c'.data;
    }
  }

  lemma {:induction false} LastIsOldest(es: seq<Entry>, d: Data, clock: int)
    requires Lists(es, d, clock) && es != []
    ensures StrictlyLeast(ScoresOf(LRU, d), es[|es| - 1].key)
  {
    var k0 := es[0].key;
    if |es| == 1 {
      assert d - {k0} == map[];
      assert forall k :: k in d && k != k0 ==> k in d - {k0};
    } else {
      var o := es[|es| - 1].key;
      LastIsOldest(es[1..], d - {k0}, d[k0].accessedAt - 1);
      ListsIndex(es[1..], d - {k0}, d[k0].accessedAt - 1, |es| - 2);
      forall k | k in d && k != o ensures d[o].accessedAt < d[k].accessedAt {
        if k != k0 { assert k in ScoresOf(LRU, d - {k0}) && o in ScoresOf(LRU, d - {k0}); }
      }
    }
  }

  lemma EvictionSimulates(l: Lru, c: Cache, clock: int, now: int, c': Cache)
    requires Represents(l, c, clock) && Evicts(LRU, c, now, c')
    ensures Represents(Evicted(l), c', clock)
  {
    if l.entries == [] {
      NothingToEvict(c, c');
    } else {
      var p := |l.entries| - 1;
      ListsPosition(l.entries, c.data, clock, l.entries[p].key);
      ListsIndex(l.entries, c.data, clock, p);
      LastIsOldest(l.entries, c.data, clock);
      OldestIsEvictedIff(c, c', l.entries[p].key);
      DropRepresents(l, c, clock, p);
    }
  }

  lemma NothingToEvict(c: Cache, c': Cache)
    requires EvictsOne(LRU, c, c') && c.data == map[]
    ensures c' == c
  {
    var order :| Enumerates(order, c.data.Keys) && c' == WithoutVictim(c, Victim(LRU, c.data, order));
    VictimInData(LRU, c.data, order);
  }

  // Simulation, call by call -------------------------------------------------------------------------------

  lemma GetSimulates(l: Lru, c: Cache, clock: int, key: string, now: int)
    requires Represents(l, c, clock) && now > clock
    ensures Represents(ListGet(l, key, now), AfterGet(c, key, now), now)
    ensures var f := Found(c, key, now); Lookup(l, key, now) == if f.Some? then Some(Core(f.value)) else None
  {
    var p := Position(l.entries, key);
    ListsPosition(l.entries, c.data, clock, key);
    if key in c.data {
      if Expired(c.data[key], now) {
        ListsDrop(l.entries, c.data, clock, p);
        ListsLater(l.entries[..p] + l.entries[p + 1..], c.data - {key}, clock, now);
      } else {
        ListsToFront(l, c.data, clock, key, Touched(c.data[key], now), now);
      }
    } else {
      ListsLater(l.entries, c.data, clock, now);
    }
  }

  lemma PutSimulates(l: Lru, c: Cache, clock: int, key: string, item: Item, now: int)
    requires Represents(l, c, clock) && item.accessedAt == now > clock && key != ""
    ensures var l2, c2 := ToFront(l.(memory := l.memory + item.Size()), key, Core(item)), Put(c, key, item);
            Represents(l2, c2, now) && |l2.entries| == |c2.data|
  {
    var l1 := l.(memory := l.memory + item.Size());
    ListsToFront(l1, c.data, clock, key, item, now);
    hide Lists;
    ListsPosition(ToFront(l1, key, Core(item)).entries, Put(c, key, item).data, now, key);
  }

  lemma SamePressure(policy: Policy, l: Lru, c: Cache, clock: int, item: Item)
    requires Represents(l, c, clock)
    ensures Core(item).Size() == item.Size()
    ensures ListPressure(policy, l, item.Size()) == Pressure(policy, c, item.Size())
  {
    hide Lists;
  }

  lemma SetSimulates(policy: Policy, l: Lru, c: Cache, clock: int, key: string, item: Item, now: int, c': Cache)
    requires Represents(l, c, clock) && item.accessedAt == now > clock && key != ""
    requires policy.strategy == LRU && Sets(policy, c, key, item, now, c')
    ensures Represents(ListSet(policy, l, key, Core(item)), c', now)
  {
    hide Sets, Evicts, Represents, Pressure, ListPressure, Put, ToFront, Evicted, Core, Lists;
    SamePressure(policy, l, c, clock, item);
    var c1 := SetsElim(policy, c, key, item, now, c');
    var c2 := Put(c1, key, item);
    var l1 := if Pressure(policy, c, item.Size()) then Evicted(l) else l;
    if Pressure(policy, c, item.Size()) { EvictionSimulates(l, c, clock, now, c1); }
    PutSimulates(l1, c1, clock, key, item, now);
    var l2 := ToFront(l1.(memory := l1.memory + item.Size()), key, Core(item));
    if |c2.data| > policy.maxSize { EvictionSimulates(l2, c2, now, now, c'); }
  }

  lemma DeleteSimulates(l: Lru, c: Cache, clock: int, key: string)
    requires Represents(l, c, clock)
    ensures Represents(ListDelete(l, key), Removed(c, key), clock)
  {
    var p := Position(l.entries, key);
    ListsPosition(l.entries, c.data, clock, key);
    if key in c.data { DropRepresents(l, c, clock, p); }
  }

  lemma CleanedAfterRemoval(c: Cache, k: string, now: int)
    requires k in c.data && Expired(c.data[k], now)
    ensures Cleaned(Removed(c, k), now) == Cleaned(c, now)
  {
    TotalWithout(c.data, k);
    assert Unexpired(Removed(c, k).data, now) == Unexpired(c.data, now);
  }

  lemma {:induction false} CleanSimulates(l: Lru, c: Cache, clock: int, now: int)
    requires Represents(l, c, clock)
    ensures Represents(ListClean(l, now), Cleaned(c, now), clock)
    decreases |l.entries|
  {
    var p := FirstExpired(l.entries, now);
    if p == |l.entries| {
      forall k | k in c.data ensures !Expired(c.data[k], now) { ListsPosition(l.entries, c.data, clock, k); }
      assert Unexpired(c.data, now) == c.data;
    } else {
      var k := l.entries[p].key;
      ListsIndex(l.entries, c.data, clock, p);
      DropRepresents(l, c, clock, p);
      CleanSimulates(DropAt(l, p), Removed(c, k), clock, now);
      CleanedAfterRemoval(c, k, now);
    }
  }

  // Whole runs -----------------------------------------------------------------------------------------------

  /** The empty key is evicted differently. */
  predicate Named(op: Op<Packed>) {
    op.Set? ==> op.key != ""
  }

  /** A call on the list, which needs the clock for expiry only. */
  function ListStep(policy: Policy, l: Lru, op: Op<Packed>, now: int): (Lru, Option<Item>) {
    match op
    case Get(key) => (ListGet(l, key, now), Lookup(l, key, now))
    case Set(key, packed, ttl) => (ListSet(policy, l, key, Core(NewItem(packed, ttl, now))), None)
    case Delete(key) => (ListDelete(l, key), None)
    case Clear => (Lru([], 0), None)
    case Cleanup =>
      var l1 := ListClean(l, now);
      (if |l1.entries| > policy.maxSize then Evicted(l1) else l1, None)
  }

  lemma StepSimulates(policy: Policy, l: Lru, c: Cache, clock: int, op: Op<Packed>, now: int, c': Cache,
                      r: Option<Item>)
    requires policy.strategy == LRU && Represents(l, c, clock) && now > clock && Named(op)
    requires CacheStep(policy, c, op, now, c', r)
    ensures Represents(ListStep(policy, l, op, now).0, c', now)
    ensures ListStep(policy, l, op, now).1 == if r.Some? then Some(Core(r.value)) else None
  {
    hide Evicts, Sets;
    match op {
      case Get(key) => GetSimulates(l, c, clock, key, now);
      case Set(key, packed, ttl) => SetSimulates(policy, l, c, clock, key, NewItem(packed, ttl, now), now, c');
      case Delete(key) =>
        DeleteSimulates(l, c, clock, key);
        ListsLater(ListDelete(l, key).entries, c'.data, clock, now);
      case Clear =>
      case Cleanup =>
        var l1, c1 := ListClean(l, now), Cleaned(c, now);
        CleanSimulates(l, c, clock, now);
        ListsPosition(l1.entries, c1.data, clock, "");
        if |c1.data| > policy.maxSize { EvictionSimulates(l1, c1, clock, now, c'); }
        var l' := ListStep(policy, l, op, now).0;
        assert Represents(l', c', clock);
        ListsLater(l'.entries, c'.data, clock, now);
    }
  }

  /** The clock reading strictly increases from call to call. */
  ghost predicate Ticks(clock: int, events: seq<Call>)
    decreases |events|
  {
    events == [] || (events[0].now > clock && Named(events[0].op) && Ticks(events[0].now, events[1..]))
  }

  ghost predicate CacheRun(policy: Policy, c: Cache, clock: int, events: seq<Call>, c': Cache) {
    Ticks(clock, events) && Run(policy, c, events, c')
  }

  /** The list goes through the same calls, finds the same items, and ends in `l'`. */
  ghost predicate ListRun(policy: Policy, l: Lru, events: seq<Call>, l': Lru)
    decreases |events|
  {
    if events == [] then l' == l
    else
      var e := events[0];
      var (l1, r) := ListStep(policy, l, e.op, e.now);
      r == (if e.found.Some? then Some(Core(e.found.value)) else None) && ListRun(policy, l1, events[1..], l')
  }

  function LastTime(clock: int, events: seq<Call>): int {
    if events == [] then clock else events[|events| - 1].now
  }

  lemma FirstCall(policy: Policy, c: Cache, clock: int, events: seq<Call>, c': Cache) returns (c1: Cache)
    requires events != [] && CacheRun(policy, c, clock, events, c')
    ensures var e := events[0];
            && e.now > clock && Named(e.op) && CacheStep(policy, c, e.op, e.now, c1, e.found)
            && CacheRun(policy, c1, e.now, events[1..], c')
  {
    hide CacheStep, Run;
    c1 := FirstStep(policy, c, events, c');
  }

  lemma FirstListCall(policy: Policy, l: Lru, events: seq<Call>, l': Lru)
    requires events != []
    requires var (l1, r) := ListStep(policy, l, events[0].op, events[0].now);
             && r == (if events[0].found.Some? then Some(Core(events[0].found.value)) else None)
             && ListRun(policy, l1, events[1..], l')
    ensures ListRun(policy, l, events, l')
  {
    hide ListStep;
  }

  /** Step for step, the timestamped map is the move-to-front list. */
  lemma {:induction false} RunSimulates(policy: Policy, l: Lru, c: Cache, clock: int, events: seq<Call>, c': Cache)
    returns (l': Lru, clock': int)
    requires policy.strategy == LRU && Represents(l, c, clock) && CacheRun(policy, c, clock, events, c')
    ensures ListRun(policy, l, events, l') && Represents(l', c', clock') && clock' == LastTime(clock, events)
    decreases |events|
  {
    if events == [] {
      l', clock' := l, clock;
    } else {
      hide CacheStep, ListStep, Represents, CacheRun, ListRun;
      var e := events[0];
      var c1 := FirstCall(policy, c, clock, events, c');
      StepSimulates(policy, l, c, clock, e.op, e.now, c1, e.found);
      l', clock' := RunSimulates(policy, ListStep(policy, l, e.op, e.now).0, c1, e.now, events[1..], c');
      FirstListCall(policy, l, events, l');
    }
  }

  // Recency ----------------------------------------------------------------------------------------------------

  lemma {:induction false} PositionIs(es: seq<Entry>, key: string, p: nat)
    requires p < |es| && es[p].key == key && forall i :: 0 <= i < p ==> es[i].key != key
    ensures Position(es, key) == p
  {
    if p > 0 { PositionIs(es[1..], key, p - 1); }
  }

  lemma DropMoves(es: seq<Entry>, key: string, q: nat)
    requires q < |es| && q != Position(es, key) < |es|
    ensures var p, fs := Position(es, key), es[..q] + es[q + 1..];
            var p' := Position(fs, key);
            p' == (if q < p then p - 1 else p) && p' < |fs| && fs[p'] == es[p]
  {
    var p := Position(es, key);
    PositionIs(es[..q] + es[q + 1..], key, if q < p then p - 1 else p);
  }

  lemma FrontMoves(l: Lru, other: string, item: Item, key: string)
    requires other != key && Position(l.entries, key) < |l.entries|
    ensures var p, es := Position(l.entries, key), ToFront(l, other, item).entries;
            var p' := Position(es, key);
            p' <= p + 1 && p' < |es| && es[p'] == l.entries[p]
  {
    hide Position;
    var q := Position(l.entries, other);
    if q < |l.entries| {
      DropMoves(l.entries, key, q);
      PositionBehind(Entry(other, item), DropAt(l, q).entries, key);
    } else {
      PositionBehind(Entry(other, item), l.entries, key);
    }
  }

  lemma PositionBehind(e: Entry, rest: seq<Entry>, key: string)
    requires e.key != key && Position(rest, key) < |rest|
    ensures var p, es := Position(rest, key), [e] + rest; Position(es, key) == 1 + p && es[1 + p] == rest[p]
  {
    assert ([e] + rest)[1..] == rest;
  }

  lemma EvictedKeeps(l: Lru, key: string)
    requires Position(l.entries, key) + 1 < |l.entries|
    ensures var p, es := Position(l.entries, key), Evicted(l).entries;
            Position(es, key) == p < |es| && es[p] == l.entries[p]
  {
    DropMoves(l.entries, key, |l.entries| - 1);
  }

  lemma {:induction false} CleanKeeps(l: Lru, now: int, key: string)
    requires Position(l.entries, key) < |l.entries| && !Expired(l.entries[Position(l.entries, key)].item, now)
    ensures var p, es := Position(l.entries, key), ListClean(l, now).entries;
            Position(es, key) <= p && Position(es, key) < |es| && es[Position(es, key)] == l.entries[p]
    decreases |l.entries|
  {
    hide Position, FirstExpired;
    var q := FirstExpired(l.entries, now);
    if q < |l.entries| {
      DropMoves(l.entries, key, q);
      CleanKeeps(DropAt(l, q), now, key);
    }
  }

  /** The calls that leave `key` to its fate: they neither set nor remove it, no memory pressure
      forces an eviction, and the item has not expired yet. */
  ghost predicate LeavesAlone(policy: Policy, l: Lru, op: Op<Packed>, now: int, key: string) {
    && (op.Set? ==> op.key != key && !ListPressure(policy, l, |op.payload.bytes|))
    && (op.Delete? ==> op.key != key)
    && !op.Clear?
    && var p := Position(l.entries, key);
       p < |l.entries| ==> !Expired(l.entries[p].item, now)
  }

  /** `key` is at most one place further back and still holds the same value until the same time. */
  ghost predicate FellBackByOne(es: seq<Entry>, es': seq<Entry>, key: string) {
    var p, p' := Position(es, key), Position(es', key);
    && p < |es| && p' <= p + 1 && p' < |es'|
    && es'[p'].item.packed == es[p].item.packed && es'[p'].item.expiresAt == es[p].item.expiresAt
  }

  lemma HitFallsBack(l: Lru, item: Item, key: string)
    requires Position(l.entries, key) < |l.entries|
    requires var i := l.entries[Position(l.entries, key)].item; item.packed == i.packed && item.expiresAt == i.expiresAt
    ensures FellBackByOne(l.entries, ToFront(l, key, item).entries, key)
  {
    PositionIs(ToFront(l, key, item).entries, key, 0);
  }

  lemma GetFallsBack(l: Lru, other: string, now: int, key: string)
    requires Position(l.entries, key) < |l.entries| && !Expired(l.entries[Position(l.entries, key)].item, now)
    ensures FellBackByOne(l.entries, ListGet(l, other, now).entries, key)
  {
    hide ToFront;
    var q := Position(l.entries, other);
    if q < |l.entries| {
      var item := l.entries[q].item.(accessCount := l.entries[q].item.accessCount + 1);
      if other == key {
        HitFallsBack(l, item, key);
      } else if Expired(l.entries[q].item, now) {
        DropMoves(l.entries, key, q);
      } else {
        FrontMoves(l, other, item, key);
      }
    }
  }

  lemma SetFallsBack(policy: Policy, l: Lru, other: string, item: Item, key: string)
    requires Position(l.entries, key) < |l.entries| && Position(l.entries, key) + 1 < policy.maxSize
    requires other != key && !ListPressure(policy, l, item.Size())
    ensures FellBackByOne(l.entries, ListSet(policy, l, other, item).entries, key)
  {
    hide ListPressure, ToFront, Position, Evicted;
    var l1 := l.(memory := l.memory + item.Size());
    var l2 := ToFront(l1, other, item);
    FrontMoves(l1, other, item, key);
    if |l2.entries| > policy.maxSize { EvictedKeeps(l2, key); }
  }

  lemma DeleteFallsBack(l: Lru, other: string, key: string)
    requires Position(l.entries, key) < |l.entries| && other != key
    ensures FellBackByOne(l.entries, ListDelete(l, other).entries, key)
  {
    hide Position;
    var q := Position(l.entries, other);
    if q < |l.entries| { DropMoves(l.entries, key, q); }
  }

  lemma CleanupFallsBack(policy: Policy, l: Lru, now: int, key: string)
    requires Position(l.entries, key) < |l.entries| && Position(l.entries, key) + 1 < policy.maxSize
    requires !Expired(l.entries[Position(l.entries, key)].item, now)
    ensures FellBackByOne(l.entries, ListStep(policy, l, Cleanup, now).0.entries, key)
  {
    CleanKeeps(l, now, key);
    var l1 := ListClean(l, now);
    hide ListClean;
    if |l1.entries| > policy.maxSize { EvictedKeeps(l1, key); }
  }

  /** One call lets an item fall back by at most one place. */
  lemma FallsBackByOne(policy: Policy, l: Lru, op: Op<Packed>, now: int, key: string)
    requires Position(l.entries, key) < |l.entries| && LeavesAlone(policy, l, op, now, key)
    requires Position(l.entries, key) + 1 < policy.maxSize
    ensures FellBackByOne(l.entries, ListStep(policy, l, op, now).0.entries, key)
  {
    hide ListGet, ListSet, FellBackByOne, Position, ListClean;
    match op {
      case Get(other) => GetFallsBack(l, other, now, key);
      case Set(other, packed, ttl) => SetFallsBack(policy, l, other, Core(NewItem(packed, ttl, now)), key);
      case Delete(other) => DeleteFallsBack(l, other, key);
      case Clear =>
      case Cleanup => CleanupFallsBack(policy, l, now, key);
    }
  }

  ghost predicate AllLeaveAlone(policy: Policy, l: Lru, events: seq<Call>, key: string)
    decreases |events|
  {
    events == [] ||
    (var e := events[0];
     LeavesAlone(policy, l, e.op, e.now, key)
       && AllLeaveAlone(policy, ListStep(policy, l, e.op, e.now).0, events[1..], key))
  }

  /** An item at position `p` survives `maxSize - p - 1` further calls, whatever they are, as
      long as they leave it alone; in particular one just set survives `maxSize - 1` of them. */
  lemma {:induction false} RecentItemSurvives(policy: Policy, l: Lru, events: seq<Call>, l': Lru, key: string)
    requires ListRun(policy, l, events, l') && AllLeaveAlone(policy, l, events, key)
    requires Position(l.entries, key) < |l.entries| && Position(l.entries, key) + |events| < policy.maxSize
    ensures var p, p' := Position(l.entries, key), Position(l'.entries, key);
            && p' < |l'.entries|
            && l'.entries[p'].item.packed == l.entries[p].item.packed
            && l'.entries[p'].item.expiresAt == l.entries[p].item.expiresAt
    decreases |events|
  {
    if events != [] {
      var e := events[0];
      FallsBackByOne(policy, l, e.op, e.now, key);
      RecentItemSurvives(policy, ListStep(policy, l, e.op, e.now).0, events[1..], l', key);
    }
  }

  /** A cache with room for an item has it in front right after `Set`. */
  lemma JustSetIsInFront(policy: Policy, l: Lru, key: string, item: Item)
    requires policy.maxSize >= 1
    ensures var es := ListSet(policy, l, key, item).entries; es != [] && es[0] == Entry(key, item)
  {
  }

  /** The calls on the cache itself that leave `key` to its fate. */
  ghost predicate Spares(policy: Policy, c: Cache, op: Op<Packed>, now: int, key: string) {
    && (op.Set? ==> op.key != key && !Pressure(policy, c, |op.payload.bytes|))
    && (op.Delete? ==> op.key != key)
    && !op.Clear?
    && (key in c.data ==> !Expired(c.data[key], now))
  }

  /** A run of such calls. */
  ghost predicate SparingRun(policy: Policy, c: Cache, clock: int, events: seq<Call>, c': Cache, key: string)
    decreases |events|
  {
    if events == [] then c' == c
    else
      var e := events[0];
      && e.now > clock && Named(e.op) && Spares(policy, c, e.op, e.now, key)
      && exists c1 ::
           CacheStep(policy, c, e.op, e.now, c1, e.found) && SparingRun(policy, c1, e.now, events[1..], c', key)
  }

  lemma SparesLeavesAlone(policy: Policy, l: Lru, c: Cache, clock: int, op: Op<Packed>, now: int, key: string)
    requires Represents(l, c, clock) && Spares(policy, c, op, now, key)
    ensures LeavesAlone(policy, l, op, now, key)
  {
    ListsPosition(l.entries, c.data, clock, key);
    if op.Set? { SamePressure(policy, l, c, clock, NewItem(op.payload, op.ttl, now)); }
    hide Lists, Pressure, ListPressure;
  }

  /** An item that is in place `p` of the list is still in the cache, unchanged but for its use,
      after fewer than `maxSize - p` sparing calls. */
  lemma {:induction false} SparedItemStays(policy: Policy, l: Lru, c: Cache, clock: int, events: seq<Call>, c': Cache,
                                           key: string)
    requires policy.strategy == LRU && Represents(l, c, clock) && SparingRun(policy, c, clock, events, c', key)
    requires key in c.data && Position(l.entries, key) + |events| < policy.maxSize
    ensures key in c'.data && c'.data[key].packed == c.data[key].packed
            && c'.data[key].expiresAt == c.data[key].expiresAt
    decreases |events|
  {
    if events != [] {
      var e := events[0];
      var c1 :| CacheStep(policy, c, e.op, e.now, c1, e.found) && SparingRun(policy, c1, e.now, events[1..], c', key);
      var l1 := ListStep(policy, l, e.op, e.now).0;
      StepSimulates(policy, l, c, clock, e.op, e.now, c1, e.found);
      SparesLeavesAlone(policy, l, c, clock, e.op, e.now, key);
      ListsPosition(l.entries, c.data, clock, key);
      hide CacheStep, ListStep, LeavesAlone, Spares, Lists, SparingRun;
      FallsBackByOne(policy, l, e.op, e.now, key);
      ListsPosition(l1.entries, c1.data, e.now, key);
      SparedItemStays(policy, l1, c1, e.now, events[1..], c', key);
    }
  }

  /** What the cache is for, with the LRU strategy: after any run, `Set`, and then fewer than
      `maxSize` calls that spare the key, `Get` yields what was set until it expires. `Unpack`
      gives it back as it was encoded, unless more than 100 MB of it were compressed. */
  lemma SetIsFoundAgain<V>(policy: Policy, codec: Codec<V>, t0: int, before: seq<Call>, c: Cache, key: string,
                           value: V, seed: nat, ttl: int, now: int, c1: Cache,
                           events: seq<Call>, c2: Cache, later: int)
    requires policy.strategy == LRU && CacheRun(policy, EMPTY, t0, before, c) && LastTime(t0, before) < now
             && key != ""
    requires Invertible(codec) && Pack(codec, policy, value, seed).Some?
    requires var item := NewItem(Pack(codec, policy, value, seed).value, ttl, now); Sets(policy, c, key, item, now, c1)
    requires SparingRun(policy, c1, now, events, c2, key) && |events| < policy.maxSize
    requires ttl <= 0 || later <= now + ttl
    ensures var p, raw := Pack(codec, policy, value, seed).value, codec.marshal(value).value;
            && Found(c2, key, later).Some? && Found(c2, key, later).value.packed == p
            && Unpack(codec, p) == if p.compressed && |raw| > MAX_DECOMPRESSED then None else codec.unmarshal(raw)
  {
    var item := NewItem(Pack(codec, policy, value, seed).value, ttl, now);
    PackThenUnpack(codec, policy, value, seed);
    var l, clock := RunSimulates(policy, Lru([], 0), EMPTY, t0, before, c);
    var l1 := ListSet(policy, l, key, Core(item));
    SetSimulates(policy, l, c, clock, key, item, now, c1);
    JustSetIsInFront(policy, l, key, Core(item));
    hide Pack, Unpack, Sets, ListSet, Invertible, Lists;
    assert Position(l1.entries, key) == 0;
    ListsPosition(l1.entries, c1.data, now, key);
    SparedItemStays(policy, l1, c1, now, events, c2, key);
    assert Core(c1.data[key]) == Core(item);
  }

  // The other strategies ---------------------------------------------------------------------------------------

  lemma LfuMayKeepTheNewItem(policy: Policy, c: Cache, key: string, item: Item, now: int, k: string) returns (c': Cache)
    requires policy.strategy == LFU && !Pressure(policy, c, item.Size()) && key !in c.data && |c.data| >= policy.maxSize
    requires k in c.data && c.data[k].accessCount == 0
    ensures Sets(policy, c, key, item, now, c') && key in c'.data
  {
    hide Sets, EvictsOne, TotalSize;
    var c2 := Put(c, key, item);
    var rest := SomeEnumeration(c2.data.Keys - {k});
    var order := [k] + rest;
    FirstStays(order, ScoresOf(LFU, c2.data));
    c' := WithoutVictim(c2, k);
    EvictsOneIntro(LFU, c2, order, k);
    SetsIntro(policy, c, key, item, now, c, c');
  }

  lemma LfuDropsTheNewItem(policy: Policy, c: Cache, key: string, item: Item, now: int, c': Cache)
    requires policy.strategy == LFU && !Pressure(policy, c, item.Size()) && item.accessCount == 0
    requires key !in c.data && key != "" && |c.data| >= policy.maxSize
    requires Sets(policy, c, key, item, now, c') && forall k :: k in c.data ==> c.data[k].accessCount > 0
    ensures c' == c
  {
    var c2 := Put(c, key, item);
    hide EvictsOne, Sets, Pressure;
    var c1 := SetsElim(policy, c, key, item, now, c');
    TotalWith(c.data, key, item);
    hide TotalSize;
    OnlyUnusedIsEvicted(c2, key, c');
    assert c.data[key := item] - {key} == c.data;
  }

  /** LFU can throw out the very item it has just stored. Setting a new key in a full cache is
      sure to have no effect exactly when every other item has been used. */
  lemma LfuDropsTheNewItemIff(policy: Policy, c: Cache, key: string, item: Item, now: int)
    requires policy.strategy == LFU && !Pressure(policy, c, item.Size()) && item.accessCount == 0
    requires key !in c.data && key != "" && |c.data| >= policy.maxSize
    ensures (forall c' | Sets(policy, c, key, item, now, c') :: c' == c) <==>
            forall k :: k in c.data ==> c.data[k].accessCount > 0
  {
    hide Sets, Pressure;
    if k :| k in c.data && c.data[k].accessCount == 0 {
      var c' := LfuMayKeepTheNewItem(policy, c, key, item, now, k);
    } else {
      forall c' | Sets(policy, c, key, item, now, c') ensures c' == c {
        LfuDropsTheNewItem(policy, c, key, item, now, c');
      }
    }
  }

  /** So LFU is sure to store a new item only while there is room: a full cache may always drop
      it, even when other items are unused as well. */
  lemma LfuStoresTheNewItemIff(policy: Policy, c: Cache, key: string, item: Item, now: int)
    requires policy.strategy == LFU && !Pressure(policy, c, item.Size()) && item.accessCount == 0
    requires key !in c.data && key != ""
    ensures (forall c' | Sets(policy, c, key, item, now, c') :: key in c'.data) <==> |c.data| < policy.maxSize
  {
    hide Sets, Pressure;
    SizeWith(c.data, key, item);
    assert CanLose(LFU, c.data[key := item], key, now);
    UnpressedSetIsStoredIff(policy, c, key, item, now);
  }

  lemma OnlyUnusedIsEvicted(c: Cache, key: string, c': Cache)
    requires EvictsOne(LFU, c, c') && key in c.data && key != "" && c.data[key].accessCount == 0
    requires forall k :: k in c.data && k != key ==> c.data[k].accessCount > 0
    ensures c' == Removed(c, key)
  {
    assert ScoresOf(LFU, c.data)[key] == 0 && !Least(ScoresOf(LFU, c.data), "");
    EvictionRemovesLeast(LFU, c, c', 0);
  }
}
