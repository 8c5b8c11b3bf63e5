/** The in-memory cache with expiry and the two-level cache built from two of them
    (internal/cache/cache.go). Each call is given the one clock reading it works with; the
    iteration order of the map in the eviction scan is arbitrary. */
module MultiLevelCaches {
  import opened Common

  const PROMOTION_TTL := 300_000_000_000

  datatype Item<V> = Item(value: V, expiresAt: int, createdAt: int, accessCount: nat)

  type Data<V> = map<string, Item<V>>

  predicate Expired<V>(item: Item<V>, now: int) {
    now > item.expiresAt
  }

  function Found<V>(m: Data<V>, key: string, now: int): Option<V> {
    if key in m && !Expired(m[key], now) then Some(m[key].value) else None
  }

  /** A hit counts as an access; an expired item is dropped by the `Get` that finds it. */
  function AfterGet<V>(m: Data<V>, key: string, now: int): Data<V> {
    if key !in m then m
    else if Expired(m[key], now) then m - {key}
    else m[key := m[key].(accessCount := m[key].accessCount + 1)]
  }

  /** What a cleanup leaves. */
  function Unexpired<V>(m: Data<V>, now: int): Data<V> {
    map k | k in m && !Expired(m[k], now) :: m[k]
  }

  /** Fewer accesses first, and among equally many the earlier creation. */
  predicate NotAfter<V>(a: Item<V>, b: Item<V>) {
    a.accessCount < b.accessCount || (a.accessCount == b.accessCount && a.createdAt <= b.createdAt)
  }

  /** `k` may be chosen by the eviction scan. */
  ghost predicate Lowest<V(!new)>(m: Data<V>, k: string) {
    k in m && forall j :: j in m ==> NotAfter(m[k], m[j])
  }

  /** One eviction: the empty key stands for "nothing found" and is therefore never removed. */
  ghost predicate Evicts<V(!new)>(m: Data<V>, m': Data<V>) {
    if m == map[] then m' == m
    else exists k :: Lowest(m, k) && m' == if k == "" then m else m - {k}
  }

  ghost predicate Sets<V(!new)>(m: Data<V>, maxSize: int, key: string, item: Item<V>, m': Data<V>) {
    if |m| >= maxSize then exists e :: Evicts(m, e) && m' == e[key := item]
    else m' == m[key := item]
  }

  function Limit(maxSize: int): nat {
    if maxSize < 1 then 1 else maxSize
  }

  class MemoryCache<V(!new)> {
    var data: Data<V>
    const maxSize: int
    var hits: nat
    var misses: nat
    var evictions: nat
    var size: int
    /** Items that an expired `Get` removed since the size was last recomputed. */
    ghost var lag: nat
    /** Has the empty key been set since the last `Clear`? */
    ghost var emptyKeySet: bool

    ghost predicate Valid()
      reads this
    {
      && size == |data| + lag
      && (!emptyKeySet ==> "" !in data && |data| <= Limit(maxSize))
    }

    constructor (maxSize: int)
      ensures Valid() && data == map[] && this.maxSize == maxSize && hits == misses == evictions == 0
      ensures !emptyKeySet
    {
      this.maxSize, emptyKeySet := maxSize, false;
      data, hits, misses, evictions, size, lag := map[], 0, 0, 0, 0, 0;
    }

    method Get(key: string, now: int) returns (r: Option<V>)
      requires Valid()
      modifies this
      ensures Valid()
      ensures r == Found(old(data), key, now) && data == AfterGet(old(data), key, now)
      ensures (hits, misses) == if r.Some? then (old(hits) + 1, old(misses)) else (old(hits), old(misses) + 1)
      ensures size == old(size) && emptyKeySet == old(emptyKeySet)
    {
      if key !in data {
        misses := misses + 1;
        return None;
      }
      var item := data[key];
      if Expired(item, now) {
        RemoveShrinks(data, key);
        data := data - {key};
        lag := lag + 1;
        misses := misses + 1;
        return None;
      }
      InsertGrows(data, key, item.(accessCount := item.accessCount + 1));
      data := data[key := item.(accessCount := item.accessCount + 1)];
      hits := hits + 1;
      return Some(item.value);
    }

    method Set(key: string, value: V, ttl: int, now: int)
      requires Valid()
      modifies this
      ensures Valid()
      ensures Sets(old(data), maxSize, key, Item(value, now + ttl, now, 0), data)
      ensures size == |data|
      ensures hits == old(hits) && misses == old(misses)
      ensures emptyKeySet == (old(emptyKeySet) || key == "")
    {
      ghost var before := data;
      if |data| >= maxSize {
        EvictLRU();
      }
      ghost var evicted := data;
      data := data[key := Item(value, now + ttl, now, 0)];
      size, lag, emptyKeySet := |data|, 0, emptyKeySet || key == "";
      if !emptyKeySet && |before| >= maxSize {
        EvictionMakesRoom(before, evicted);
      }
    }

    method Delete(key: string)
      requires Valid()
      modifies this
      ensures Valid() && data == old(data) - {key}
      ensures key in old(data) ==> size == |data|
      ensures emptyKeySet == old(emptyKeySet)
    {
      if key in data {
        ghost var before := data;
        data := data - {key};
        RemoveShrinks(before, key);
        size, lag := |data|, 0;
      } else {
        assert data - {key} == data;
      }
    }

    method Clear()
      requires Valid()
      modifies this
      ensures Valid() && data == map[] && size == 0 && !emptyKeySet
    {
      data, size, lag, emptyKeySet := map[], 0, 0, false;
    }

    /** Scans the items in an arbitrary order for the lowest one and removes it. */
    method EvictLRU()
      modifies this`data, this`evictions
      ensures Evicts(old(data), data)
    {
      var oldestKey, oldestTime, lowestAccess: int := "", 0, -1;
      var rest := data.Keys;
      while rest != {}
        invariant rest <= data.Keys && data == old(data)
        invariant lowestAccess == -1 ==> rest == data.Keys && oldestKey == ""
        invariant lowestAccess != -1 ==>
                    && oldestKey in data - rest
                    && lowestAccess == data[oldestKey].accessCount && oldestTime == data[oldestKey].createdAt
                    && forall j :: j in data - rest ==> NotAfter(data[oldestKey], data[j])
        decreases rest
      {
        var key :| key in rest;
        rest := rest - {key};
        var item := data[key];
        if lowestAccess == -1 || item.accessCount < lowestAccess {
          oldestKey, lowestAccess, oldestTime := key, item.accessCount, item.createdAt;
        } else if item.accessCount == lowestAccess && item.createdAt < oldestTime {
          oldestKey, oldestTime := key, item.createdAt;
        }
      }
      assert data - rest == data;
      assert data.Keys != {} ==> Lowest(data, oldestKey);
      if oldestKey != "" {
        data := data - {oldestKey};
        evictions := evictions + 1;
      }
    }

    method Cleanup(now: int)
      requires Valid()
      modifies this
      ensures Valid() && size == |data| && emptyKeySet == old(emptyKeySet)
      ensures data == Unexpired(old(data), now)
      ensures forall k :: k in data <==> k in old(data) && now <= old(data)[k].expiresAt
    {
      ghost var before := data;
      var rest := data.Keys;
      while rest != {}
        invariant rest <= before.Keys && emptyKeySet == old(emptyKeySet)
        invariant data == map k | k in before && (k in rest || !Expired(before[k], now)) :: before[k]
        decreases rest
      {
        var key :| key in rest;
        rest := rest - {key};
        if Expired(data[key], now) {
          data := data - {key};
          evictions := evictions + 1;
        }
      }
      size, lag := |data|, 0;
      SubmapIsSmaller(data, before);
    }
  }

  lemma SubmapIsSmaller<V(!new)>(m: Data<V>, n: Data<V>)
    requires m.Keys <= n.Keys
    ensures |m| <= |n|
  {
    var gone := n.Keys - m.Keys;
    assert n.Keys == m.Keys + gone;
  }

  lemma RemoveShrinks<V(!new)>(m: Data<V>, key: string)
    requires key in m
    ensures |m - {key}| == |m| - 1
  {
    assert (m - {key}).Keys == m.Keys - {key};
  }

  lemma EvictionMakesRoom<V(!new)>(m: Data<V>, e: Data<V>)
    requires Evicts(m, e) && "" !in m
    ensures |e| == if m == map[] then 0 else |m| - 1
  {
    if m != map[] {
      var k :| Lowest(m, k) && e == m - {k};
      RemoveShrinks(m, k);
    }
  }

  // The size bound and the empty key ------------------------------------------------------------

  /** When every `Set` of a new key keeps the map within its limit, whichever victim the scan
      picks: exactly unless the map is full and the empty key may be the victim. */
  lemma SetKeepsLimitIff<V(!new)>(m: Data<V>, maxSize: int, key: string, item: Item<V>)
    requires |m| <= Limit(maxSize) && key !in m
    ensures (forall m' | Sets(m, maxSize, key, item, m') :: |m'| <= Limit(maxSize))
       <==> !(|m| == Limit(maxSize) && Lowest(m, ""))
  {
    if |m| == Limit(maxSize) && Lowest(m, "") {
      assert Evicts(m, m);
      var m' := m[key := item];
      assert Sets(m, maxSize, key, item, m');
      InsertGrows(m, key, item);
    } else {
      forall m' | Sets(m, maxSize, key, item, m') ensures |m'| <= Limit(maxSize) {
        if |m| >= maxSize {
          var e :| Evicts(m, e) && m' == e[key := item];
          InsertGrows(e, key, item);
          if m != map[] {
            var k :| Lowest(m, k) && e == if k == "" then m else m - {k};
            if k != "" { RemoveShrinks(m, k); }
          }
        } else {
          InsertGrows(m, key, item);
        }
      }
    }
  }

  lemma InsertGrows<V(!new)>(m: Data<V>, key: string, item: Item<V>)
    ensures |m[key := item]| == if key in m then |m| else |m| + 1
  {
    assert m[key := item].Keys == m.Keys + {key};
  }

  // Two levels ----------------------------------------------------------------------------------

  /** What the reference map remembers of the last `Set` of a key. */
  datatype Entry<V> = Entry(value: V, setAt: int, ttl: int)

  /** Every item of a level is the last value set under its key, and expires no later than
      `extra` after the time that `Set` asked for. */
  ghost predicate Backed<V(!new)>(m: Data<V>, log: map<string, Entry<V>>, extra: int) {
    forall k :: k in m ==> k in log && m[k].value == log[k].value && m[k].expiresAt <= log[k].setAt + log[k].ttl + extra
  }

  lemma SetIsBacked<V(!new)>(m: Data<V>, maxSize: int, key: string, item: Item<V>, m': Data<V>,
                             log: map<string, Entry<V>>, extra: int)
    requires Backed(m, log, extra) && Sets(m, maxSize, key, item, m')
    requires key in log && item.value == log[key].value && item.expiresAt <= log[key].setAt + log[key].ttl + extra
    ensures Backed(m', log, extra)
  {
  }

  lemma GetIsBacked<V(!new)>(m: Data<V>, key: string, now: int, log: map<string, Entry<V>>, extra: int)
    requires Backed(m, log, extra)
    ensures Backed(AfterGet(m, key, now), log, extra)
    ensures Found(m, key, now).Some? ==>
              && key in log && Found(m, key, now).value == log[key].value
              && now <= log[key].setAt + log[key].ttl + extra
  {
  }

  function Longer(a: nat, b: nat): nat {
    if a < b then b else a
  }

  lemma PromotionIsBacked<V(!new)>(m: Data<V>, maxSize: int, key: string, value: V, t2: int, t3: int, m': Data<V>,
                                   log: map<string, Entry<V>>, gap: nat)
    requires Backed(m, log, PROMOTION_TTL + gap) && Sets(m, maxSize, key, Item(value, t3 + PROMOTION_TTL, t3, 0), m')
    requires key in log && value == log[key].value && t2 <= log[key].setAt + log[key].ttl && t2 <= t3
    ensures Backed(m', log, PROMOTION_TTL + Longer(gap, t3 - t2))
  {
    var extra := PROMOTION_TTL + Longer(gap, t3 - t2);
    assert Backed(m, log, extra);
    SetIsBacked(m, maxSize, key, Item(value, t3 + PROMOTION_TTL, t3, 0), m', log, extra);
  }

  class MultiLevelCache<V(!new)> {
    const L1: MemoryCache<V>
    const L2: MemoryCache<V>
    /** The plain map this cache stands for: the last `Set` of each key since it was deleted or
        everything was cleared. */
    ghost var log: map<string, Entry<V>>
    /** The longest time a promotion has taken from finding an item in the second level to
        setting it in the first. */
    ghost var gap: nat

    ghost predicate Valid()
      reads this, L1, L2
    {
      && L1 != L2 && L1.Valid() && L2.Valid()
      && Backed(L1.data, log, PROMOTION_TTL + gap)
      && Backed(L2.data, log, 0)
    }

    constructor (l1Size: int, l2Size: int)
      ensures Valid() && fresh(L1) && fresh(L2) && log == map[] && gap == 0
      ensures L1.maxSize == l1Size && L2.maxSize == l2Size
    {
      L1 := new MemoryCache(l1Size);
      L2 := new MemoryCache(l2Size);
      log, gap := map[], 0;
    }

    /** Whatever was evicted, expired or promoted before, a hit returns the last value set, and
        never later than its time to live, five minutes, and the time the slowest promotion took.

        The call reads the clock for the first level, for the second, and for the promotion. */
    method Get(key: string, t1: int, t2: int, t3: int) returns (r: Option<V>)
      requires Valid() && t1 <= t2 <= t3
      modifies this`gap, L1, L2
      ensures Valid()
      ensures var r1, r2 := Found(old(L1.data), key, t1), Found(old(L2.data), key, t2);
              && r == (if r1.Some? then r1 else r2)
              && (r.Some? ==> key in log && r.value == log[key].value)
              && (r1.Some? ==> t1 <= log[key].setAt + log[key].ttl + 300_000_000_000 + old(gap))
              && (r1.None? && r2.Some? ==> t2 <= log[key].setAt + log[key].ttl)
              && gap == (if r1.None? && r2.Some? then Longer(old(gap), t3 - t2) else old(gap))
              && (r1.Some? ==> L1.data == AfterGet(old(L1.data), key, t1) && L2.data == old(L2.data))
              && (r1.None? ==> L2.data == AfterGet(old(L2.data), key, t2))
              && (r1.None? && r2.None? ==> L1.data == AfterGet(old(L1.data), key, t1))
              && (r1.None? && r2.Some? ==> Sets(AfterGet(old(L1.data), key, t1), L1.maxSize, key,
                                                Item(r2.value, t3 + PROMOTION_TTL, t3, 0), L1.data))
    {
      hide Backed, AfterGet, Found, Sets;
      GetIsBacked(L1.data, key, t1, log, PROMOTION_TTL + gap);
      GetIsBacked(L2.data, key, t2, log, 0);
      r := L1.Get(key, t1);
      if r.Some? {
        return;
      }
      r := L2.Get(key, t2);
      if r.Some? {
        Promote(key, r.value, t2, t3);
      }
    }

    /** An item found in the second level at `t2` goes to the first at `t3`. */
    method Promote(key: string, value: V, ghost t2: int, t3: int)
      requires Valid() && t2 <= t3
      requires key in log && value == log[key].value && t2 <= log[key].setAt + log[key].ttl
      modifies this`gap, L1
      ensures Valid() && gap == Longer(old(gap), t3 - t2)
      ensures Sets(old(L1.data), L1.maxSize, key, Item(value, t3 + PROMOTION_TTL, t3, 0), L1.data)
    {
      hide Backed, Sets;
      ghost var l1 := L1.data;
      L1.Set(key, value, PROMOTION_TTL, t3);
      PromotionIsBacked(l1, L1.maxSize, key, value, t2, t3, L1.data, log, gap);
      gap := Longer(gap, t3 - t2);
    }

    /** The two levels read the clock one after the other; the plain map remembers the later
        reading. */
    method Set(key: string, value: V, ttl: int, t1: int, t2: int)
      requires Valid() && t1 <= t2
      modifies this`log, L1, L2
      ensures Valid() && log == old(log)[key := Entry(value, t2, ttl)]
      ensures Sets(old(L1.data), L1.maxSize, key, Item(value, t1 + ttl, t1, 0), L1.data)
      ensures Sets(old(L2.data), L2.maxSize, key, Item(value, t2 + ttl, t2, 0), L2.data)
    {
      log := log[key := Entry(value, t2, ttl)];
      ghost var l1, l2 := L1.data, L2.data;
      L1.Set(key, value, ttl, t1);
      L2.Set(key, value, ttl, t2);
      SetOverwrites(l1, L1.maxSize, key, Item(value, t1 + ttl, t1, 0), L1.data, old(log), Entry(value, t2, ttl),
        PROMOTION_TTL + gap);
      SetOverwrites(l2, L2.maxSize, key, Item(value, t2 + ttl, t2, 0), L2.data, old(log), Entry(value, t2, ttl), 0);
    }

    method Delete(key: string)
      requires Valid()
      modifies this`log, L1, L2
      ensures Valid() && log == old(log) - {key}
      ensures L1.data == old(L1.data) - {key} && L2.data == old(L2.data) - {key}
    {
      log := log - {key};
      L1.Delete(key);
      L2.Delete(key);
    }

    method Clear()
      requires Valid()
      modifies this`log, L1, L2
      ensures Valid() && log == map[] && L1.data == L2.data == map[]
    {
      log := map[];
      L1.Clear();
      L2.Clear();
    }

    /** The background cleanup of one level, at any moment. */
    method Cleanup(first: bool, now: int)
      requires Valid()
      modifies L1, L2
      ensures Valid()
      ensures L1.data == if first then Unexpired(old(L1.data), now) else old(L1.data)
      ensures L2.data == if first then old(L2.data) else Unexpired(old(L2.data), now)
    {
      if first {
        L1.Cleanup(now);
      } else {
        L2.Cleanup(now);
      }
    }
  }

  lemma SetOverwrites<V(!new)>(m: Data<V>, maxSize: int, key: string, item: Item<V>, m': Data<V>,
                               log: map<string, Entry<V>>, e: Entry<V>, extra: int)
    requires Backed(m, log, extra) && Sets(m, maxSize, key, item, m')
    requires item.value == e.value && item.expiresAt <= e.setAt + e.ttl + extra
    ensures Backed(m', log[key := e], extra) && key in m' && m'[key] == item
  {
  }

  /** Setting and getting: within its time to live a value just set is found. */
  method SetThenGet<V(!new)>(c: MultiLevelCache<V>, key: string, value: V, ttl: int, s1: int, s2: int,
                             t1: int, t2: int, t3: int)
    returns (r: Option<V>)
    requires c.Valid() && s1 <= s2 && t1 <= t2 <= t3 && t1 <= s1 + ttl
    modifies c, c.L1, c.L2
    ensures r == Some(value)
  {
    c.Set(key, value, ttl, s1, s2);
    r := c.Get(key, t1, t2, t3);
  }

  /** Until when an item is served that only the second level still holds and that a `Get` at
      `t2` finds in time: as long as it lives, or for five minutes after its promotion at `t3`,
      whichever is longer. It is served after its time to live exactly when it is promoted
      within the last five minutes of it. */
  method PromotionOutlivesTtlIff<V(!new)>(c: MultiLevelCache<V>, key: string, t1: int, t2: int, t3: int, later: int)
    returns (promoted: Option<V>, r: Option<V>)
    requires c.Valid() && t1 <= t2 <= t3 <= later
    requires Found(c.L1.data, key, t1).None? && Found(c.L2.data, key, t2).Some?
    modifies c, c.L1, c.L2
    ensures promoted == Some(old(c.L2.data)[key].value)
    ensures r.Some? <==> later <= t3 + 300_000_000_000 || later <= old(c.L2.data)[key].expiresAt
    ensures r.Some? ==> r == promoted
  {
    promoted := c.Get(key, t1, t2, t3);
    r := c.Get(key, later, later, later);
  }
}
