/** The cache with selectable eviction strategy (internal/cache/advanced_cache.go:83-481).

    Calls are sequential and each works with one clock reading. JSON, gzip and AES-GCM are
    functions of a codec about which nothing is known but what a lemma asks for. Eviction scans
    visit the map in an arbitrary order. */
module AdvancedCaches {
  import opened Common
  import opened EvictionScans

  type Bytes = seq<bv8>

  datatype Strategy = LRU | LFU | FIFO | TTL | Adaptive

  datatype Policy = Policy(strategy: Strategy, maxSize: int, maxMemoryMB: int, compression: bool, encryption: bool)

  const MEGABYTE := 1024 * 1024
  const COMPRESSION_THRESHOLD := 1024
  const MAX_DECOMPRESSED := 100 * MEGABYTE
  const ADAPTIVE_HIT_RATE := 0.8

  // Values ------------------------------------------------------------------------------------------

  /** Encryption draws a fresh key, so it also depends on a seed. */
  datatype Codec<!V> = Codec(
    marshal: V -> Option<Bytes>, unmarshal: Bytes -> Option<V>,
    compress: Bytes -> Option<Bytes>, inflate: Bytes -> Option<Bytes>,
    encrypt: (nat, Bytes) -> Option<Bytes>, decrypt: Bytes -> Option<Bytes>)

  datatype Packed = Packed(bytes: Bytes, compressed: bool, encrypted: bool)

  /** The value as `Set` stores it: a step that fails is skipped. */
  function Pack<V>(codec: Codec<V>, policy: Policy, value: V, seed: nat): Option<Packed> {
    match codec.marshal(value)
    case None => None
    case Some(raw) =>
      var p1 :=
        if policy.compression && |raw| > COMPRESSION_THRESHOLD && codec.compress(raw).Some?
        then Packed(codec.compress(raw).value, true, false) else Packed(raw, false, false);
      Some(if policy.encryption && codec.encrypt(seed, p1.bytes).Some?
           then p1.(bytes := codec.encrypt(seed, p1.bytes).value, encrypted := true) else p1)
  }

  /** `decompressData` gives up beyond 100 MB. */
  function Decompress<V>(codec: Codec<V>, b: Bytes): Option<Bytes> {
    var r := codec.inflate(b);
    if r.Some? && |r.value| > MAX_DECOMPRESSED then None else r
  }

  /** The value as `Get` recovers it. */
  function Unpack<V>(codec: Codec<V>, p: Packed): Option<V> {
    var r1 := if p.encrypted then codec.decrypt(p.bytes) else Some(p.bytes);
    if r1.None? then None
    else
      var r2 := if p.compressed then Decompress(codec, r1.value) else r1;
      if r2.None? then None else codec.unmarshal(r2.value)
  }

  ghost predicate Invertible<V>(codec: Codec<V>) {
    && (forall b :: codec.compress(b).Some? ==> codec.inflate(codec.compress(b).value) == Some(b))
    && (forall s, b :: codec.encrypt(s, b).Some? ==> codec.decrypt(codec.encrypt(s, b).value) == Some(b))
  }

  /** Whatever the policy and whichever steps fail, what is unpacked is what was marshalled,
      except that a value of more than 100 MB that was compressed can never be read again. */
  lemma PackThenUnpack<V>(codec: Codec<V>, policy: Policy, value: V, seed: nat)
    requires Invertible(codec) && Pack(codec, policy, value, seed).Some?
    ensures var p, raw := Pack(codec, policy, value, seed).value, codec.marshal(value).value;
            Unpack(codec, p) == if p.compressed && |raw| > 100 * 1024 * 1024 then None else codec.unmarshal(raw)
  {
  }

  /** What is stored: more than 1024 bytes are compressed and anything is encrypted, if the policy
      asks for it and the step succeeds, the compression first; nothing else changes the bytes. */
  lemma PackedAsAsked<V>(codec: Codec<V>, policy: Policy, value: V, seed: nat)
    requires codec.marshal(value).Some?
    ensures Pack(codec, policy, value, seed).Some?
    ensures var p, raw := Pack(codec, policy, value, seed).value, codec.marshal(value).value;
            var squeezed := if p.compressed then codec.compress(raw).value else raw;
            && (p.compressed <==> policy.compression && |raw| > 1024 && codec.compress(raw).Some?)
            && (p.encrypted <==> policy.encryption && codec.encrypt(seed, squeezed).Some?)
            && p.bytes == if p.encrypted then codec.encrypt(seed, squeezed).value else squeezed
  {
  }

  // Items and steps -----------------------------------------------------------------------------------

  datatype Item = Item(packed: Packed, createdAt: int, accessedAt: int, expiresAt: Option<int>, accessCount: nat) {
    function Size(): nat { |packed.bytes| }
  }

  type Data = map<string, Item>

  /** The items together with the memory counter. */
  datatype Cache = Cache(data: Data, memory: int)

  predicate Expired(i: Item, now: int) {
    i.expiresAt.Some? && now > i.expiresAt.value
  }

  function Removed(c: Cache, key: string): Cache {
    if key in c.data then Cache(c.data - {key}, c.memory - c.data[key].Size()) else c
  }

  function Found(c: Cache, key: string, now: int): Option<Item> {
    if key in c.data && !Expired(c.data[key], now) then Some(c.data[key]) else None
  }

  /** An expired item is dropped without giving its memory back. */
  function AfterGet(c: Cache, key: string, now: int): Cache {
    if key !in c.data then c
    else if Expired(c.data[key], now) then c.(data := c.data - {key})
    else c.(data := c.data[key := Touched(c.data[key], now)])
  }

  function Touched(i: Item, now: int): Item {
    i.(accessedAt := now, accessCount := i.accessCount + 1)
  }

  predicate Pressure(policy: Policy, c: Cache, size: nat) {
    c.memory / MEGABYTE + size / MEGABYTE > policy.maxMemoryMB
  }

  /** An overwritten item is replaced without giving its memory back. */
  function Put(c: Cache, key: string, item: Item): Cache {
    Cache(c.data[key := item], c.memory + item.Size())
  }

  function Unexpired(d: Data, now: int): Data {
    map k | k in d && !Expired(d[k], now) :: d[k]
  }

  /** All expired items removed, and their memory given back. */
  ghost function Cleaned(c: Cache, now: int): Cache {
    var d := Unexpired(c.data, now);
    Cache(d, c.memory - TotalSize(c.data) + TotalSize(d))
  }

  // Eviction --------------------------------------------------------------------------------------------

  /** What a strategy compares items by. */
  function ScoresOf(strategy: Strategy, d: Data): Scores {
    match strategy
    case LRU => map k | k in d :: d[k].accessedAt
    case FIFO => map k | k in d :: d[k].createdAt
    case _ => map k | k in d :: d[k].accessCount
  }

  /** What the scan of a strategy picks; the empty string stands for nothing. */
  ghost function Victim(strategy: Strategy, d: Data, order: seq<string>): string
    requires Enumerates(order, d.Keys)
  {
    if strategy == LRU || strategy == FIFO then ScanOldest(order, ScoresOf(strategy, d)).0
    else ScanLeast(order, ScoresOf(strategy, d)).0
  }

  ghost function WithoutVictim(c: Cache, k: string): Cache {
    if k == "" then c else Removed(c, k)
  }

  /** The eviction of at most one item, for every strategy but TTL. */
  ghost predicate EvictsOne(strategy: Strategy, c: Cache, c': Cache) {
    exists order :: Enumerates(order, c.data.Keys) && c' == WithoutVictim(c, Victim(strategy, c.data, order))
  }

  /** One call of `evictItems`. `Adaptive` evicts as LFU does: the hit rate it consults is only
      ever computed on copies of the statistics. */
  ghost predicate Evicts(strategy: Strategy, c: Cache, now: int, c': Cache) {
    if strategy == TTL then c' == Cleaned(c, now) else EvictsOne(strategy, c, c')
  }

  /** One call of `Set` with an item that was packed successfully; `c1` is the cache after the
      eviction that memory pressure forces. */
  ghost predicate SetsVia(policy: Policy, c: Cache, key: string, item: Item, now: int, c1: Cache, c': Cache) {
    && (if Pressure(policy, c, item.Size()) then Evicts(policy.strategy, c, now, c1) else c1 == c)
    && var c2 := Put(c1, key, item);
       if |c2.data| > policy.maxSize then Evicts(policy.strategy, c2, now, c') else c' == c2
  }

  ghost predicate Sets(policy: Policy, c: Cache, key: string, item: Item, now: int, c': Cache) {
    exists c1 :: SetsVia(policy, c, key, item, now, c1, c')
  }

  /** `Set`, and the size of the item it overwrote, which the memory counter does not give back. */
  ghost predicate SetsLeaving(policy: Policy, c: Cache, key: string, item: Item, now: int, c': Cache, left: int) {
    exists c1 :: SetsVia(policy, c, key, item, now, c1, c') && left == if key in c1.data then c1.data[key].Size() else 0
  }

  // Memory accounting -----------------------------------------------------------------------------------

  ghost function TotalSize(d: Data): nat
    decreases |d|
  {
    if d == map[] then 0
    else
      var k :| k in d;
      assert (d - {k}).Keys == d.Keys - {k};
      d[k].Size() + TotalSize(d - {k})
  }

  lemma {:induction false} TotalWithout(d: Data, k: string)
    requires k in d
    ensures TotalSize(d) == d[k].Size() + TotalSize(d - {k})
    ensures |d - {k}| == |d| - 1
    decreases |d|
  {
    assert (d - {k}).Keys == d.Keys - {k};
    var j :| j in d && TotalSize(d) == d[j].Size() + TotalSize(d - {j});
    if j != k {
      assert (d - {j}).Keys == d.Keys - {j};
      TotalWithout(d - {j}, k);
      TotalWithout(d - {k}, j);
      assert d - {j} - {k} == d - {k} - {j};
    }
  }

  lemma TotalWith(d: Data, k: string, item: Item)
    ensures TotalSize(d[k := item]) == item.Size() + TotalSize(d - {k})
    ensures |d[k := item]| == if k in d then |d| else |d| + 1
  {
    hide TotalSize;
    TotalWithout(d[k := item], k);
    assert d[k := item] - {k} == d - {k};
    SizeWith(d, k, item);
  }

  lemma SizeWith(d: Data, k: string, item: Item)
    ensures |d[k := item]| == if k in d then |d| else |d| + 1
  {
    assert d[k := item].Keys == d.Keys + {k};
  }

  lemma TotalUpdate(d: Data, k: string, item: Item)
    requires k in d && item.Size() == d[k].Size()
    ensures TotalSize(d[k := item]) == TotalSize(d) && |d[k := item]| == |d|
  {
    TotalWith(d, k, item);
    TotalWithout(d, k);
  }

  lemma RemovedMemory(c: Cache, k: string)
    ensures Removed(c, k).memory - TotalSize(Removed(c, k).data) == c.memory - TotalSize(c.data)
    ensures |Removed(c, k).data| == if k in c.data then |c.data| - 1 else |c.data|
  {
    if k in c.data { TotalWithout(c.data, k); }
  }

  /** Evicting, deleting and cleaning up keep the gap between the counter and the live sizes,
      and only ever remove items. */
  lemma EvictsMemory(strategy: Strategy, c: Cache, now: int, c': Cache)
    requires Evicts(strategy, c, now, c')
    ensures c'.memory - TotalSize(c'.data) == c.memory - TotalSize(c.data)
    ensures c'.data.Keys <= c.data.Keys && |c'.data| <= |c.data|
    ensures forall k :: k in c'.data ==> c'.data[k] == c.data[k]
  {
    if strategy != TTL {
      var order :| Enumerates(order, c.data.Keys) && c' == WithoutVictim(c, Victim(strategy, c.data, order));
      RemovedMemory(c, Victim(strategy, c.data, order));
    } else {
      FewerKeys(c'.data, c.data);
    }
  }

  lemma FewerKeys(d: Data, e: Data)
    requires d.Keys <= e.Keys
    ensures |d| <= |e|
  {
    assert e.Keys == d.Keys + (e.Keys - d.Keys);
  }

  // The size limit --------------------------------------------------------------------------------------

  /** When is an eviction sure to remove something? */
  ghost predicate MustEvict(strategy: Strategy, d: Data, now: int) {
    match strategy
    case TTL => exists k :: k in d && Expired(d[k], now)
    case LRU => d != map[] && !StrictlyLeast(ScoresOf(LRU, d), "")
    case FIFO => d != map[] && !StrictlyLeast(ScoresOf(FIFO, d), "")
    case _ => (exists k :: k in d && d[k].accessCount < MAX_INT64) && !Least(ScoresOf(strategy, d), "")
  }

  /** One item of the least score is gone. */
  ghost predicate RemovesLeast(c: Cache, scores: Scores, c': Cache) {
    exists k :: k != "" && k in c.data && Least(scores, k) && c' == Removed(c, k)
  }

  lemma EvictionRemovesLeast(strategy: Strategy, c: Cache, c': Cache, now: int)
    requires strategy != TTL && EvictsOne(strategy, c, c') && MustEvict(strategy, c.data, now)
    ensures RemovesLeast(c, ScoresOf(strategy, c.data), c')
  {
    var scores := ScoresOf(strategy, c.data);
    assert scores.Keys == c.data.Keys;
    var order :| Enumerates(order, c.data.Keys) && c' == WithoutVictim(c, Victim(strategy, c.data, order));
    if strategy == LRU || strategy == FIFO {
      OldestIsPicked(order, scores);
    } else {
      var k :| k in c.data && c.data[k].accessCount < MAX_INT64;
      assert k in scores && scores[k] < MAX_INT64;
      LeastIsPicked(order, scores);
    }
    var k := Victim(strategy, c.data, order);
    assert k in c.data && Least(scores, k);
  }

  /** Can an eviction remove the item under `key`? */
  ghost predicate CanLose(strategy: Strategy, d: Data, key: string, now: int)
    requires key in d
  {
    match strategy
    case TTL => Expired(d[key], now)
    case LRU => Exposed(ScoresOf(LRU, d), key)
    case FIFO => Exposed(ScoresOf(FIFO, d), key)
    case _ => key != "" && Least(ScoresOf(strategy, d), key) && d[key].accessCount < MAX_INT64
  }

  lemma LosesOnlyExposed(strategy: Strategy, c: Cache, key: string, now: int, c': Cache)
    requires strategy != TTL && EvictsOne(strategy, c, c') && key in c.data && key !in c'.data
    ensures CanLose(strategy, c.data, key, now)
  {
    var scores := ScoresOf(strategy, c.data);
    assert scores.Keys == c.data.Keys;
    var order :| Enumerates(order, c.data.Keys) && c' == WithoutVictim(c, Victim(strategy, c.data, order));
    assert Victim(strategy, c.data, order) == key != "";
    if strategy == LRU || strategy == FIFO {
      PickedIsExposed(order, scores);
    } else {
      LeastCanBePickedIff(scores, key);
    }
  }

  lemma ExposedIsLost(strategy: Strategy, c: Cache, key: string, now: int) returns (c': Cache)
    requires strategy != TTL && key in c.data && CanLose(strategy, c.data, key, now)
    ensures EvictsOne(strategy, c, c') && key !in c'.data
  {
    var scores, order := ScoresOf(strategy, c.data), [];
    assert scores.Keys == c.data.Keys;
    if strategy == LRU || strategy == FIFO {
      order := ExposedIsPicked(scores, key);
    } else {
      order := LeastFirst(scores, key);
    }
    EvictsOneIntro(strategy, c, order, key);
    c' := Removed(c, key);
  }

  /** For each strategy: when an eviction is sure to spare a key. */
  lemma EvictionSparesIff(strategy: Strategy, c: Cache, key: string, now: int)
    requires key in c.data
    ensures (forall c' | Evicts(strategy, c, now, c') :: key in c'.data) <==> !CanLose(strategy, c.data, key, now)
  {
    if strategy == TTL {
      assert key in Cleaned(c, now).data <==> !Expired(c.data[key], now);
    } else if CanLose(strategy, c.data, key, now) {
      hide CanLose, EvictsOne;
      var c' := ExposedIsLost(strategy, c, key, now);
      assert Evicts(strategy, c, now, c');
    } else {
      hide CanLose, EvictsOne;
      forall c' | Evicts(strategy, c, now, c') ensures key in c'.data {
        if key !in c'.data { LosesOnlyExposed(strategy, c, key, now, c'); }
      }
    }
  }

  lemma VictimInData(strategy: Strategy, d: Data, order: seq<string>)
    requires Enumerates(order, d.Keys)
    ensures var k := Victim(strategy, d, order); k == "" || k in d
  {
    if strategy == LRU || strategy == FIFO {
      OldestInOrder(order, ScoresOf(strategy, d));
    } else {
      LeastInOrder(order, ScoresOf(strategy, d));
    }
  }

  lemma EvictionCanMiss(strategy: Strategy, c: Cache, now: int)
    requires strategy != TTL && !MustEvict(strategy, c.data, now)
    ensures EvictsOne(strategy, c, c)
  {
    var scores, order := ScoresOf(strategy, c.data), [];
    assert scores.Keys == c.data.Keys;
    if strategy == LRU || strategy == FIFO {
      if c.data == map[] {
        order := [];
      } else {
        order := OldestMissed(scores);
      }
    } else {
      assert (forall k :: k in c.data ==> scores[k] == c.data[k].accessCount);
      order := LeastMissed(scores);
    }
    EvictsOneIntro(strategy, c, order, "");
  }

  /** For each strategy, and in whatever order its scan visits the map. */
  lemma EvictsShrinksIff(strategy: Strategy, c: Cache, now: int)
    ensures (forall c' | Evicts(strategy, c, now, c') :: |c'.data| < |c.data|) <==> MustEvict(strategy, c.data, now)
  {
    if strategy == TTL {
      CleaningShrinksIff(c, now);
    } else if MustEvict(strategy, c.data, now) {
      hide MustEvict, EvictsOne;
      forall c' | Evicts(strategy, c, now, c') ensures |c'.data| < |c.data| {
        EvictionRemovesLeast(strategy, c, c', now);
        var k :| k in c.data && c' == Removed(c, k);
        RemovedMemory(c, k);
      }
    } else {
      EvictionCanMiss(strategy, c, now);
      assert Evicts(strategy, c, now, c);
    }
  }

  lemma KeyMissing(d: Data, e: Data, k: string)
    requires d.Keys <= e.Keys && k in e && k !in d
    ensures |d| < |e|
  {
    FewerKeys(d, e - {k});
    assert (e - {k}).Keys == e.Keys - {k};
    assert |e - {k}| == |(e - {k}).Keys| == |e.Keys| - 1;
  }

  lemma CleaningShrinksIff(c: Cache, now: int)
    ensures |Cleaned(c, now).data| < |c.data| <==> exists k :: k in c.data && Expired(c.data[k], now)
  {
    var d := Unexpired(c.data, now);
    if k :| k in c.data && Expired(c.data[k], now) {
      KeyMissing(d, c.data, k);
    } else {
      assert d == c.data;
    }
  }

  lemma SetsElim(policy: Policy, c: Cache, key: string, item: Item, now: int, c': Cache) returns (c1: Cache)
    requires Sets(policy, c, key, item, now, c')
    ensures if Pressure(policy, c, item.Size()) then Evicts(policy.strategy, c, now, c1) else c1 == c
    ensures var c2 := Put(c1, key, item);
            if |c2.data| > policy.maxSize then Evicts(policy.strategy, c2, now, c') else c' == c2
  {
    var c1' :| SetsVia(policy, c, key, item, now, c1', c');
    c1 := c1';
  }

  /** `Set` is sure to keep the number of items within the limit exactly when the key is there
      already, there is room, or one of the evictions it makes is sure to remove something. */
  lemma SetsKeepsLimitIff(policy: Policy, c: Cache, key: string, item: Item, now: int)
    requires |c.data| <= policy.maxSize
    ensures (forall c' | Sets(policy, c, key, item, now, c') :: |c'.data| <= policy.maxSize)
       <==> || key in c.data || |c.data| < policy.maxSize
            || (Pressure(policy, c, item.Size()) && MustEvict(policy.strategy, c.data, now))
            || MustEvict(policy.strategy, c.data[key := item], now)
  {
    hide Pressure, Evicts, MustEvict;
    if key in c.data || |c.data| < policy.maxSize
      || (Pressure(policy, c, item.Size()) && MustEvict(policy.strategy, c.data, now))
       || MustEvict(policy.strategy, c.data[key := item], now) {
      forall c' | Sets(policy, c, key, item, now, c') ensures |c'.data| <= policy.maxSize {
        SetsStaysWithin(policy, c, key, item, now, c');
      }
    } else {
      var c' := SetsOverflows(policy, c, key, item, now);
    }
  }

  lemma SetsStaysWithin(policy: Policy, c: Cache, key: string, item: Item, now: int, c': Cache)
    requires |c.data| <= policy.maxSize && Sets(policy, c, key, item, now, c')
    requires || key in c.data || |c.data| < policy.maxSize
             || (Pressure(policy, c, item.Size()) && MustEvict(policy.strategy, c.data, now))
             || MustEvict(policy.strategy, c.data[key := item], now)
    ensures |c'.data| <= policy.maxSize
  {
    hide Pressure, Evicts, MustEvict, Sets;
    var c1 := SetsElim(policy, c, key, item, now, c');
    var c2 := Put(c1, key, item);
    if Pressure(policy, c, item.Size()) {
      EvictsMemory(policy.strategy, c, now, c1);
      EvictsShrinksIff(policy.strategy, c, now);
      if |c1.data| == |c.data| { SameData(c1.data, c.data); }
    }
    TotalWith(c1.data, key, item);
    if |c2.data| > policy.maxSize {
      EvictsMemory(policy.strategy, c2, now, c');
      EvictsShrinksIff(policy.strategy, c2, now);
    }
  }

  /** Without memory pressure an item just set is sure to be stored exactly if it fits in, or the
      eviction that follows is sure to spare it. */
  lemma UnpressedSetIsStoredIff(policy: Policy, c: Cache, key: string, item: Item, now: int)
    requires !Pressure(policy, c, item.Size())
    ensures (forall c' | Sets(policy, c, key, item, now, c') :: key in c'.data)
       <==> |c.data[key := item]| <= policy.maxSize || !CanLose(policy.strategy, c.data[key := item], key, now)
  {
    hide Pressure, Evicts, Sets, CanLose;
    var c2 := Put(c, key, item);
    EvictionSparesIff(policy.strategy, c2, key, now);
    if |c2.data| <= policy.maxSize || !CanLose(policy.strategy, c2.data, key, now) {
      forall c' | Sets(policy, c, key, item, now, c') ensures key in c'.data {
        var c1 := SetsElim(policy, c, key, item, now, c');
      }
    } else {
      var c' :| Evicts(policy.strategy, c2, now, c') && key !in c'.data;
      SetsIntro(policy, c, key, item, now, c, c');
    }
  }

  /** When an item just set is sure to be stored: the key is there already, there is room, memory
      pressure is sure to make some, or the eviction that follows is sure to spare the item. */
  lemma SetIsStoredIff(policy: Policy, c: Cache, key: string, item: Item, now: int)
    requires |c.data| <= policy.maxSize
    ensures (forall c' | Sets(policy, c, key, item, now, c') :: key in c'.data)
       <==> || key in c.data || |c.data| < policy.maxSize
            || (Pressure(policy, c, item.Size()) && MustEvict(policy.strategy, c.data, now))
            || !CanLose(policy.strategy, c.data[key := item], key, now)
  {
    hide Pressure, Evicts, MustEvict, CanLose;
    if key in c.data || |c.data| < policy.maxSize
      || (Pressure(policy, c, item.Size()) && MustEvict(policy.strategy, c.data, now))
       || !CanLose(policy.strategy, c.data[key := item], key, now) {
      forall c' | Sets(policy, c, key, item, now, c') ensures key in c'.data {
        SetStaysStored(policy, c, key, item, now, c');
      }
    } else {
      var c' := SetIsLost(policy, c, key, item, now);
    }
  }

  lemma SetStaysStored(policy: Policy, c: Cache, key: string, item: Item, now: int, c': Cache)
    requires |c.data| <= policy.maxSize && Sets(policy, c, key, item, now, c')
    requires || key in c.data || |c.data| < policy.maxSize
             || (Pressure(policy, c, item.Size()) && MustEvict(policy.strategy, c.data, now))
             || !CanLose(policy.strategy, c.data[key := item], key, now)
    ensures key in c'.data
  {
    hide Pressure, Evicts, MustEvict, Sets, CanLose;
    var c1 := SetsElim(policy, c, key, item, now, c');
    var c2 := Put(c1, key, item);
    if Pressure(policy, c, item.Size()) {
      EvictsMemory(policy.strategy, c, now, c1);
      EvictsShrinksIff(policy.strategy, c, now);
      if |c1.data| == |c.data| { SameData(c1.data, c.data); }
    }
    SizeWith(c1.data, key, item);
    if |c2.data| > policy.maxSize { EvictionSparesIff(policy.strategy, c2, key, now); }
  }

  lemma SetIsLost(policy: Policy, c: Cache, key: string, item: Item, now: int) returns (c': Cache)
    requires |c.data| == policy.maxSize && key !in c.data
    requires Pressure(policy, c, item.Size()) ==> !MustEvict(policy.strategy, c.data, now)
    requires CanLose(policy.strategy, c.data[key := item], key, now)
    ensures Sets(policy, c, key, item, now, c') && key !in c'.data
  {
    hide Pressure, MustEvict, Sets, CanLose, Evicts;
    var c2 := Put(c, key, item);
    SizeWith(c.data, key, item);
    if Pressure(policy, c, item.Size()) { NothingEvicted(policy.strategy, c, now); }
    EvictionSparesIff(policy.strategy, c2, key, now);
    c' :| Evicts(policy.strategy, c2, now, c') && key !in c'.data;
    SetsIntro(policy, c, key, item, now, c, c');
  }

  lemma SameData(d: Data, e: Data)
    requires d.Keys <= e.Keys && |d| == |e| && forall k :: k in d ==> d[k] == e[k]
    ensures d == e
  {
    forall k | k in e ensures k in d {
      if k !in d { KeyMissing(d, e, k); }
    }
  }

  lemma SetsOverflows(policy: Policy, c: Cache, key: string, item: Item, now: int) returns (c': Cache)
    requires |c.data| == policy.maxSize && key !in c.data
    requires Pressure(policy, c, item.Size()) ==> !MustEvict(policy.strategy, c.data, now)
    requires !MustEvict(policy.strategy, c.data[key := item], now)
    ensures Sets(policy, c, key, item, now, c') && |c'.data| > policy.maxSize
  {
    hide Pressure, MustEvict, Sets;
    var c2 := Put(c, key, item);
    TotalWith(c.data, key, item);
    if Pressure(policy, c, item.Size()) { NothingEvicted(policy.strategy, c, now); }
    NothingEvicted(policy.strategy, c2, now);
    SetsIntro(policy, c, key, item, now, c, c2);
    c' := c2;
  }

  /** An eviction that need not remove anything can leave the cache as it is. */
  lemma NothingEvicted(strategy: Strategy, c: Cache, now: int)
    requires !MustEvict(strategy, c.data, now)
    ensures Evicts(strategy, c, now, c)
  {
    if strategy == TTL {
      assert Unexpired(c.data, now) == c.data;
    } else {
      EvictionCanMiss(strategy, c, now);
    }
  }

  lemma UnusedMustGo(strategy: Strategy, d: Data, key: string, now: int)
    requires strategy != TTL && "" !in d && key in d && d[key].accessCount < MAX_INT64
    ensures MustEvict(strategy, d, now)
  {
  }

  /** With non-empty keys every strategy that evicts by choice keeps the limit. */
  lemma SetsKeepsLimit(policy: Policy, c: Cache, key: string, item: Item, now: int, c': Cache)
    requires Sets(policy, c, key, item, now, c') && policy.strategy != TTL && item.accessCount == 0
    requires "" !in c.data && key != "" && |c.data| <= policy.maxSize
    ensures |c'.data| <= policy.maxSize
  {
    hide MustEvict, Sets;
    UnusedMustGo(policy.strategy, c.data[key := item], key, now);
    SetsStaysWithin(policy, c, key, item, now, c');
  }

  /** As long as there is room, by number and by memory, `Set` only stores its item. */
  lemma SetWithRoom(policy: Policy, c: Cache, key: string, item: Item, now: int, c': Cache)
    requires Sets(policy, c, key, item, now, c') && |c.data[key := item]| <= policy.maxSize
    requires c.memory / 1_048_576 + item.Size() / 1_048_576 <= policy.maxMemoryMB
    ensures c' == Cache(c.data[key := item], c.memory + item.Size())
  {
    hide Evicts;
    var c1 := SetsElim(policy, c, key, item, now, c');
  }

  /** When the memory counter and the new item together pass the limit, in whole megabytes, `Set`
      evicts first: if that is sure to remove something, the cache does not grow. */
  lemma SetUnderPressure(policy: Policy, c: Cache, key: string, item: Item, now: int, c': Cache)
    requires Sets(policy, c, key, item, now, c') && MustEvict(policy.strategy, c.data, now)
    requires c.memory / 1_048_576 + item.Size() / 1_048_576 > policy.maxMemoryMB
    ensures |c'.data| <= |c.data|
  {
    assert Pressure(policy, c, item.Size());
    hide Pressure, Evicts, MustEvict, Sets;
    var c1 := SetsElim(policy, c, key, item, now, c');
    EvictsShrinksIff(policy.strategy, c, now);
    SizeWith(c1.data, key, item);
    if |Put(c1, key, item).data| > policy.maxSize {
      EvictsMemory(policy.strategy, Put(c1, key, item), now, c');
    }
  }

  /** `Set` stores its item and leaves every other one alone, save those it evicts. */
  lemma SetOnKeys(policy: Policy, c: Cache, key: string, item: Item, now: int, c': Cache)
    requires Sets(policy, c, key, item, now, c')
    ensures forall k :: k in c'.data ==> if k == key then c'.data[k] == item else k in c.data && c'.data[k] == c.data[k]
  {
    hide Pressure, Evicts, TotalSize;
    var c1 := SetsElim(policy, c, key, item, now, c');
    var c2 := Put(c1, key, item);
    if Pressure(policy, c, item.Size()) { EvictsMemory(policy.strategy, c, now, c1); }
    if |c2.data| > policy.maxSize { EvictsMemory(policy.strategy, c2, now, c'); }
  }

  // The class -------------------------------------------------------------------------------------------

  class AdvancedCache<V(!new)> {
    const policy: Policy
    const codec: Codec<V>
    var data: Data
    var hits: nat
    var misses: nat
    var evictions: nat
    var size: int
    var memoryUsage: int
    var hitRate: real
    /** The sizes that were overwritten, or dropped by an expired `Get`, since the last `Clear`. */
    ghost var slack: nat
    /** Has the empty key been set since the last `Clear`? */
    ghost var emptyKeySet: bool

    ghost function Value(): Cache
      reads this
    {
      Cache(data, memoryUsage)
    }

    /** The size counter is the number of items, and the memory counter exceeds the live sizes
        by exactly the slack. */
    ghost predicate Accounted()
      reads this
    {
      size == |data| && memoryUsage == TotalSize(data) + slack
    }

    ghost predicate Valid()
      reads this
    {
      && Accounted()
      && hitRate == 0.0
      && (!emptyKeySet ==> "" !in data)
      && (!emptyKeySet && policy.strategy != TTL && policy.maxSize >= 0 ==> |data| <= policy.maxSize)
    }

    constructor (policy: Policy, codec: Codec<V>)
      ensures Valid() && data == map[] && slack == 0 && !emptyKeySet
      ensures this.policy == policy && this.codec == codec
    {
      this.policy, this.codec := policy, codec;
      data, size, memoryUsage, slack, emptyKeySet := map[], 0, 0, 0, false;
      hits, misses, evictions, hitRate := 0, 0, 0, 0.0;
    }

    method Get(key: string, now: int) returns (r: Option<V>)
      requires Valid()
      modifies this
      ensures Valid() && emptyKeySet == old(emptyKeySet)
      ensures Value() == AfterGet(old(Value()), key, now)
      ensures var item := Found(old(Value()), key, now);
              r == if item.Some? then Unpack(codec, item.value.packed) else None
      ensures slack == old(slack)
                       + if key in old(data) && Expired(old(data)[key], now) then old(data)[key].Size() else 0
      ensures (hits, misses) == if r.Some? then (old(hits) + 1, old(misses)) else (old(hits), old(misses) + 1)
    {
      hide TotalSize, Unpack;
      if key !in data {
        misses := misses + 1;
        return None;
      }
      var item := data[key];
      if Expired(item, now) {
        TotalWithout(data, key);
        slack := slack + item.Size();
        data := data - {key};
        size := size - 1;
        misses := misses + 1;
        return None;
      }
      TotalUpdate(data, key, Touched(item, now));
      data := data[key := Touched(item, now)];
      r := Unpack(codec, item.packed);
      if r.Some? {
        hits := hits + 1;
      } else {
        misses := misses + 1;
      }
    }

    /** False when the value cannot be marshalled; nothing is stored then. */
    method Set(key: string, value: V, ttl: int, now: int, seed: nat) returns (stored: bool)
      requires Valid()
      modifies this
      ensures Valid() && emptyKeySet == (old(emptyKeySet) || (stored && key == ""))
      ensures stored <==> Pack(codec, policy, value, seed).Some?
      ensures !stored ==> Value() == old(Value()) && slack == old(slack)
      ensures stored ==>
                var item := NewItem(Pack(codec, policy, value, seed).value, ttl, now);
                && Sets(policy, old(Value()), key, item, now, Value())
                && SetsLeaving(policy, old(Value()), key, item, now, Value(), slack - old(slack))
                && old(slack) <= slack <= old(slack) + (if key in old(data) then old(data)[key].Size() else 0)
                && (key in old(data) && !Pressure(policy, old(Value()), item.Size()) ==>
                   slack == old(slack) + old(data)[key].Size())
      ensures stored && key in data ==> forall t :: Found(Value(), key, t).Some? <==> ttl <= 0 || t <= now + ttl
      ensures hits == old(hits) && misses == old(misses)
    {
      var packed := Pack(codec, policy, value, seed);
      if packed.None? {
        return false;
      }
      var item := NewItem(packed.value, ttl, now);
      ghost var c := Value();
      StoreItem(key, item, now);
      SetOnKeys(policy, c, key, item, now, Value());
      stored := true;
    }

    method StoreItem(key: string, item: Item, now: int)
      requires Valid() && item.accessCount == 0
      modifies this
      ensures Valid() && emptyKeySet == (old(emptyKeySet) || key == "")
      ensures Sets(policy, old(Value()), key, item, now, Value())
      ensures SetsLeaving(policy, old(Value()), key, item, now, Value(), slack - old(slack))
      ensures old(slack) <= slack <= old(slack) + (if key in old(data) then old(data)[key].Size() else 0)
      ensures key in old(data) && !Pressure(policy, old(Value()), item.Size()) ==>
              slack == old(slack) + old(data)[key].Size()
      ensures hits == old(hits) && misses == old(misses)
    {
      hide TotalSize, Sets, SetsLeaving, Pressure;
      ghost var c := Value();
      StoreCounted(key, item, now);
      SetOnKeys(policy, c, key, item, now, Value());
      if !emptyKeySet && key != "" && policy.strategy != TTL && policy.maxSize >= 0 {
        SetsKeepsLimit(policy, c, key, item, now, Value());
      }
      emptyKeySet := emptyKeySet || key == "";
    }

    method StoreCounted(key: string, item: Item, now: int)
      requires Accounted() && hitRate == 0.0
      modifies this`data, this`size, this`memoryUsage, this`evictions, this`slack
      ensures Accounted()
      ensures Sets(policy, old(Value()), key, item, now, Value())
      ensures SetsLeaving(policy, old(Value()), key, item, now, Value(), slack - old(slack))
      ensures old(slack) <= slack <= old(slack) + (if key in old(data) then old(data)[key].Size() else 0)
      ensures key in old(data) && !Pressure(policy, old(Value()), item.Size()) ==>
              slack == old(slack) + old(data)[key].Size()
    {
      hide TotalSize, Evicts, Pressure, Put, Sets, SetsLeaving, SetsVia;
      ghost var c := Value();
      RelievePressure(item.Size(), now);
      ghost var c1 := Value();
      PutItem(key, item);
      Trim(now);
      SetsIntro(policy, c, key, item, now, c1, Value());
    }

    /** The eviction before an item of the given size is stored. */
    method RelievePressure(itemSize: nat, now: int)
      requires Accounted() && hitRate == 0.0
      modifies this`data, this`size, this`memoryUsage, this`evictions
      ensures Accounted()
      ensures if Pressure(policy, old(Value()), itemSize) then Evicts(policy.strategy, old(Value()), now, Value())
              else Value() == old(Value())
      ensures forall k :: k in data ==> k in old(data) && data[k] == old(data)[k]
    {
      hide TotalSize;
      ghost var c := Value();
      if memoryUsage / MEGABYTE + itemSize / MEGABYTE > policy.maxMemoryMB {
        hide Pressure, Evicts;
        EvictItems(now);
        EvictsMemory(policy.strategy, c, now, Value());
      }
    }

    /** The eviction after an item has been stored. */
    method Trim(now: int)
      requires Accounted() && hitRate == 0.0
      modifies this`data, this`size, this`memoryUsage, this`evictions
      ensures Accounted()
      ensures if |old(data)| > policy.maxSize then Evicts(policy.strategy, old(Value()), now, Value())
              else Value() == old(Value())
      ensures data.Keys <= old(data).Keys && |data| <= |old(data)| && evictions - old(evictions) == old(size) - size
    {
      hide TotalSize, Evicts;
      ghost var c := Value();
      if size > policy.maxSize {
        EvictItems(now);
        EvictsMemory(policy.strategy, c, now, Value());
      }
    }

    method PutItem(key: string, item: Item)
      requires Accounted()
      modifies this`data, this`size, this`memoryUsage, this`slack
      ensures Accounted() && Value() == Put(old(Value()), key, item)
      ensures slack == old(slack) + if key in old(data) then old(data)[key].Size() else 0
    {
      hide TotalSize;
      TotalWith(data, key, item);
      if key !in data {
        assert data - {key} == data;
        size := size + 1;
      } else {
        TotalWithout(data, key);
        slack := slack + data[key].Size();
      }
      data := data[key := item];
      memoryUsage := memoryUsage + item.Size();
    }

    method Delete(key: string)
      requires Valid()
      modifies this
      ensures Valid() && emptyKeySet == old(emptyKeySet)
      ensures Value() == Removed(old(Value()), key) && slack == old(slack)
    {
      RemovedMemory(Value(), key);
      DeleteInternal(key);
    }

    method DeleteInternal(key: string)
      requires Accounted()
      modifies this`data, this`size, this`memoryUsage
      ensures Accounted() && Value() == Removed(old(Value()), key)
      ensures size == old(size) - if key in old(data) then 1 else 0
    {
      hide TotalSize;
      if key in data {
        TotalWithout(data, key);
        memoryUsage := memoryUsage - data[key].Size();
        data := data - {key};
        size := size - 1;
      }
    }

    method Clear()
      requires Valid()
      modifies this
      ensures Valid() && Value() == Cache(map[], 0) && slack == 0 && !emptyKeySet
    {
      data, size, memoryUsage, slack, emptyKeySet := map[], 0, 0, 0, false;
    }

    method EvictItems(now: int)
      requires Accounted()
      modifies this`data, this`size, this`memoryUsage, this`evictions
      ensures Accounted()
      ensures hitRate <= ADAPTIVE_HIT_RATE ==> Evicts(policy.strategy, old(Value()), now, Value())
      ensures evictions - old(evictions) == old(size) - size
    {
      match policy.strategy {
        case LRU => EvictLRU();
        case LFU => EvictLFU();
        case FIFO => EvictFIFO();
        case TTL => EvictExpired(now);
        case Adaptive => EvictAdaptive();
      }
    }

    /** What every scan ends with. */
    method RemoveVictim(ghost strategy: Strategy, ghost order: seq<string>, victim: string)
      requires Accounted() && strategy != TTL && Enumerates(order, data.Keys) && victim == Victim(strategy, data, order)
      modifies this`data, this`size, this`memoryUsage, this`evictions
      ensures Accounted() && EvictsOne(strategy, old(Value()), Value())
      ensures MustEvict(strategy, old(data), 0) ==> RemovesLeast(old(Value()), ScoresOf(strategy, old(data)), Value())
      ensures evictions - old(evictions) == old(size) - size
    {
      hide TotalSize, Victim, EvictsOne, MustEvict, RemovesLeast;
      ghost var c := Value();
      EvictsOneIntro(strategy, c, order, victim);
      VictimInData(strategy, data, order);
      if victim != "" {
        DeleteInternal(victim);
        evictions := evictions + 1;
      }
      if MustEvict(strategy, c.data, 0) { EvictionRemovesLeast(strategy, c, Value(), 0); }
    }

    method EvictLRU()
      requires Accounted()
      modifies this`data, this`size, this`memoryUsage, this`evictions
      ensures Accounted() && EvictsOne(LRU, old(Value()), Value())
      ensures old(data) != map[] && !StrictlyLeast(ScoresOf(LRU, old(data)), "") ==>
                RemovesLeast(old(Value()), ScoresOf(LRU, old(data)), Value())
      ensures evictions - old(evictions) == old(size) - size
    {
      hide TotalSize;
      ghost var order: seq<string> := [];
      var oldestKey, oldestTime := "", 0;
      var rest := data.Keys;
      while rest != {}
        invariant rest <= data.Keys && Enumerates(order, data.Keys - rest) && Value() == old(Value()) && Accounted()
        invariant (oldestKey, oldestTime) == ScanOldest(order, ScoresOf(LRU, data))
        decreases rest
      {
        var key :| key in rest;
        rest := rest - {key};
        assert (order + [key])[..|order|] == order;
        if oldestKey == "" || data[key].accessedAt < oldestTime {
          oldestKey, oldestTime := key, data[key].accessedAt;
        }
        order := order + [key];
      }
      RemoveVictim(LRU, order, oldestKey);
    }

    method EvictFIFO()
      requires Accounted()
      modifies this`data, this`size, this`memoryUsage, this`evictions
      ensures Accounted() && EvictsOne(FIFO, old(Value()), Value())
      ensures old(data) != map[] && !StrictlyLeast(ScoresOf(FIFO, old(data)), "") ==>
                RemovesLeast(old(Value()), ScoresOf(FIFO, old(data)), Value())
      ensures evictions - old(evictions) == old(size) - size
    {
      hide TotalSize;
      ghost var order: seq<string> := [];
      var oldestKey, oldestTime := "", 0;
      var rest := data.Keys;
      while rest != {}
        invariant rest <= data.Keys && Enumerates(order, data.Keys - rest) && Value() == old(Value()) && Accounted()
        invariant (oldestKey, oldestTime) == ScanOldest(order, ScoresOf(FIFO, data))
        decreases rest
      {
        var key :| key in rest;
        rest := rest - {key};
        assert (order + [key])[..|order|] == order;
        if oldestKey == "" || data[key].createdAt < oldestTime {
          oldestKey, oldestTime := key, data[key].createdAt;
        }
        order := order + [key];
      }
      RemoveVictim(FIFO, order, oldestKey);
    }

    method EvictLFU()
      requires Accounted()
      modifies this`data, this`size, this`memoryUsage, this`evictions
      ensures Accounted() && EvictsOne(LFU, old(Value()), Value())
      ensures (exists k :: k in old(data) && old(data)[k].accessCount < 0x7fff_ffff_ffff_ffff)
              && !Least(ScoresOf(LFU, old(data)), "") ==>
                RemovesLeast(old(Value()), ScoresOf(LFU, old(data)), Value())
      ensures evictions - old(evictions) == old(size) - size
    {
      hide TotalSize;
      ghost var order: seq<string> := [];
      var leastUsedKey, minAccessCount := "", MAX_INT64;
      var rest := data.Keys;
      while rest != {}
        invariant rest <= data.Keys && Enumerates(order, data.Keys - rest) && Value() == old(Value()) && Accounted()
        invariant (leastUsedKey, minAccessCount) == ScanLeast(order, ScoresOf(LFU, data))
        decreases rest
      {
        var key :| key in rest;
        rest := rest - {key};
        assert (order + [key])[..|order|] == order;
        if data[key].accessCount < minAccessCount {
          leastUsedKey, minAccessCount := key, data[key].accessCount;
        }
        order := order + [key];
      }
      RemoveVictim(LFU, order, leastUsedKey);
    }

    method EvictAdaptive()
      requires Accounted()
      modifies this`data, this`size, this`memoryUsage, this`evictions
      ensures Accounted()
      ensures EvictsOne(if hitRate > 0.8 then LRU else Adaptive, old(Value()), Value())
      ensures evictions - old(evictions) == old(size) - size
    {
      hide EvictsOne;
      if hitRate > ADAPTIVE_HIT_RATE {
        EvictLRU();
      } else {
        ghost var c := Value();
        EvictLFU();
        AdaptiveEvictsAsLFU(c, Value());
      }
    }

    method EvictExpired(now: int)
      requires Accounted()
      modifies this`data, this`size, this`memoryUsage, this`evictions
      ensures Accounted() && Value() == Cleaned(old(Value()), now)
      ensures evictions - old(evictions) == old(size) - size
    {
      hide TotalSize;
      ghost var before := data;
      var rest := data.Keys;
      while rest != {}
        invariant rest <= before.Keys && Accounted() && evictions - old(evictions) == old(size) - size
        invariant data == map k | k in before && (k in rest || !Expired(before[k], now)) :: before[k]
        decreases rest
      {
        var key :| key in rest;
        rest := rest - {key};
        if Expired(data[key], now) {
          DeleteInternal(key);
          evictions := evictions + 1;
        }
      }
      assert data == Unexpired(before, now);
    }

    /** The periodic cleanup. */
    method Cleanup(now: int)
      requires Valid()
      modifies this
      ensures Valid() && emptyKeySet == old(emptyKeySet) && slack == old(slack)
      ensures |Unexpired(old(data), now)| <= policy.maxSize ==> Value() == Cleaned(old(Value()), now)
      ensures evictions - old(evictions) == old(size) - size
      ensures |Unexpired(old(data), now)| > policy.maxSize ==>
              Evicts(policy.strategy, Cleaned(old(Value()), now), now, Value())
    {
      ghost var c := Value();
      EvictExpired(now);
      FewerKeys(data, c.data);
      assert data == Unexpired(c.data, now);
      hide TotalSize, Evicts, Cleaned, Unexpired;
      Trim(now);
    }
  }

  function NewItem(packed: Packed, ttl: int, now: int): Item {
    Item(packed, now, now, if ttl > 0 then Some(now + ttl) else None, 0)
  }

  lemma AdaptiveEvictsAsLFU(c: Cache, c': Cache)
    requires EvictsOne(LFU, c, c')
    ensures EvictsOne(Adaptive, c, c')
  {
    var order :| Enumerates(order, c.data.Keys) && c' == WithoutVictim(c, Victim(LFU, c.data, order));
    EvictsOneIntro(Adaptive, c, order, Victim(LFU, c.data, order));
  }

  lemma SetsIntro(policy: Policy, c: Cache, key: string, item: Item, now: int, c1: Cache, c': Cache)
    requires if Pressure(policy, c, item.Size()) then Evicts(policy.strategy, c, now, c1) else c1 == c
    requires var c2 := Put(c1, key, item);
             if |c2.data| > policy.maxSize then Evicts(policy.strategy, c2, now, c') else c' == c2
    ensures Sets(policy, c, key, item, now, c')
    ensures SetsLeaving(policy, c, key, item, now, c', if key in c1.data then c1.data[key].Size() else 0)
  {
    assert SetsVia(policy, c, key, item, now, c1, c');
  }

  lemma EvictsOneIntro(strategy: Strategy, c: Cache, order: seq<string>, k: string)
    requires Enumerates(order, c.data.Keys) && k == Victim(strategy, c.data, order)
    ensures EvictsOne(strategy, c, WithoutVictim(c, k))
  {
  }
}
