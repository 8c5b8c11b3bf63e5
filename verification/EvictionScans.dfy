/** The scans by which the cache picks the item to evict (internal/cache/advanced_cache.go:365-416).
    They visit the map in an arbitrary order, and the empty key doubles as "nothing found yet".

    Scores are times or access counts; the scan is after the least. */
module EvictionScans {

  const MAX_INT64 := 0x7fff_ffff_ffff_ffff

  type Scores = map<string, int>

  ghost predicate Enumerates(order: seq<string>, keys: set<string>) {
    && (forall i, j :: 0 <= i < j < |order| ==> order[i] != order[j])
    && (forall k :: k in order <==> k in keys)
  }

  ghost predicate Least(scores: Scores, k: string) {
    k in scores && forall j :: j in scores ==> scores[k] <= scores[j]
  }

  ghost predicate StrictlyLeast(scores: Scores, k: string) {
    k in scores && forall j :: j in scores && j != k ==> scores[k] < scores[j]
  }

  lemma {:induction false} SomeEnumeration(keys: set<string>) returns (order: seq<string>)
    ensures Enumerates(order, keys)
    decreases keys
  {
    if keys == {} {
      order := [];
    } else {
      var k :| k in keys;
      var rest := SomeEnumeration(keys - {k});
      order := [k] + rest;
    }
  }

  lemma EnumerationsJoin(a: seq<string>, aKeys: set<string>, b: seq<string>, bKeys: set<string>)
    requires Enumerates(a, aKeys) && Enumerates(b, bKeys) && aKeys !! bKeys
    ensures Enumerates(a + b, aKeys + bKeys)
  {
    forall i, j | 0 <= i < j < |a + b| ensures (a + b)[i] != (a + b)[j] {
      if i < |a| <= j { assert a[i] in aKeys && b[j - |a|] in bKeys; }
    }
  }

  // By time -------------------------------------------------------------------------------------------

  /** The scan of `evictLRU` and `evictFIFO`. */
  ghost function ScanOldest(order: seq<string>, times: Scores): (string, int)
    requires forall k :: k in order ==> k in times
  {
    if order == [] then ("", 0)
    else
      var n := |order| - 1;
      var best := ScanOldest(order[..n], times);
      if best.0 == "" || times[order[n]] < best.1 then (order[n], times[order[n]]) else best
  }

  lemma {:induction false} OldestInOrder(order: seq<string>, times: Scores)
    requires forall k :: k in order ==> k in times
    ensures var r := ScanOldest(order, times); r.0 == "" || (r.0 in order && r.1 == times[r.0])
  {
    if order != [] { OldestInOrder(order[..|order| - 1], times); }
  }

  /** Once it has met a non-empty key that the empty key does not beat, the scan never falls back
      behind it. */
  lemma {:induction false} ScanFindsOldest(order: seq<string>, times: Scores, o: string)
    requires forall k :: k in order ==> k in times
    requires o in order && o != "" && ("" in order ==> times[o] <= times[""])
    ensures var r := ScanOldest(order, times); r.0 != "" && r.0 in order && r.1 == times[r.0] <= times[o]
  {
    var n := |order| - 1;
    OldestInOrder(order[..n], times);
    if o in order[..n] {
      ScanFindsOldest(order[..n], times, o);
    } else {
      assert order[n] == o;
    }
  }

  /** The scan is sure to pick an item of the least time, whatever the order, exactly when there
      is one and the empty key is not strictly the oldest. */
  lemma OldestIsPickedIff(times: Scores)
    ensures (forall order | Enumerates(order, times.Keys) ::
               var k := ScanOldest(order, times).0; k != "" && Least(times, k))
       <==> times != map[] && !StrictlyLeast(times, "")
  {
    if times == map[] {
      assert Enumerates([], times.Keys) && ScanOldest([], times).0 == "";
    } else if StrictlyLeast(times, "") {
      var order := OldestMissed(times);
    } else {
      forall order | Enumerates(order, times.Keys)
        ensures var k := ScanOldest(order, times).0; k != "" && Least(times, k)
      {
        OldestIsPicked(order, times);
      }
    }
  }

  lemma OldestIsPicked(order: seq<string>, times: Scores)
    requires Enumerates(order, times.Keys) && times != map[] && !StrictlyLeast(times, "")
    ensures var k := ScanOldest(order, times).0; k != "" && Least(times, k)
  {
    var o := SomeLeast(times.Keys, times);
    if o == "" {
      var j :| j in times && j != "" && times[j] <= times[""];
      o := j;
    }
    ScanFindsOldest(order, times, o);
  }

  lemma {:induction false} SomeLeast(keys: set<string>, scores: Scores) returns (o: string)
    requires keys != {} && keys <= scores.Keys
    ensures o in keys && forall j :: j in keys ==> scores[o] <= scores[j]
    decreases keys
  {
    var k :| k in keys;
    o := k;
    if keys != {k} {
      assert keys - {k} != {};
      var j := SomeLeast(keys - {k}, scores);
      if scores[j] < scores[k] { o := j; }
    }
  }

  lemma OldestMissed(times: Scores) returns (order: seq<string>)
    requires StrictlyLeast(times, "")
    ensures Enumerates(order, times.Keys) && ScanOldest(order, times).0 == ""
  {
    var rest := SomeEnumeration(times.Keys - {""});
    order := rest + [""];
    assert order[..|rest|] == rest;
    OldestInOrder(rest, times);
  }

  /** Which items the scan can pick: every older item must be beaten by the empty key, which makes
      the scan start over. */
  ghost predicate Exposed(times: Scores, key: string) {
    && key in times && key != ""
    && forall j :: j in times && j != "" && times[j] < times[key] ==> "" in times && times[""] < times[j]
  }

  lemma PickedIsExposed(order: seq<string>, times: Scores)
    requires Enumerates(order, times.Keys) && ScanOldest(order, times).0 != ""
    ensures Exposed(times, ScanOldest(order, times).0)
  {
    OldestInOrder(order, times);
    var key := ScanOldest(order, times).0;
    forall j | j in times && j != "" && times[j] < times[key] ensures "" in times && times[""] < times[j] {
      if !("" in times && times[""] < times[j]) { ScanFindsOldest(order, times, j); }
    }
  }

  lemma {:induction false} ScanStays(a: seq<string>, b: seq<string>, times: Scores)
    requires forall k :: k in a + b ==> k in times
    requires ScanOldest(a, times).0 != "" && forall k :: k in b ==> ScanOldest(a, times).1 <= times[k]
    ensures ScanOldest(a + b, times) == ScanOldest(a, times)
    decreases |b|
  {
    if b == [] {
      assert a + b == a;
    } else {
      var n := |b| - 1;
      assert (a + b)[..|a + b| - 1] == a + b[..n];
      assert b == b[..n] + [b[n]];
      ScanStays(a, b[..n], times);
    }
  }

  lemma EmptyBeats(older: seq<string>, times: Scores)
    requires "" in times && forall k :: k in older ==> k in times && times[""] < times[k]
    ensures ScanOldest(older + [""], times).0 == ""
  {
    OldestInOrder(older, times);
    assert (older + [""])[..|older|] == older;
  }

  function OlderThan(times: Scores, key: string): set<string>
    requires key in times
  {
    set j | j in times && j != "" && times[j] < times[key]
  }

  /** The items older than `key`, then the empty key: the scan starts over. */
  lemma StartOver(times: Scores, key: string) returns (start: seq<string>, keys: set<string>)
    requires Exposed(times, key)
    ensures keys == OlderThan(times, key) + (if "" in times then {""} else {}) && keys <= times.Keys
    ensures Enumerates(start, keys) && ScanOldest(start, times).0 == ""
  {
    var older := OlderThan(times, key);
    start := SomeEnumeration(older);
    KeysOf(start, older);
    hide Enumerates;
    if "" in times {
      EmptyBeats(start, times);
      EmptyAlone();
      EnumerationsJoin(start, older, [""], {""});
      start, keys := start + [""], older + {""};
    } else {
      keys := older;
      assert older == {};
      NoneEnumerated(start, older);
    }
  }

  lemma NoneEnumerated(order: seq<string>, keys: set<string>)
    requires Enumerates(order, keys)
    ensures keys == {} ==> order == []
  {
    if order != [] { assert order[0] in keys; }
  }

  lemma EmptyAlone()
    ensures Enumerates([""], {""})
  {
  }

  /** Then comes `key`, and then the rest. */
  lemma ExposedIsPicked(times: Scores, key: string) returns (order: seq<string>)
    requires Exposed(times, key)
    ensures Enumerates(order, times.Keys) && ScanOldest(order, times).0 == key
  {
    hide Enumerates;
    var start, keys := StartOver(times, key);
    assert key !in keys && keys <= times.Keys && forall j :: j in times && j !in keys ==> times[key] <= times[j];
    hide OlderThan, Exposed;
    var restKeys := times.Keys - (keys + {key});
    var rest := SomeEnumeration(restKeys);
    order := start + [key] + rest;
    assert (start + [key])[..|start|] == start;
    JoinThree(start, keys, key, rest, restKeys);
    assert keys + {key} + restKeys == times.Keys;
    KeysOf(start, keys);
    KeysOf(rest, restKeys);
    ScanStays(start + [key], rest, times);
  }

  lemma KeysOf(order: seq<string>, keys: set<string>)
    requires Enumerates(order, keys)
    ensures forall k :: k in order <==> k in keys
  {
  }

  lemma JoinThree(start: seq<string>, keys: set<string>, key: string, rest: seq<string>, restKeys: set<string>)
    requires Enumerates(start, keys) && Enumerates(rest, restKeys)
    requires key !in keys && key !in restKeys && keys !! restKeys
    ensures Enumerates(start + [key] + rest, keys + {key} + restKeys)
  {
    EnumerationsJoin(start, keys, [key], {key});
    EnumerationsJoin(start + [key], keys + {key}, rest, restKeys);
  }

  lemma OldestCanBePickedIff(times: Scores, key: string)
    requires key != ""
    ensures (exists order :: Enumerates(order, times.Keys) && ScanOldest(order, times).0 == key)
       <==> Exposed(times, key)
  {
    if order :| Enumerates(order, times.Keys) && ScanOldest(order, times).0 == key {
      PickedIsExposed(order, times);
    }
    if Exposed(times, key) {
      var order := ExposedIsPicked(times, key);
    }
  }

  // By access count -----------------------------------------------------------------------------------

  /** The scan of `evictLFU`. */
  ghost function ScanLeast(order: seq<string>, counts: Scores): (string, int)
    requires forall k :: k in order ==> k in counts
  {
    if order == [] then ("", MAX_INT64)
    else
      var n := |order| - 1;
      var best := ScanLeast(order[..n], counts);
      if counts[order[n]] < best.1 then (order[n], counts[order[n]]) else best
  }

  lemma {:induction false} LeastInOrder(order: seq<string>, counts: Scores)
    requires forall k :: k in order ==> k in counts
    ensures var r := ScanLeast(order, counts);
            && (r == ("", MAX_INT64) || (r.0 in order && r.1 == counts[r.0] < MAX_INT64))
            && forall k :: k in order ==> r.1 <= counts[k] || MAX_INT64 <= counts[k]
  {
    if order != [] {
      var n := |order| - 1;
      LeastInOrder(order[..n], counts);
      assert order == order[..n] + [order[n]];
    }
  }

  /** The scan stays at a least count that it meets first. */
  lemma {:induction false} FirstStays(order: seq<string>, counts: Scores)
    requires (forall k :: k in order ==> k in counts) && order != []
    requires Least(counts, order[0]) && counts[order[0]] < MAX_INT64
    ensures ScanLeast(order, counts) == (order[0], counts[order[0]])
  {
    var n := |order| - 1;
    if n > 0 { FirstStays(order[..n], counts); }
  }

  /** The scan is sure to pick a least used item, whatever the order, exactly when there is one
      below the largest count and the empty key is not among the least used. */
  lemma LeastIsPickedIff(counts: Scores)
    ensures (forall order | Enumerates(order, counts.Keys) ::
               var k := ScanLeast(order, counts).0; k != "" && Least(counts, k))
       <==> (exists k :: k in counts && counts[k] < MAX_INT64) && !Least(counts, "")
  {
    if (exists k :: k in counts && counts[k] < MAX_INT64) && !Least(counts, "") {
      forall order | Enumerates(order, counts.Keys)
        ensures var k := ScanLeast(order, counts).0; k != "" && Least(counts, k)
      {
        LeastIsPicked(order, counts);
      }
    } else {
      var order := LeastMissed(counts);
    }
  }

  lemma LeastIsPicked(order: seq<string>, counts: Scores)
    requires Enumerates(order, counts.Keys) && (exists k :: k in counts && counts[k] < MAX_INT64) && !Least(counts, "")
    ensures var k := ScanLeast(order, counts).0; k != "" && Least(counts, k)
  {
    LeastInOrder(order, counts);
  }

  /** The scan can pick exactly the least used items below the limit. */
  lemma LeastCanBePickedIff(counts: Scores, key: string)
    requires key != ""
    ensures (exists order :: Enumerates(order, counts.Keys) && ScanLeast(order, counts).0 == key)
       <==> Least(counts, key) && counts[key] < MAX_INT64
  {
    if order :| Enumerates(order, counts.Keys) && ScanLeast(order, counts).0 == key {
      LeastInOrder(order, counts);
    }
    if Least(counts, key) && counts[key] < MAX_INT64 {
      var order := LeastFirst(counts, key);
    }
  }

  lemma LeastFirst(counts: Scores, key: string) returns (order: seq<string>)
    requires Least(counts, key) && counts[key] < MAX_INT64
    ensures Enumerates(order, counts.Keys) && ScanLeast(order, counts).0 == key
  {
    var rest := SomeEnumeration(counts.Keys - {key});
    order := [key] + rest;
    FirstStays(order, counts);
  }

  lemma LeastMissed(counts: Scores) returns (order: seq<string>)
    requires (forall k :: k in counts ==> counts[k] >= MAX_INT64) || Least(counts, "")
    ensures Enumerates(order, counts.Keys) && ScanLeast(order, counts).0 == ""
  {
    if forall k :: k in counts ==> counts[k] >= MAX_INT64 {
      order := SomeEnumeration(counts.Keys);
      LeastInOrder(order, counts);
    } else {
      order := LeastFirst(counts, "");
    }
  }
}
