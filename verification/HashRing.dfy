/** The consistent hash ring of the distributed cache (internal/cache/advanced_cache.go:516-699).

    The hash function is a parameter: everything below holds for any function into 32 bits,
    collisions included. The ring's map iterations are in no particular order. */
module HashRings {
  import opened Common

  type uint32 = x: int | 0 <= x < 0x1_0000_0000

  type Hash = string -> uint32

  type Ring = map<uint32, string>

  function Digits(n: nat): string {
    if n < 10 then ["0123456789"[n]] else Digits(n / 10) + ["0123456789"[n % 10]]
  }

  /** The ring position of a node's `i`-th virtual node, `"<id>-<i>"`. */
  function Point(hash: Hash, id: string, i: nat): uint32 {
    hash(id + "-" + Digits(i))
  }

  function Points(hash: Hash, id: string, weight: int): set<uint32> {
    set i: nat | i < weight :: Point(hash, id, i)
  }

  function Add(m: Ring, hash: Hash, id: string, weight: int): Ring {
    m + map p | p in Points(hash, id, weight) :: id
  }

  function Remove(m: Ring, id: string): Ring {
    map p | p in m && m[p] != id :: m[p]
  }

  // The names of the points ---------------------------------------------------------------------

  predicate IsDigit(c: char) {
    '0' <= c <= '9'
  }

  /** Reading a number back. */
  function Number(s: string): int {
    if s == "" then 0 else 10 * Number(s[..|s| - 1]) + (s[|s| - 1] as int - '0' as int)
  }

  lemma {:induction false} DigitsReadBack(n: nat)
    ensures Digits(n) != "" && Number(Digits(n)) == n
    ensures forall k :: 0 <= k < |Digits(n)| ==> IsDigit(Digits(n)[k])
  {
    var last := ["0123456789"[n % 10]];
    assert IsDigit(last[0]) && last[0] as int == '0' as int + n % 10;
    if n >= 10 {
      DigitsReadBack(n / 10);
      assert (Digits(n / 10) + last)[..|Digits(n / 10)|] == Digits(n / 10);
    } else {
      assert Number(last[..0]) == 0;
    }
  }

  /** No two virtual nodes share a name, whatever dashes and digits the names of the nodes hold. */
  lemma NamesDiffer(a: string, i: nat, b: string, j: nat)
    requires a + "-" + Digits(i) == b + "-" + Digits(j)
    ensures a == b && i == j
  {
    DigitsReadBack(i);
    DigitsReadBack(j);
    LastDash(a, i);
    LastDash(b, j);
    var s := a + "-" + Digits(i);
    assert |a| == |b|;
    assert s[..|a|] == a && s[..|b|] == b && s[|a| + 1..] == Digits(i) && s[|b| + 1..] == Digits(j);
  }

  lemma LastDash(a: string, i: nat)
    ensures var s := a + "-" + Digits(i); s[|a|] == '-' && forall k :: |a| < k < |s| ==> s[k] != '-'
  {
    DigitsReadBack(i);
  }

  /** So it is only by collisions of the hash that two virtual nodes share a point: for any two of
      them there is a hash that tells them apart. */
  lemma PointsCanDiffer(a: string, i: nat, b: string, j: nat) returns (hash: Hash)
    requires a != b || i != j
    ensures Point(hash, a, i) != Point(hash, b, j)
  {
    var name := a + "-" + Digits(i);
    hash := (s: string) => if s == name then 1 else 0;
    if b + "-" + Digits(j) == name { NamesDiffer(a, i, b, j); }
  }

  // Lookup --------------------------------------------------------------------------------------

  /** `p` is the least point at or after `k`, or the least of all when there is none. */
  ghost predicate IsSuccessor(points: set<uint32>, k: uint32, p: uint32) {
    && p in points
    && if exists q :: q in points && q >= k
       then p >= k && forall q :: q in points && q >= k ==> p <= q
       else forall q :: q in points ==> p <= q
  }

  lemma {:induction false} LeastExists(points: set<uint32>) returns (p: uint32)
    requires points != {}
    ensures p in points && forall q :: q in points ==> p <= q
    decreases points
  {
    var x :| x in points;
    p := x;
    if points - {x} != {} {
      var y := LeastExists(points - {x});
      if y < x { p := y; }
      forall q | q in points ensures p <= q { assert q == x || q in points - {x}; }
    } else {
      assert points == {x};
    }
  }

  lemma SuccessorExists(points: set<uint32>, k: uint32)
    requires points != {}
    ensures exists p :: IsSuccessor(points, k, p)
  {
    var after := set q | q in points && q >= k;
    if after != {} {
      var p := LeastExists(after);
      forall q | q in points && q >= k ensures p <= q { assert q in after; }
      assert IsSuccessor(points, k, p);
    } else {
      var p := LeastExists(points);
      forall q | q in points ensures q < k { assert q >= k ==> q in after; }
      assert IsSuccessor(points, k, p);
    }
  }

  /** The owner of a position: the specification `GetNode` is held to. */
  ghost function Owner(m: Ring, k: uint32): string {
    if m == map[] then ""
    else
      SuccessorExists(m.Keys, k);
      var p :| IsSuccessor(m.Keys, k, p);
      m[p]
  }

  lemma OwnerOf(m: Ring, k: uint32, p: uint32)
    requires IsSuccessor(m.Keys, k, p)
    ensures m != map[] && Owner(m, k) == m[p]
  {
    assert p in m;
    SuccessorExists(m.Keys, k);
    forall q | IsSuccessor(m.Keys, k, q) ensures q == p {}
  }

  // Minimal disruption ----------------------------------------------------------------------------

  /** A successor that survives in a smaller ring is its successor too. */
  lemma SuccessorOfSubset(few: set<uint32>, many: set<uint32>, k: uint32, p: uint32)
    requires few <= many && p in few && IsSuccessor(many, k, p)
    ensures IsSuccessor(few, k, p)
  {
    if exists q :: q in few && q >= k {
      var q :| q in few && q >= k;
      assert q in many;
    } else {
      assert p < k;
    }
  }

  /** Adding a node moves positions to that node only. */
  lemma AddDisruptsMinimally(m: Ring, hash: Hash, id: string, weight: int, k: uint32)
    ensures Owner(Add(m, hash, id, weight), k) in {Owner(m, k), id}
  {
    var m' := Add(m, hash, id, weight);
    if m' != map[] {
      assert m.Keys <= m'.Keys;
      SuccessorExists(m'.Keys, k);
      var p :| IsSuccessor(m'.Keys, k, p);
      OwnerOf(m', k, p);
      if p !in Points(hash, id, weight) {
        SuccessorOfSubset(m.Keys, m'.Keys, k, p);
        OwnerOf(m, k, p);
      }
    }
  }

  /** Removing a node moves only the positions that node owned. */
  lemma RemoveDisruptsMinimally(m: Ring, id: string, k: uint32)
    requires Owner(m, k) != id
    ensures Owner(Remove(m, id), k) == Owner(m, k)
  {
    var m' := Remove(m, id);
    if m != map[] {
      SuccessorExists(m.Keys, k);
      var p :| IsSuccessor(m.Keys, k, p);
      OwnerOf(m, k, p);
      SuccessorOfSubset(m'.Keys, m.Keys, k, p);
      OwnerOf(m', k, p);
    }
  }

  /** Once removed, a node owns nothing. */
  lemma RemovedOwnsNothing(m: Ring, id: string, k: uint32)
    requires id != ""
    ensures Owner(Remove(m, id), k) != id
  {
    var m' := Remove(m, id);
    if m' != map[] {
      SuccessorExists(m'.Keys, k);
      var p :| IsSuccessor(m'.Keys, k, p);
      OwnerOf(m', k, p);
    }
  }

  /** Adding a node and removing it again restores the ring exactly when the node was absent
      and its points were free. */
  lemma AddThenRemoveIff(m: Ring, hash: Hash, id: string, weight: int)
    ensures Remove(Add(m, hash, id, weight), id) == m <==> id !in m.Values && Points(hash, id, weight) !! m.Keys
  {
    var m' := Add(m, hash, id, weight);
    var r := Remove(m', id);
    if id in m.Values {
      var p :| p in m && m[p] == id;
      assert p !in r;
    } else if p :| p in Points(hash, id, weight) && p in m.Keys {
      assert m'[p] == id;
      assert p !in r;
    } else {
      assert forall p :: p in m ==> m[p] in m.Values;
      assert r == m;
    }
  }

  lemma AddAt(m: Ring, hash: Hash, id: string, weight: int, p: uint32)
    ensures var m' := Add(m, hash, id, weight);
            && (p in m' <==> p in m || p in Points(hash, id, weight))
            && (p in m' ==> m'[p] == if p in Points(hash, id, weight) then id else m[p])
  {
  }

  /** The order of two additions matters only for positions that both nodes claim. */
  lemma AddsCommuteIff(m: Ring, hash: Hash, a: string, wa: int, b: string, wb: int)
    ensures Add(Add(m, hash, a, wa), hash, b, wb) == Add(Add(m, hash, b, wb), hash, a, wa)
       <==> a == b || Points(hash, a, wa) !! Points(hash, b, wb)
  {
    hide Add, Points;
    var ma, mb := Add(m, hash, a, wa), Add(m, hash, b, wb);
    var ab, ba := Add(ma, hash, b, wb), Add(mb, hash, a, wa);
    forall p: uint32
      ensures p in ab <==> p in ba
      ensures p in ab ==> (ab[p] == ba[p] <==> a == b || p !in Points(hash, a, wa) || p !in Points(hash, b, wb))
      ensures p in Points(hash, a, wa) ==> p in ab
    {
      AddAt(m, hash, a, wa, p);
      AddAt(m, hash, b, wb, p);
      AddAt(ma, hash, b, wb, p);
      AddAt(mb, hash, a, wa, p);
    }
    if a != b && !(Points(hash, a, wa) !! Points(hash, b, wb)) {
      var p :| p in Points(hash, a, wa) && p in Points(hash, b, wb);
      assert ab[p] != ba[p];
    } else {
      assert ab.Keys == ba.Keys;
    }
  }

  /** Adding a node a second time only ever widens it: the larger weight wins, and a smaller
      weight leaves all its old points in place. */
  lemma ReAddKeepsLargerWeight(m: Ring, hash: Hash, id: string, w1: int, w2: int)
    ensures Add(Add(m, hash, id, w1), hash, id, w2) == Add(m, hash, id, if w1 < w2 then w2 else w1)
  {
    var w := if w1 < w2 then w2 else w1;
    WiderPoints(hash, id, w1, w2);
    hide Points;
    assert Add(Add(m, hash, id, w1), hash, id, w2) == Add(m, hash, id, w);
  }

  lemma WiderPoints(hash: Hash, id: string, w1: int, w2: int)
    ensures Points(hash, id, w1) + Points(hash, id, w2) == Points(hash, id, if w1 < w2 then w2 else w1)
  {
    hide Point;
  }

  // The executable ring ---------------------------------------------------------------------------

  ghost predicate Sorted(s: seq<uint32>) {
    forall i, j :: 0 <= i < j < |s| ==> s[i] <= s[j]
  }

  ghost function Elements(s: seq<uint32>): set<uint32> {
    set x | x in s
  }

  ghost predicate Permuted(s: seq<uint32>, t: seq<uint32>) {
    multiset(s) == multiset(t)
  }

  /** From position `lo` on the sequence is sorted and no smaller than what precedes it. */
  ghost predicate SortedFrom(s: seq<uint32>, lo: int) {
    forall i, j :: 0 <= i < j < |s| && lo <= j ==> s[i] <= s[j]
  }

  /** Position `j` holds the largest element so far. */
  ghost predicate LargestAt(s: seq<uint32>, j: nat) {
    j < |s| && forall i :: 0 <= i < j ==> s[i] <= s[j]
  }

  lemma SwapStep(orig: seq<uint32>, s: seq<uint32>, lo: nat, j: nat)
    requires j + 1 < lo <= |s| && s[j] > s[j + 1]
    requires Permuted(s, orig) && SortedFrom(s, lo) && LargestAt(s, j)
    ensures var t := s[j := s[j + 1]][j + 1 := s[j]];
            Permuted(t, orig) && SortedFrom(t, lo) && LargestAt(t, j + 1)
  {
    var t := s[j := s[j + 1]][j + 1 := s[j]];
    assert multiset(t) == multiset(s);
  }

  lemma KeepStep(s: seq<uint32>, j: nat)
    requires j + 1 < |s| && s[j] <= s[j + 1] && LargestAt(s, j)
    ensures LargestAt(s, j + 1)
  {
  }

  lemma PassDone(s: seq<uint32>, lo: nat)
    requires 0 < lo <= |s| && SortedFrom(s, lo) && LargestAt(s, lo - 1)
    ensures SortedFrom(s, lo - 1)
  {
  }

  /** `sortKeys`: the nested loops sort the array in place. */
  method SortKeys(a: array<uint32>)
    modifies a
    ensures Sorted(a[..])
    ensures Permuted(a[..], old(a[..]))
  {
    var n := a.Length;
    ghost var orig := a[..];
    var i := 0;
    assert SortedFrom(a[..], n) && Permuted(a[..], orig);
    hide SortedFrom, LargestAt, Permuted;
    while i < n - 1
      invariant 0 <= i && (n > 0 ==> i <= n - 1) && (n == 0 ==> i == 0)
      invariant SortedFrom(a[..], n - i) && Permuted(a[..], orig)
    {
      var j := 0;
      FirstIsLargest(a[..]);
      while j < n - i - 1
        invariant 0 <= j <= n - i - 1
        invariant SortedFrom(a[..], n - i) && LargestAt(a[..], j) && Permuted(a[..], orig)
      {
        ghost var s := a[..];
        if a[j] > a[j + 1] {
          SwapStep(orig, s, n - i, j);
          a[j], a[j + 1] := a[j + 1], a[j];
          assert a[..] == s[j := s[j + 1]][j + 1 := s[j]];
        } else {
          KeepStep(s, j);
        }
        j := j + 1;
      }
      PassDone(a[..], n - i);
      i := i + 1;
    }
    AllSorted(a[..], n - i);
  }

  lemma FirstIsLargest(s: seq<uint32>)
    requires |s| > 0
    ensures LargestAt(s, 0)
  {
  }

  lemma AllSorted(s: seq<uint32>, lo: int)
    requires lo <= 1 && SortedFrom(s, lo)
    ensures Sorted(s)
  {
  }

  lemma SameElements(s: seq<uint32>, t: seq<uint32>)
    requires Permuted(s, t)
    ensures Elements(s) == Elements(t)
  {
    assert forall x :: x in s <==> x in multiset(s);
    assert forall x :: x in t <==> x in multiset(t);
  }

  method Append(a: array<uint32>, x: uint32) returns (b: array<uint32>)
    ensures fresh(b) && b[..] == a[..] + [x]
  {
    b := new uint32[a.Length + 1](i requires 0 <= i <= a.Length reads a => if i < a.Length then a[i] else x);
  }

  lemma AppendedElements(s: seq<uint32>, x: uint32)
    ensures Elements(s + [x]) == Elements(s) + {x}
  {
  }

  lemma AddNothing(m: Ring, hash: Hash, id: string, weight: int)
    ensures Add(m, hash, id, 0) == m
    ensures weight < 0 ==> Add(m, hash, id, weight) == m
  {
    assert Points(hash, id, 0) == {};
    assert weight < 0 ==> Points(hash, id, weight) == {};
  }

  lemma AddOneMore(m: Ring, hash: Hash, id: string, i: nat)
    ensures Add(m, hash, id, i + 1) == Add(m, hash, id, i)[Point(hash, id, i) := id]
  {
    OneMorePoint(hash, id, i);
    hide Add, Points, Point;
    var more, fewer := Add(m, hash, id, i + 1), Add(m, hash, id, i)[Point(hash, id, i) := id];
    forall p: uint32
      ensures p in more <==> p in fewer
      ensures p in more ==> more[p] == fewer[p]
    {
      AddAt(m, hash, id, i + 1, p);
      AddAt(m, hash, id, i, p);
    }
  }

  lemma OneMorePoint(hash: Hash, id: string, i: nat)
    ensures Points(hash, id, i + 1) == Points(hash, id, i) + {Point(hash, id, i)}
  {
    hide Point;
  }

  /** The positions of the map that belong to a node, gathered in no particular order. */
  method PointsOf(m: Ring, id: string) returns (found: set<uint32>)
    ensures found == set p | p in m && m[p] == id
  {
    found := {};
    var rest := m.Keys;
    while rest != {}
      invariant rest <= m.Keys
      invariant found == set p | p in m.Keys - rest && m[p] == id
      decreases rest
    {
      var p :| p in rest;
      rest := rest - {p};
      if m[p] == id {
        found := found + {p};
      }
    }
  }

  lemma RemoveIs(m: Ring, id: string, points: set<uint32>)
    requires points == set p | p in m && m[p] == id
    ensures m - points == Remove(m, id)
  {
  }

  /** The positions of the map, each once, in no particular order. */
  method ListKeys(m: Ring) returns (a: array<uint32>)
    ensures fresh(a) && a.Length == |m| && Elements(a[..]) == m.Keys
  {
    var keys := [];
    var rest := m.Keys;
    while rest != {}
      invariant rest <= m.Keys
      invariant Elements(keys) == m.Keys - rest
      invariant |keys| + |rest| == |m.Keys|
      decreases rest
    {
      var p :| p in rest;
      AppendedElements(keys, p);
      rest := rest - {p};
      keys := keys + [p];
    }
    a := new uint32[|keys|](i requires 0 <= i < |keys| => keys[i]);
    assert a[..] == keys;
  }

  class ConsistentHashRing {
    const hash: Hash
    var nodes: Ring
    var sortedKeys: array<uint32>

    /** The keys are sorted and are the positions of the map; a position may occur twice. */
    ghost predicate Valid()
      reads this, sortedKeys
    {
      Sorted(sortedKeys[..]) && Elements(sortedKeys[..]) == nodes.Keys
    }

    constructor (hash: Hash)
      ensures Valid() && fresh(sortedKeys) && this.hash == hash && nodes == map[]
    {
      this.hash := hash;
      nodes := map[];
      sortedKeys := new uint32[0];
    }

    method AddNode(id: string, weight: int)
      requires Valid()
      modifies this, sortedKeys
      ensures Valid() && (fresh(sortedKeys) || sortedKeys == old(sortedKeys))
      ensures nodes == Add(old(nodes), hash, id, weight)
    {
      AddNothing(nodes, hash, id, weight);
      hide Add, Point;
      var i := 0;
      while i < weight
        invariant 0 <= i && (weight >= 0 ==> i <= weight) && (weight < 0 ==> i == 0)
        invariant nodes == Add(old(nodes), hash, id, i)
        invariant Elements(sortedKeys[..]) == nodes.Keys
        invariant fresh(sortedKeys) || sortedKeys == old(sortedKeys)
      {
        AddOneMore(old(nodes), hash, id, i);
        var p := Point(hash, id, i);
        nodes := nodes[p := id];
        AppendedElements(sortedKeys[..], p);
        sortedKeys := Append(sortedKeys, p);
        i := i + 1;
      }
      ghost var unsorted := sortedKeys[..];
      SortKeys(sortedKeys);
      SameElements(sortedKeys[..], unsorted);
    }

    method RemoveNode(id: string)
      requires Valid()
      modifies this
      ensures Valid() && fresh(sortedKeys)
      ensures nodes == Remove(old(nodes), id)
      ensures sortedKeys.Length == |nodes|
    {
      var keysToRemove := PointsOf(nodes, id);
      RemoveIs(nodes, id, keysToRemove);
      hide Remove, Elements;
      nodes := nodes - keysToRemove;
      sortedKeys := ListKeys(nodes);
      ghost var unsorted := sortedKeys[..];
      SortKeys(sortedKeys);
      SameElements(sortedKeys[..], unsorted);
    }

    /** The scan finds the owner of the key's hash; an empty ring has none. */
    method GetNode(key: string) returns (id: string)
      requires Valid()
      ensures id == Owner(nodes, hash(key))
    {
      if sortedKeys.Length == 0 {
        assert nodes.Keys == {};
        return "";
      }
      var h := hash(key);
      var i := 0;
      while i < sortedKeys.Length
        invariant 0 <= i <= sortedKeys.Length
        invariant forall j :: 0 <= j < i ==> sortedKeys[j] < h
      {
        var p := sortedKeys[i];
        assert p in Elements(sortedKeys[..]);
        if p >= h {
          FirstIsSuccessor(sortedKeys[..], h, i);
          OwnerOf(nodes, h, p);
          return nodes[p];
        }
        i := i + 1;
      }
      var p := sortedKeys[0];
      assert p in Elements(sortedKeys[..]);
      NoneAfterIsSuccessor(sortedKeys[..], h);
      OwnerOf(nodes, h, p);
      return nodes[p];
    }
  }

  lemma FirstIsSuccessor(s: seq<uint32>, k: uint32, i: nat)
    requires Sorted(s) && i < |s| && s[i] >= k && forall j :: 0 <= j < i ==> s[j] < k
    ensures IsSuccessor(Elements(s), k, s[i])
  {
    assert s[i] in Elements(s);
    forall q | q in Elements(s) && q >= k ensures s[i] <= q {
      var j :| 0 <= j < |s| && s[j] == q;
    }
  }

  lemma NoneAfterIsSuccessor(s: seq<uint32>, k: uint32)
    requires Sorted(s) && |s| > 0 && forall j :: 0 <= j < |s| ==> s[j] < k
    ensures IsSuccessor(Elements(s), k, s[0])
  {
    assert s[0] in Elements(s);
    forall q | q in Elements(s) ensures s[0] <= q && q < k {
      var j :| 0 <= j < |s| && s[j] == q;
    }
  }

  // The node table --------------------------------------------------------------------------------

  datatype Node = Node(id: string, address: string, port: int, weight: int)

  class DistributedCache {
    var nodes: map<string, Node>
    const hashRing: ConsistentHashRing

    /** Every point of the ring belongs to a node of the table. */
    ghost predicate Valid()
      reads this, hashRing, hashRing.sortedKeys
    {
      hashRing.Valid() && hashRing.nodes.Values <= nodes.Keys && forall id :: id in nodes ==> nodes[id].id == id
    }

    constructor (hash: Hash)
      ensures Valid() && fresh(hashRing) && fresh(hashRing.sortedKeys)
      ensures nodes == map[] && hashRing.nodes == map[] && hashRing.hash == hash
    {
      nodes := map[];
      hashRing := new ConsistentHashRing(hash);
    }

    method AddNode(id: string, address: string, port: int, weight: int)
      requires Valid()
      modifies this, hashRing, hashRing.sortedKeys
      ensures Valid() && (fresh(hashRing.sortedKeys) || hashRing.sortedKeys == old(hashRing.sortedKeys))
      ensures nodes == old(nodes)[id := Node(id, address, port, weight)]
      ensures hashRing.nodes == Add(old(hashRing.nodes), hashRing.hash, id, weight)
    {
      nodes := nodes[id := Node(id, address, port, weight)];
      hashRing.AddNode(id, weight);
      forall v | v in hashRing.nodes.Values ensures v in nodes.Keys {
        var p :| p in hashRing.nodes && hashRing.nodes[p] == v;
        if p !in Points(hashRing.hash, id, weight) {
          assert old(hashRing.nodes)[p] == v;
          assert v in old(hashRing.nodes).Values;
        }
      }
    }

    method RemoveNode(id: string)
      requires Valid()
      modifies this, hashRing
      ensures Valid() && fresh(hashRing.sortedKeys)
      ensures nodes == old(nodes) - {id}
      ensures hashRing.nodes == Remove(old(hashRing.nodes), id)
    {
      nodes := nodes - {id};
      hashRing.RemoveNode(id);
      forall v | v in hashRing.nodes.Values ensures v in nodes.Keys {
        var p :| p in hashRing.nodes && hashRing.nodes[p] == v;
        assert old(hashRing.nodes)[p] == v;
        assert v in old(hashRing.nodes).Values;
      }
    }

    /** A non-empty ring finds a registered node for every key, save that the node named by the
        empty string is mistaken for "no node". */
    method GetNodeForKey(key: string) returns (node: Option<Node>)
      requires Valid()
      ensures node == None <==> hashRing.nodes == map[] || Owner(hashRing.nodes, hashRing.hash(key)) == ""
      ensures node.Some? ==> var id := Owner(hashRing.nodes, hashRing.hash(key)); id in nodes && node.value == nodes[id]
      ensures node.Some? ==> node.value.id == Owner(hashRing.nodes, hashRing.hash(key))
    {
      var nodeID := hashRing.GetNode(key);
      if nodeID == "" {
        return None;
      }
      var ring, h := hashRing.nodes, hashRing.hash(key);
      SuccessorExists(ring.Keys, h);
      ghost var p :| IsSuccessor(ring.Keys, h, p);
      OwnerOf(ring, h, p);
      assert ring[p] in ring.Values;
      return Some(nodes[nodeID]);
    }
  }
}
