// One shard of the cache. A handle is freed when it is neither in the cache
// nor held by a caller.

module CacheSpec {
  import opened Wrappers
  import opened Coding
  import opened CacheHandles

  // order: handles in the cache, oldest first; live: handles not yet freed;
  // held: handles returned to callers and not yet released.
  datatype CacheState = CacheState(order: seq<LRUHandle>, live: set<LRUHandle>, held: multiset<LRUHandle>)

  ghost function Total(s: set<LRUHandle>): nat {
    if s == {} then 0 else var x :| x in s; x.charge + Total(s - {x})
  }

  lemma {:induction false} TotalWithout(s: set<LRUHandle>, x: LRUHandle)
    requires x in s
    ensures Total(s) == x.charge + Total(s - {x})
    decreases s
  {
    var y :| y in s && Total(s) == y.charge + Total(s - {y});
    if x != y {
      TotalWithout(s - {y}, x);
      TotalWithout(s - {x}, y);
      assert s - {x} - {y} == s - {y} - {x};
    }
  }

  // Position of the handle with a key, or |order|.
  function Find(order: seq<LRUHandle>, key: Bytes, hash: nat): (k: nat)
    ensures k <= |order| && (k < |order| ==> Matches(order[k], key, hash))
    ensures forall i :: 0 <= i < k ==> !Matches(order[i], key, hash)
  {
    if |order| == 0 || Matches(order[0], key, hash) then 0 else 1 + Find(order[1..], key, hash)
  }

  function Without(order: seq<LRUHandle>, k: nat): seq<LRUHandle>
    requires k < |order|
  {
    order[..k] + order[k + 1..]
  }

  // The cache lets go of a handle.
  ghost function Drop(s: CacheState, k: nat): CacheState
    requires k < |s.order|
  {
    s.(order := Without(s.order, k), live := if s.order[k] in s.held then s.live else s.live - {s.order[k]})
  }

  ghost function Looked(s: CacheState, key: Bytes, hash: nat): (CacheState, Option<LRUHandle>) {
    var k := Find(s.order, key, hash);
    if k == |s.order| then (s, None)
    else (s.(order := Without(s.order, k) + [s.order[k]], held := s.held + multiset{s.order[k]}), Some(s.order[k]))
  }

  ghost function Released(s: CacheState, h: LRUHandle): CacheState
    requires h in s.held
  {
    var held := s.held - multiset{h};
    s.(held := held, live := if h in held || h in s.order then s.live else s.live - {h})
  }

  ghost function Erased(s: CacheState, key: Bytes, hash: nat): CacheState {
    var k := Find(s.order, key, hash);
    if k == |s.order| then s else Drop(s, k)
  }

  // A new handle replaces the one with its key and is the newest.
  ghost function Put(s: CacheState, e: LRUHandle): CacheState {
    var k := Find(s.order, e.key, e.hash);
    var s' := CacheState(s.order + [e], s.live + {e}, s.held + multiset{e});
    if k == |s.order| then s' else Drop(s', k)
  }

  // The oldest handles go until the rest fits.
  ghost function Evicted(s: CacheState, capacity: nat): CacheState
    decreases |s.order|
  {
    if Total(s.live) <= capacity || |s.order| == 0 then s else Evicted(Drop(s, 0), capacity)
  }

  // ----------------------------------------- what the operations mean

  ghost predicate UniqueIds(order: seq<LRUHandle>) {
    forall i, j :: 0 <= i < j < |order| ==> !SameId(order[i], order[j])
  }

  // The cache as a map from keys to handles.
  ghost function AsMap(order: seq<LRUHandle>): map<(Bytes, nat), LRUHandle>
    requires UniqueIds(order)
  {
    map h {:trigger h in order} | h in order :: (h.key, h.hash) := h
  }

  ghost predicate Distinct(ring: seq<LRUHandle>) {
    forall i, j :: 0 <= i < j < |ring| ==> ring[i] != ring[j]
  }

  lemma WithoutMembers(order: seq<LRUHandle>, k: nat)
    requires Distinct(order) && k < |order|
    ensures forall h :: h in Without(order, k) <==> h in order && h != order[k]
  {
    forall h | h in order && h != order[k] ensures h in Without(order, k) {
      var i :| 0 <= i < |order| && order[i] == h;
      assert Without(order, k)[if i < k then i else i - 1] == h;
    }
    forall h | h in Without(order, k) ensures h in order && h != order[k] {
      var i :| 0 <= i < |order| - 1 && Without(order, k)[i] == h;
      assert h == order[if i < k then i else i + 1];
    }
  }

  lemma UniqueIsDistinct(order: seq<LRUHandle>)
    requires UniqueIds(order)
    ensures Distinct(order)
  {
  }

  lemma WithoutUnique(order: seq<LRUHandle>, k: nat)
    requires UniqueIds(order) && k < |order|
    ensures UniqueIds(Without(order, k))
    ensures forall h :: h in Without(order, k) ==> !SameId(h, order[k])
  {
    var rest := Without(order, k);
    assert forall i :: 0 <= i < |rest| ==> rest[i] == order[if i < k then i else i + 1];
    forall i | 0 <= i < |rest| ensures !SameId(rest[i], order[k]) {
      assert if i < k then !SameId(order[i], order[k]) else !SameId(order[k], order[i + 1]);
    }
  }

  function Id(h: LRUHandle): (Bytes, nat) { (h.key, h.hash) }

  // m maps the keys of these handles to them.
  ghost predicate MapsTo(m: map<(Bytes, nat), LRUHandle>, order: seq<LRUHandle>) {
    && (forall h :: h in order ==> Id(h) in m && m[Id(h)] == h)
    && (forall id :: id in m ==> m[id] in order && Id(m[id]) == id)
  }

  lemma AsMapMaps(order: seq<LRUHandle>)
    requires UniqueIds(order)
    ensures MapsTo(AsMap(order), order)
  {
  }

  lemma MapsToOne(m: map<(Bytes, nat), LRUHandle>, m': map<(Bytes, nat), LRUHandle>, order: seq<LRUHandle>)
    requires MapsTo(m, order) && MapsTo(m', order)
    ensures m == m'
  {
    assert forall id :: id in m ==> id in m';
    assert forall id :: id in m' ==> id in m;
  }

  lemma WithoutIds(order: seq<LRUHandle>, k: nat)
    requires UniqueIds(order) && k < |order|
    ensures UniqueIds(Without(order, k))
    ensures AsMap(Without(order, k)) == AsMap(order) - {Id(order[k])}
  {
    hide AsMap;
    UniqueIsDistinct(order);
    WithoutMembers(order, k);
    WithoutUnique(order, k);
    AsMapMaps(order);
    AsMapMaps(Without(order, k));
    MapsToOne(AsMap(Without(order, k)), AsMap(order) - {Id(order[k])}, Without(order, k));
  }

  // rest is what order was, without h and otherwise in the same order.
  ghost predicate OneLess(order: seq<LRUHandle>, rest: seq<LRUHandle>, h: LRUHandle) {
    exists k :: 0 <= k < |order| && order[k] == h && LeavesOut(order, rest, k)
  }

  ghost predicate LeavesOut(order: seq<LRUHandle>, rest: seq<LRUHandle>, k: nat) {
    |rest| == |order| - 1 && forall i :: 0 <= i < |rest| ==> rest[i] == order[if i < k then i else i + 1]
  }

  // A miss changes nothing. A hit makes the handle the newest and the caller one
  // more of its holders, and changes nothing else.
  lemma LookedIsMapLookup(s: CacheState, key: Bytes, hash: nat)
    requires UniqueIds(s.order)
    ensures var (s', r) := Looked(s, key, hash);
      && UniqueIds(s'.order) && AsMap(s'.order) == AsMap(s.order) && s'.live == s.live
      && r == (if (key, hash) in AsMap(s.order) then Some(AsMap(s.order)[(key, hash)]) else None)
      && (r.Some? ==> |s'.order| > 0 && s'.order[|s'.order| - 1] == r.value)
      && (r.Some? ==> OneLess(s.order, s'.order[..|s'.order| - 1], r.value) && s'.held == s.held + multiset{r.value})
      && (r == None ==> s' == s)
  {
    hide AsMap, UniqueIds, OneLess;
    var k := Find(s.order, key, hash);
    AsMapMaps(s.order);
    if k < |s.order| {
      var rest := Without(s.order, k);
      WithoutIds(s.order, k);
      LeftOut(s.order, k);
      assert (rest + [s.order[k]])[..|rest|] == rest;
      AddedIds(rest, s.order[k]);
      PutBack(AsMap(s.order), s.order[k]);
    } else {
      assert (key, hash) !in AsMap(s.order);
    }
  }

  lemma PutBack(m: map<(Bytes, nat), LRUHandle>, h: LRUHandle)
    requires Id(h) in m && m[Id(h)] == h
    ensures (m - {Id(h)})[Id(h) := h] == m
  {
  }

  lemma AddedIds(order: seq<LRUHandle>, e: LRUHandle)
    requires UniqueIds(order) && Id(e) !in AsMap(order)
    ensures UniqueIds(order + [e]) && AsMap(order + [e]) == AsMap(order)[Id(e) := e]
  {
    hide AsMap;
    AsMapMaps(order);
    forall i | 0 <= i < |order| ensures !SameId(order[i], e) {
      assert order[i] in order;
    }
    AsMapMaps(order + [e]);
    MapsToOne(AsMap(order + [e]), AsMap(order)[Id(e) := e], order + [e]);
  }

  lemma WithoutFromMore(order: seq<LRUHandle>, k: nat, e: LRUHandle)
    requires k < |order|
    ensures Without(order + [e], k) == Without(order, k) + [e]
  {
  }

  // The new handle is the newest, and held once more. The handle that had its
  // key is no longer in the cache, and the others are where they were.
  lemma PutIsMapUpdate(s: CacheState, e: LRUHandle)
    requires UniqueIds(s.order)
    ensures var s' := Put(s, e);
      && UniqueIds(s'.order) && AsMap(s'.order) == AsMap(s.order)[Id(e) := e]
      && s'.held == s.held + multiset{e} && |s'.order| > 0 && s'.order[|s'.order| - 1] == e
      && (Id(e) !in AsMap(s.order) ==> s'.order[..|s'.order| - 1] == s.order)
      && (Id(e) in AsMap(s.order) ==> OneLess(s.order, s'.order[..|s'.order| - 1], AsMap(s.order)[Id(e)]))
  {
    hide AsMap, UniqueIds, Without, OneLess;
    var k := Find(s.order, e.key, e.hash);
    AsMapMaps(s.order);
    if k < |s.order| {
      LeftOut(s.order, k);
      WithoutIds(s.order, k);
      AddedIds(Without(s.order, k), e);
      WithoutFromMore(s.order, k, e);
    } else {
      assert Id(e) !in AsMap(s.order);
      AddedIds(s.order, e);
    }
  }

  lemma LeftOut(order: seq<LRUHandle>, k: nat)
    requires k < |order|
    ensures OneLess(order, Without(order, k), order[k])
  {
    assert LeavesOut(order, Without(order, k), k);
  }

  lemma ErasedIsMapRemoval(s: CacheState, key: Bytes, hash: nat)
    requires UniqueIds(s.order)
    ensures var s' := Erased(s, key, hash);
      && UniqueIds(s'.order) && AsMap(s'.order) == AsMap(s.order) - {(key, hash)} && s'.held == s.held
      && ((key, hash) !in AsMap(s.order) ==> s' == s)
      && ((key, hash) in AsMap(s.order) ==> OneLess(s.order, s'.order, AsMap(s.order)[(key, hash)]))
  {
    hide AsMap, UniqueIds, Without, OneLess;
    var k := Find(s.order, key, hash);
    AsMapMaps(s.order);
    if k < |s.order| {
      WithoutIds(s.order, k);
      LeftOut(s.order, k);
    } else {
      assert (key, hash) !in AsMap(s.order);
    }
  }

  // After the cache has let go of its n oldest handles.
  ghost function DropOldest(s: CacheState, n: nat): CacheState
    requires n <= |s.order|
    decreases n
  {
    if n == 0 then s else DropOldest(Drop(s, 0), n - 1)
  }

  // Eviction takes as many of the oldest as it must and no more: it stops as
  // soon as the rest fits.
  lemma {:induction false} EvictedIsLeast(s: CacheState, capacity: nat) returns (n: nat)
    ensures n <= |s.order| && Evicted(s, capacity) == DropOldest(s, n) && Evicted(s, capacity).order == s.order[n..]
    ensures Total(DropOldest(s, n).live) <= capacity || n == |s.order|
    ensures forall m :: 0 <= m < n ==> Total(DropOldest(s, m).live) > capacity
    decreases |s.order|
  {
    if Total(s.live) <= capacity || |s.order| == 0 {
      n := 0;
    } else {
      var more := EvictedIsLeast(Drop(s, 0), capacity);
      n := more + 1;
      assert Without(s.order, 0)[more..] == s.order[n..];
      forall m | 0 <= m < n ensures Total(DropOldest(s, m).live) > capacity {
        if m > 0 { assert DropOldest(s, m) == DropOldest(Drop(s, 0), m - 1); }
      }
    }
  }

  // What is not freed is what the cache or a caller holds.
  ghost predicate NoLeak(s: CacheState) {
    && (forall h :: h in s.live ==> h in s.order || h in s.held)
    && (forall h :: h in s.order ==> h in s.live)
    && (forall h :: h in s.held ==> h in s.live)
  }

  lemma DropKeepsNoLeak(s: CacheState, k: nat)
    requires NoLeak(s) && UniqueIds(s.order) && k < |s.order|
    ensures NoLeak(Drop(s, k)) && Drop(s, k).held == s.held && UniqueIds(Drop(s, k).order)
  {
    UniqueIsDistinct(s.order);
    WithoutMembers(s.order, k);
    WithoutUnique(s.order, k);
  }

  // Making room frees nothing that a caller holds.
  lemma {:induction false} EvictedKeepsHeld(s: CacheState, capacity: nat)
    requires NoLeak(s) && UniqueIds(s.order)
    ensures var s' := Evicted(s, capacity); NoLeak(s') && s'.held == s.held && UniqueIds(s'.order)
    decreases |s.order|
  {
    if Total(s.live) > capacity && |s.order| > 0 {
      DropKeepsNoLeak(s, 0);
      EvictedKeepsHeld(Drop(s, 0), capacity);
    }
  }
}

module LruCache {
  import opened Wrappers
  import opened Coding
  import opened CacheHandles
  import opened HandleTables
  import opened CacheSpec

  // ------------------------------------------------------------ the ring

  function NextIn(ring: seq<LRUHandle>, i: nat): LRUHandle
    requires i < |ring|
  {
    if i + 1 == |ring| then ring[0] else ring[i + 1]
  }

  ghost predicate Ring(ring: seq<LRUHandle>)
    reads ring`next, ring`prev
  {
    forall i {:trigger NextIn(ring, i)} :: 0 <= i < |ring| ==> ring[i].next == NextIn(ring, i) && NextIn(ring, i).prev == ring[i]
  }

  // Handles and their counts: one for the cache and one for each holder.
  ghost predicate RefsOk(s: CacheState)
    reads s.live`refs
  {
    && (forall h :: h in s.order ==> h in s.live)
    && (forall h :: h in s.held ==> h in s.live)
    && (forall h :: h in s.live ==> h.refs == (if h in s.order then 1 else 0) + s.held[h] && h.refs > 0)
  }

  lemma DistinctOrder(lru: LRUHandle, order: seq<LRUHandle>)
    ensures Distinct([lru] + order) <==> Distinct(order) && lru !in order
  {
    var ring := [lru] + order;
    assert forall i :: 0 <= i < |order| ==> order[i] == ring[i + 1];
    if lru in order {
      var i :| 0 <= i < |order| && order[i] == lru;
      assert ring[0] == ring[i + 1];
    }
  }

  lemma RingWithout(lru: LRUHandle, order: seq<LRUHandle>, k: nat)
    requires k < |order|
    ensures ([lru] + order)[k + 1] == order[k] && |[lru] + order| == |order| + 1
    ensures ([lru] + order)[..k + 1] + ([lru] + order)[k + 1 + 1..] == [lru] + Without(order, k)
  {
  }

  lemma WithoutDistinct(order: seq<LRUHandle>, k: nat)
    requires Distinct(order) && k < |order|
    ensures Distinct(Without(order, k))
  {
    var rest := Without(order, k);
    assert forall i :: 0 <= i < |rest| ==> rest[i] == order[if i < k then i else i + 1];
  }

  // The hash table and the list hold the same handles.
  ghost predicate SameHandles(nodes: set<LRUHandle>, order: seq<LRUHandle>) {
    (forall h :: h in nodes ==> h in order) && forall h :: h in order ==> h in nodes
  }

  // What the table finds is what the list holds.
  lemma FoundIn(chains: seq<seq<LRUHandle>>, nodes: set<LRUHandle>, order: seq<LRUHandle>, key: Bytes, hash: nat, e: LRUHandle?)
    requires ChainsOk(chains, nodes) && SameHandles(nodes, order)
    requires e != null ==> e in nodes && Matches(e, key, hash)
    requires e == null ==> forall x :: x in nodes ==> !Matches(x, key, hash)
    ensures e == At(order, Find(order, key, hash))
  {
    hide ChainsOk;
    var k := Find(order, key, hash);
    if k < |order| {
      assert order[k] in nodes;
      NodesUnique(chains, nodes, order[k], e);
    } else {
      assert e != null ==> e in order;
    }
  }

  class LRUCache {
    const lru: LRUHandle
    const table: HandleTable
    const capacity: nat
    var usage: nat
    ghost var s: CacheState

    ghost predicate ListOk()
      reads this, lru, s.order`next, s.order`prev, s.live`refs
    {
      && Distinct([lru] + s.order) && Ring([lru] + s.order) && RefsOk(s)
      && usage == Total(s.live) && lru !in s.live
    }

    ghost predicate Valid()
      reads this, lru, s.order`next, s.order`prev, s.live`refs, table, table.list, table.nodes`nextHash
    {
      ListOk() && table.Valid() && SameHandles(table.nodes, s.order)
    }

    constructor (capacity: nat)
      ensures Valid() && s == CacheState([], {}, multiset{}) && this.capacity == capacity
    {
      this.capacity, usage, s := capacity, 0, CacheState([], {}, multiset{});
      var dummy := new LRUHandle([], 0, 0, 0);
      dummy.next, dummy.prev := dummy, dummy;
      lru := dummy;
      table := new HandleTable();
    }

    lemma Separate()
      requires Valid()
      ensures forall h :: h in s.order ==> h in s.live
      ensures forall h :: h in table.nodes ==> h in s.live
      ensures usage == Total(s.live)
      ensures lru.next != lru <==> |s.order| > 0
      ensures |s.order| > 0 ==> lru.next == s.order[0]
    {
      assert NextIn([lru] + s.order, 0) == lru.next;
      assert forall i :: 0 <= i < |s.order| ==> ([lru] + s.order)[i + 1] == s.order[i];
    }

    // Takes e out of the ring.
    method LRU_Remove(e: LRUHandle, ghost ring: seq<LRUHandle>, ghost k: nat)
      requires Ring(ring) && Distinct(ring) && 0 < k < |ring| && ring[k] == e
      modifies ring`next, ring`prev
      ensures Ring(ring[..k] + ring[k + 1..])
    {
      assert NextIn(ring, k) == e.next && NextIn(ring, k - 1) == e;
      e.next.prev := e.prev;
      e.prev.next := e.next;
      ghost var rest := ring[..k] + ring[k + 1..];
      forall i | 0 <= i < |rest| ensures rest[i].next == NextIn(rest, i) && NextIn(rest, i).prev == rest[i] {
        var j := if i < k then i else i + 1;
        assert rest[i] == ring[j];
        assert old(NextIn(ring, j).prev) == ring[j];
      }
    }

    // Makes e the newest: just before the dummy handle, which is ring[0].
    method LRU_Append(e: LRUHandle, ghost ring: seq<LRUHandle>)
      requires |ring| > 0 && ring[0] == lru && Ring(ring) && Distinct(ring) && e !in ring
      modifies ring`next, ring`prev, e`next, e`prev
      ensures Ring(ring + [e]) && Distinct(ring + [e])
    {
      assert NextIn(ring, |ring| - 1) == lru;
      e.next := lru;
      e.prev := lru.prev;
      e.prev.next := e;
      e.next.prev := e;
      ghost var more := ring + [e];
      forall i | 0 <= i < |more| ensures more[i].next == NextIn(more, i) && NextIn(more, i).prev == more[i] {
        if i < |ring| - 1 { assert old(NextIn(ring, i).prev) == ring[i]; }
      }
    }

    method Unref(e: LRUHandle)
      requires e in s.live && e.refs > 0 && usage == Total(s.live)
      modifies e`refs, this`usage, this`s
      ensures e.refs == old(e.refs) - 1
      ensures s == old(s).(live := if e.refs == 0 then old(s.live) - {e} else old(s.live)) && usage == Total(s.live)
    {
      e.refs := e.refs - 1;
      if e.refs <= 0 {
        TotalWithout(s.live, e);
        usage := usage - e.charge;
        s := s.(live := s.live - {e});
      }
    }

    // The handle at position k leaves the ring and loses the reference of the cache.
    method Discard(e: LRUHandle, ghost k: nat)
      requires ListOk() && k < |s.order| && s.order[k] == e
      modifies lru`next, lru`prev, s.order`next, s.order`prev, e`refs, this`usage, this`s
      ensures ListOk() && s == Drop(old(s), k)
    {
      hide Without, Ring, Distinct, RefsOk;
      RingWithout(lru, s.order, k);
      DistinctOrder(lru, s.order);
      WithoutDistinct(s.order, k);
      WithoutMembers(s.order, k);
      DistinctOrder(lru, Without(s.order, k));
      LRU_Remove(e, [lru] + s.order, k + 1);
      LoseReference(e, k);
    }

    // The part of Discard that the ring has no part in.
    method LoseReference(e: LRUHandle, ghost k: nat)
      requires RefsOk(s) && usage == Total(s.live) && k < |s.order| && s.order[k] == e && Distinct(s.order)
      modifies e`refs, this`usage, this`s
      ensures RefsOk(s) && usage == Total(s.live) && s == Drop(old(s), k)
    {
      hide Without, Distinct;
      WithoutMembers(s.order, k);
      s := s.(order := Without(s.order, k));
      Unref(e);
    }

    method Lookup(key: Bytes, hash: nat) returns (e: LRUHandle?)
      requires Valid()
      modifies this`s, lru`next, lru`prev, s.order`next, s.order`prev, s.order`refs
      ensures Valid() && usage == old(usage)
      ensures Looked(old(s), key, hash) == (s, if e == null then None else Some(e))
    {
      hide Without, Ring, Distinct, RefsOk, SameHandles, ChainsOk, Linked;
      e := table.Lookup(key, hash);
      ghost var k := Find(s.order, key, hash);
      FoundIn(table.chains, table.nodes, s.order, key, hash, e);
      if e != null { Renew(e, k); }
    }

    // Makes e the newest, and the caller a holder.
    method Renew(e: LRUHandle, ghost k: nat)
      requires Valid() && k < |s.order| && s.order[k] == e
      modifies this`s, lru`next, lru`prev, s.order`next, s.order`prev, e`refs
      ensures Valid()
      ensures s == old(s).(order := Without(old(s).order, k) + [e], held := old(s).held + multiset{e})
    {
      hide Without, Ring, Distinct, RefsOk, SameHandles, ChainsOk, Linked, HandleTable.Valid;
      DistinctOrder(lru, s.order);
      MovedToEnd(table.nodes, s.order, k);
      ghost var order := MoveToNewest(e, k);
      TakeReference(e, order);
    }

    method MoveToNewest(e: LRUHandle, ghost k: nat) returns (ghost order: seq<LRUHandle>)
      requires Distinct([lru] + s.order) && Ring([lru] + s.order) && k < |s.order| && s.order[k] == e
      modifies lru`next, lru`prev, s.order`next, s.order`prev
      ensures order == Without(s.order, k) + [e] && Distinct([lru] + order) && Ring([lru] + order)
    {
      hide Without, Ring, Distinct;
      ghost var rest := Without(s.order, k);
      RingWithout(lru, s.order, k);
      DistinctOrder(lru, s.order);
      WithoutDistinct(s.order, k);
      WithoutMembers(s.order, k);
      DistinctOrder(lru, rest);
      LRU_Remove(e, [lru] + s.order, k + 1);
      NotInRing(lru, rest, e);
      LRU_Append(e, [lru] + rest);
      order := rest + [e];
      assert [lru] + rest + [e] == [lru] + order;
    }

    // One more reference, held by the caller; the order may have changed.
    method TakeReference(e: LRUHandle, ghost order: seq<LRUHandle>)
      requires RefsOk(s) && e in s.order && SameHandles((set h | h in s.order), order)
      modifies e`refs, this`s
      ensures s == old(s).(order := order, held := old(s).held + multiset{e}) && RefsOk(s)
    {
      e.refs := e.refs + 1;
      s := s.(order := order, held := s.held + multiset{e});
    }

    method Release(e: LRUHandle)
      requires Valid() && e in s.held
      modifies e`refs, this`usage, this`s
      ensures Valid() && s == Released(old(s), e)
    {
      hide Ring, Distinct, SameHandles, RefsOk, HandleTable.Valid;
      GiveUp(e);
    }

    method GiveUp(e: LRUHandle)
      requires RefsOk(s) && usage == Total(s.live) && e in s.held
      modifies e`refs, this`usage, this`s
      ensures RefsOk(s) && usage == Total(s.live) && s == Released(old(s), e)
    {
      s := s.(held := s.held - multiset{e});
      Unref(e);
    }

    // A new handle, for the cache and for the caller.
    method AddNew(e: LRUHandle)
      requires ListOk() && e !in s.live && e !in s.order && e != lru && e.refs == 2 && e !in s.held
      modifies this`usage, this`s, lru`next, lru`prev, s.order`next, s.order`prev, e`next, e`prev
      ensures ListOk() && s == CacheState(old(s).order + [e], old(s).live + {e}, old(s).held + multiset{e})
    {
      hide Ring, Distinct, RefsOk;
      NotInRing(lru, s.order, e);
      LRU_Append(e, [lru] + s.order);
      assert [lru] + s.order + [e] == [lru] + (s.order + [e]);
      usage := usage + e.charge;
      TotalWithout(s.live + {e}, e);
      assert s.live + {e} - {e} == s.live;
      RefsOfNew(s, e);
      s := CacheState(s.order + [e], s.live + {e}, s.held + multiset{e});
    }

    // The handle that had the key of e before, if any, leaves the cache.
    method PutInTable(e: LRUHandle, ghost before: CacheState)
      requires ListOk() && s == CacheState(before.order + [e], before.live + {e}, before.held + multiset{e})
      requires table.Valid() && SameHandles(table.nodes, before.order) && e !in table.nodes
      modifies this`usage, this`s, lru`next, lru`prev, s.order`next, s.order`prev, s.order`refs, s.order`nextHash
      modifies table, table.list
      ensures Valid() && s == Put(before, e) && (table.list == old(table.list) || fresh(table.list))
    {
      hide Ring, Distinct, RefsOk, Without, SameHandles, ChainsOk, Linked, HandleTable.Valid;
      ghost var k, chains, nodes := Find(before.order, e.key, e.hash), table.chains, table.nodes;
      table.ValidChains();
      NodesInOrder(nodes, before.order, e);
      assert e in s.order;
      var replaced := table.Insert(e);
      FoundIn(chains, nodes, before.order, e.key, e.hash, replaced);
      if replaced != null {
        DistinctOrder(lru, s.order);
        AddToBoth(nodes, before.order, e);
        DropFromBoth(nodes + {e}, s.order, k);
        assert nodes + {e} - {replaced} == nodes - {replaced} + {e};
        Discard(replaced, k);
      } else {
        AddToBoth(nodes, before.order, e);
      }
    }

    // The oldest handle leaves the cache.
    method EvictOldest()
      requires Valid() && usage > capacity && |s.order| > 0
      modifies this`usage, this`s, lru`next, lru`prev, s.order`next, s.order`prev, s.order`refs
      modifies table, table.list, table.nodes`nextHash
      ensures Valid() && s == Drop(old(s), 0) && |s.order| < |old(s).order| && Evicted(s, capacity) == Evicted(old(s), capacity)
      ensures table.list == old(table.list)
    {
      hide Ring, Distinct, RefsOk, SameHandles, ChainsOk, Linked, HandleTable.Valid;
      Separate();
      var oldest := lru.next;
      ghost var chains, nodes := table.chains, table.nodes;
      table.ValidChains();
      DistinctOrder(lru, s.order);
      var e := table.Remove(oldest.key, oldest.hash);
      FoundIn(chains, nodes, s.order, oldest.key, oldest.hash, e);
      DropFromBoth(nodes, s.order, 0);
      Discard(oldest, 0);
    }

    // The handle returned is the newest, and held. No handle that a caller
    // still holds is freed to make room.
    method Insert(key: Bytes, hash: nat, value: nat, charge: nat) returns (e: LRUHandle)
      requires Valid()
      modifies this, lru, table, table.list, s.live
      ensures Valid() && fresh(e) && e.key == key && e.hash == hash && e.value == value && e.charge == charge
      ensures s == Evicted(Put(old(s), e), capacity)
    {
      hide Ring, Distinct, RefsOk, Without, SameHandles, ChainsOk, Linked, HandleTable.Valid, ListOk, Evicted;
      e := new LRUHandle(key, hash, value, charge);
      Separate();
      ghost var old_ := s;
      AddNew(e);
      PutInTable(e, old_);
      Separate();
      EvictToFit();
    }

    method EvictToFit()
      requires Valid()
      modifies this`usage, this`s, lru, s.live, table, table.list
      ensures Valid() && s == Evicted(old(s), capacity)
    {
      hide Ring, Distinct, RefsOk, Without, SameHandles, ChainsOk, Linked, HandleTable.Valid, ListOk, Evicted;
      Separate();
      while usage > capacity && lru.next != lru
        invariant Valid() && Evicted(s, capacity) == Evicted(old(s), capacity)
        invariant s.live <= old(s.live) && table.list == old(table.list)
        decreases |s.order|
      {
        Separate();
        EvictOldest();
        Separate();
      }
      Separate();
      NothingToEvict(s, capacity);
    }

    method Erase(key: Bytes, hash: nat)
      requires Valid()
      modifies this`usage, this`s, lru`next, lru`prev, s.order`next, s.order`prev, s.order`refs
      modifies table, table.list, table.nodes`nextHash
      ensures Valid() && s == Erased(old(s), key, hash)
    {
      hide Ring, Distinct, RefsOk, Without, SameHandles, ChainsOk, Linked, HandleTable.Valid;
      ghost var k, chains, nodes := Find(s.order, key, hash), table.chains, table.nodes;
      table.ValidChains();
      var e := table.Remove(key, hash);
      FoundIn(chains, nodes, s.order, key, hash, e);
      if e != null {
        DistinctOrder(lru, s.order);
        DropFromBoth(nodes, s.order, k);
        Discard(e, k);
      }
    }
  }

  lemma DropFromBoth(nodes: set<LRUHandle>, order: seq<LRUHandle>, k: nat)
    requires SameHandles(nodes, order) && k < |order| && Distinct(order)
    ensures SameHandles(nodes - {order[k]}, Without(order, k))
  {
    hide Distinct;
    WithoutMembers(order, k);
    var nodes', rest := nodes - {order[k]}, Without(order, k);
    forall h | h in nodes' ensures h in rest {
      assert h in order;
    }
    forall h | h in rest ensures h in nodes' {
      assert h in order;
    }
  }

  lemma MovedToEnd(nodes: set<LRUHandle>, order: seq<LRUHandle>, k: nat)
    requires SameHandles(nodes, order) && k < |order| && Distinct(order)
    ensures SameHandles(nodes, Without(order, k) + [order[k]])
    ensures SameHandles((set h | h in order), Without(order, k) + [order[k]])
  {
    WithoutMembers(order, k);
  }

  lemma NotInRing(lru: LRUHandle, order: seq<LRUHandle>, e: LRUHandle)
    requires e != lru && e !in order
    ensures e !in [lru] + order
  {
  }

  lemma NodesInOrder(nodes: set<LRUHandle>, order: seq<LRUHandle>, e: LRUHandle)
    requires SameHandles(nodes, order)
    ensures forall h :: h in nodes ==> h in order + [e]
  {
  }

  lemma AddToBoth(nodes: set<LRUHandle>, order: seq<LRUHandle>, e: LRUHandle)
    requires SameHandles(nodes, order)
    ensures SameHandles(nodes + {e}, order + [e])
  {
  }

  lemma RefsOfNew(s: CacheState, e: LRUHandle)
    requires RefsOk(s) && e !in s.live && e !in s.order && e !in s.held && e.refs == 2
    ensures RefsOk(CacheState(s.order + [e], s.live + {e}, s.held + multiset{e}))
  {
  }

  lemma NothingToEvict(s: CacheState, capacity: nat)
    requires Total(s.live) <= capacity || |s.order| == 0
    ensures Evicted(s, capacity) == s
  {
  }

  // In every state of the cache nothing leaks and no key is cached twice.
  lemma ValidIsNoLeak(c: LRUCache)
    requires c.Valid()
    ensures NoLeak(c.s) && UniqueIds(c.s.order) && c.usage == Total(c.s.live)
  {
    hide ChainsOk, Linked;
    c.table.ValidChains();
    DistinctOrder(c.lru, c.s.order);
    forall i, j | 0 <= i < j < |c.s.order| ensures !SameId(c.s.order[i], c.s.order[j]) {
      assert c.s.order[i] in c.table.nodes && c.s.order[j] in c.table.nodes;
      if SameId(c.s.order[i], c.s.order[j]) {
        NodesUnique(c.table.chains, c.table.nodes, c.s.order[i], c.s.order[j]);
      }
    }
  }
}
