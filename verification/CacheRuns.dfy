// Calls to a shard of the cache, one after another. Who holds what is counted
// by the caller alone, from the handles it was given and the ones it gave back.

module CacheRuns {
  import opened Wrappers
  import opened Coding
  import opened CacheHandles
  import opened CacheSpec

  datatype Call =
    | Insert(e: LRUHandle)
    | Lookup(key: Bytes, hash: nat)
    | Release(h: LRUHandle)
    | Erase(key: Bytes, hash: nat)

  // The state after one call, and the handle it returns.
  ghost function Perform(s: CacheState, c: Call, capacity: nat): (CacheState, Option<LRUHandle>) {
    match c
    case Insert(e) => (Evicted(Put(s, e), capacity), Some(e))
    case Lookup(key, hash) => Looked(s, key, hash)
    case Release(h) => (if h in s.held then Released(s, h) else s, None)
    case Erase(key, hash) => (Erased(s, key, hash), None)
  }

  ghost function After(calls: seq<Call>, capacity: nat): CacheState {
    if calls == [] then CacheState([], {}, multiset{})
    else Perform(After(calls[..|calls| - 1], capacity), calls[|calls| - 1], capacity).0
  }

  // What the last call of the run returned.
  ghost function Returned(calls: seq<Call>, capacity: nat): Option<LRUHandle>
    requires calls != []
  {
    Perform(After(calls[..|calls| - 1], capacity), calls[|calls| - 1], capacity).1
  }

  // How often h was returned and not yet released.
  ghost function Owned(calls: seq<Call>, capacity: nat, h: LRUHandle): int {
    if calls == [] then 0
    else
      Owned(calls[..|calls| - 1], capacity, h)
      + (if Returned(calls, capacity) == Some(h) then 1 else 0)
      - (if calls[|calls| - 1] == Release(h) then 1 else 0)
  }

  // A handle made for an insertion is new, and only handles that a caller has
  // are released.
  ghost predicate Legal(calls: seq<Call>, capacity: nat) {
    calls == [] ||
    (var front, last := calls[..|calls| - 1], calls[|calls| - 1];
     && Legal(front, capacity)
     && (last.Insert? ==> last !in front)
     && (last.Release? ==> Owned(front, capacity, last.h) > 0))
  }

  // Everything the cache knows was inserted.
  ghost predicate AllInserted(s: CacheState, calls: seq<Call>) {
    && (forall h :: h in s.order ==> Insert(h) in calls)
    && (forall h :: h in s.held ==> Insert(h) in calls)
  }

  lemma DropMembers(s: CacheState, k: nat)
    requires UniqueIds(s.order) && k < |s.order|
    ensures forall h :: h in Drop(s, k).order ==> h in s.order
  {
  }

  lemma {:induction false} EvictedMembers(s: CacheState, capacity: nat)
    ensures forall h :: h in Evicted(s, capacity).order ==> h in s.order
    decreases |s.order|
  {
    if Total(s.live) > capacity && |s.order| > 0 { EvictedMembers(Drop(s, 0), capacity); }
  }

  lemma PutMembers(s: CacheState, e: LRUHandle)
    requires UniqueIds(s.order)
    ensures forall h :: h in Put(s, e).order ==> h in s.order || h == e
  {
    hide UniqueIds, Distinct;
    var k := Find(s.order, e.key, e.hash);
    UniqueIsDistinct(s.order);
    if k < |s.order| {
      WithoutMembers(s.order, k);
      WithoutFromMore(s.order, k, e);
      assert Put(s, e).order == Without(s.order, k) + [e];
    }
  }

  lemma PutKeepsNoLeak(s: CacheState, e: LRUHandle)
    requires NoLeak(s) && UniqueIds(s.order) && e !in s.order && e !in s.held
    ensures NoLeak(Put(s, e)) && Put(s, e).held == s.held + multiset{e}
  {
    hide UniqueIds, Distinct;
    var k := Find(s.order, e.key, e.hash);
    UniqueIsDistinct(s.order);
    if k < |s.order| {
      WithoutMembers(s.order, k);
      WithoutFromMore(s.order, k, e);
      assert Put(s, e).order == Without(s.order, k) + [e];
    }
  }

  lemma LookedMembers(s: CacheState, key: Bytes, hash: nat)
    requires UniqueIds(s.order)
    ensures forall h :: h in Looked(s, key, hash).0.order <==> h in s.order
  {
    hide UniqueIds, Distinct;
    var k := Find(s.order, key, hash);
    UniqueIsDistinct(s.order);
    if k < |s.order| { WithoutMembers(s.order, k); }
  }

  lemma LookedKeepsNoLeak(s: CacheState, key: Bytes, hash: nat)
    requires NoLeak(s) && UniqueIds(s.order)
    ensures NoLeak(Looked(s, key, hash).0)
  {
    hide UniqueIds;
    LookedMembers(s, key, hash);
  }

  lemma ErasedKeepsNoLeak(s: CacheState, key: Bytes, hash: nat)
    requires NoLeak(s) && UniqueIds(s.order)
    ensures var s' := Erased(s, key, hash);
      NoLeak(s') && UniqueIds(s'.order) && s'.held == s.held && forall h :: h in s'.order ==> h in s.order
  {
    var k := Find(s.order, key, hash);
    UniqueIsDistinct(s.order);
    if k < |s.order| {
      WithoutMembers(s.order, k);
      DropKeepsNoLeak(s, k);
    }
  }

  // One call: nothing leaks, and the holders change as the caller counts them.
  ghost predicate Accounts(s: CacheState, c: Call, s': CacheState, r: Option<LRUHandle>) {
    && NoLeak(s') && UniqueIds(s'.order) && (c.Release? ==> r == None)
    && s'.held == s.held + (if r.Some? then multiset{r.value} else multiset{}) - (if c.Release? then multiset{c.h} else multiset{})
    && (forall h :: h in s'.order ==> h in s.order || c == Insert(h))
    && (forall h :: h in s'.held ==> h in s.held || h in s.order || c == Insert(h))
  }

  lemma InsertAccounts(s: CacheState, e: LRUHandle, capacity: nat)
    requires NoLeak(s) && UniqueIds(s.order) && e !in s.order && e !in s.held
    ensures Accounts(s, Insert(e), Evicted(Put(s, e), capacity), Some(e))
  {
    hide UniqueIds, Evicted, AsMap, OneLess, Put;
    PutIsMapUpdate(s, e);
    PutMembers(s, e);
    PutKeepsNoLeak(s, e);
    EvictedKeepsHeld(Put(s, e), capacity);
    EvictedMembers(Put(s, e), capacity);
  }

  lemma LookupAccounts(s: CacheState, key: Bytes, hash: nat)
    requires NoLeak(s) && UniqueIds(s.order)
    ensures var (s', r) := Looked(s, key, hash); Accounts(s, Lookup(key, hash), s', r)
  {
    hide UniqueIds, AsMap, OneLess, NoLeak;
    LookedIsMapLookup(s, key, hash);
    LookedKeepsNoLeak(s, key, hash);
    LookedMembers(s, key, hash);
  }

  lemma ReleaseAccounts(s: CacheState, h: LRUHandle)
    requires NoLeak(s) && UniqueIds(s.order) && h in s.held
    ensures Accounts(s, Release(h), Released(s, h), None)
  {
  }

  lemma EraseAccounts(s: CacheState, key: Bytes, hash: nat)
    requires NoLeak(s) && UniqueIds(s.order)
    ensures Accounts(s, Erase(key, hash), Erased(s, key, hash), None)
  {
    hide UniqueIds, NoLeak, Erased;
    ErasedKeepsNoLeak(s, key, hash);
  }

  lemma CallAccounts(s: CacheState, c: Call, capacity: nat)
    requires NoLeak(s) && UniqueIds(s.order)
    requires c.Insert? ==> c.e !in s.order && c.e !in s.held
    requires c.Release? ==> c.h in s.held
    ensures var (s', r) := Perform(s, c, capacity); Accounts(s, c, s', r) && NoLeak(s') && UniqueIds(s'.order)
  {
    hide UniqueIds, NoLeak, Looked, Erased, Evicted, Released, Put;
    match c {
      case Insert(e) => InsertAccounts(s, e, capacity);
      case Lookup(key, hash) => LookupAccounts(s, key, hash);
      case Release(h) => ReleaseAccounts(s, h);
      case Erase(key, hash) => EraseAccounts(s, key, hash);
    }
  }

  // In every legal run, what a caller holds is what it was given and has not
  // given back, and a handle is freed exactly if it is neither held nor cached.
  lemma {:induction false} HandlesLiveAsLongAsOwned(calls: seq<Call>, capacity: nat)
    requires Legal(calls, capacity)
    ensures var s := After(calls, capacity);
      && NoLeak(s) && UniqueIds(s.order) && AllInserted(s, calls)
      && (forall h :: s.held[h] == Owned(calls, capacity, h))
      && (forall h :: h in s.live <==> h in s.order || Owned(calls, capacity, h) > 0)
  {
    hide UniqueIds, Perform, After, Owned, Returned, AllInserted, Accounts, Legal;
    NothingBefore(capacity);
    if calls != [] {
      var front, last := calls[..|calls| - 1], calls[|calls| - 1];
      assert calls == front + [last];
      LegalBefore(front, last, capacity);
      HandlesLiveAsLongAsOwned(front, capacity);
      LegalCall(front, last, capacity);
      CallAccounts(After(front, capacity), last, capacity);
      StaysInserted(After(front, capacity), front, last, capacity);
      OneCallMore(front, last, capacity);
      forall h ensures After(calls, capacity).held[h] == Owned(calls, capacity, h) {
        HoldersCounted(After(front, capacity), last, After(calls, capacity), Returned(calls, capacity), h);
      }
    }
  }

  lemma NothingBefore(capacity: nat)
    ensures var s := After([], capacity);
      && s == CacheState([], {}, multiset{}) && UniqueIds(s.order) && AllInserted(s, [])
      && forall h :: Owned([], capacity, h) == 0
  {
  }

  lemma OneCallMore(front: seq<Call>, last: Call, capacity: nat)
    ensures var (s', r) := Perform(After(front, capacity), last, capacity);
      && After(front + [last], capacity) == s' && Returned(front + [last], capacity) == r
      && forall h :: Owned(front + [last], capacity, h)
           == Owned(front, capacity, h) + (if r == Some(h) then 1 else 0) - (if last == Release(h) then 1 else 0)
  {
    hide Perform;
    assert (front + [last])[..|front|] == front;
  }

  lemma LegalBefore(front: seq<Call>, last: Call, capacity: nat)
    requires Legal(front + [last], capacity)
    ensures Legal(front, capacity)
  {
    assert (front + [last])[..|front|] == front;
  }

  lemma LegalCall(front: seq<Call>, last: Call, capacity: nat)
    requires Legal(front + [last], capacity)
    requires AllInserted(After(front, capacity), front)
    requires forall h :: After(front, capacity).held[h] == Owned(front, capacity, h)
    ensures var s := After(front, capacity);
      && (last.Insert? ==> last.e !in s.order && last.e !in s.held) && (last.Release? ==> last.h in s.held)
  {
    hide After;
    assert (front + [last])[..|front|] == front;
  }

  lemma StaysInserted(s: CacheState, front: seq<Call>, last: Call, capacity: nat)
    requires AllInserted(s, front)
    requires Accounts(s, last, Perform(s, last, capacity).0, Perform(s, last, capacity).1)
    ensures AllInserted(Perform(s, last, capacity).0, front + [last])
  {
    hide Perform;
  }

  lemma HoldersCounted(s: CacheState, c: Call, s': CacheState, r: Option<LRUHandle>, h: LRUHandle)
    requires Accounts(s, c, s', r) && (c.Release? ==> c.h in s.held)
    ensures s'.held[h] == s.held[h] + (if r == Some(h) then 1 else 0) - (if c == Release(h) then 1 else 0)
  {
  }

  // ------------------------------------------------ what a lookup finds

  // The handle inserted last under each key and not erased since.
  ghost function Latest(calls: seq<Call>): map<(Bytes, nat), LRUHandle> {
    if calls == [] then map[]
    else
      NextLatest(Latest(calls[..|calls| - 1]), calls[|calls| - 1])
  }

  ghost function NextLatest(before: map<(Bytes, nat), LRUHandle>, c: Call): map<(Bytes, nat), LRUHandle> {
    match c
    case Insert(e) => before[Id(e) := e]
    case Erase(key, hash) => before - {(key, hash)}
    case _ => before
  }

  // No insertion had to make room.
  ghost predicate AllFit(calls: seq<Call>, capacity: nat) {
    calls == [] ||
    (var front, last := calls[..|calls| - 1], calls[|calls| - 1];
     AllFit(front, capacity) && (last.Insert? ==> Total(Put(After(front, capacity), last.e).live) <= capacity))
  }

  ghost predicate SubMap(m: map<(Bytes, nat), LRUHandle>, m': map<(Bytes, nat), LRUHandle>) {
    forall id :: id in m ==> id in m' && m'[id] == m[id]
  }

  lemma EvictedIsSubMap(s: CacheState, capacity: nat)
    requires UniqueIds(s.order) && NoLeak(s)
    ensures UniqueIds(Evicted(s, capacity).order) && SubMap(AsMap(Evicted(s, capacity).order), AsMap(s.order))
    ensures Total(s.live) <= capacity ==> Evicted(s, capacity) == s
  {
    hide AsMap, UniqueIds, Evicted;
    EvictedKeepsHeld(s, capacity);
    EvictedMembers(s, capacity);
    AsMapMaps(s.order);
    AsMapMaps(Evicted(s, capacity).order);
    if Total(s.live) <= capacity { NothingToMakeRoomFor(s, capacity); }
  }

  lemma NothingToMakeRoomFor(s: CacheState, capacity: nat)
    requires Total(s.live) <= capacity
    ensures Evicted(s, capacity) == s
  {
  }

  lemma CallIsMapStep(s: CacheState, c: Call, capacity: nat, latest: map<(Bytes, nat), LRUHandle>)
    requires NoLeak(s) && UniqueIds(s.order) && SubMap(AsMap(s.order), latest)
    requires c.Insert? ==> c.e !in s.order && c.e !in s.held
    requires c.Release? ==> c.h in s.held
    ensures var order := Perform(s, c, capacity).0.order;
      UniqueIds(order) && SubMap(AsMap(order), NextLatest(latest, c))
      && (AsMap(s.order) == latest && (c.Insert? ==> Total(Put(s, c.e).live) <= capacity) ==> AsMap(order) == NextLatest(latest, c))
  {
    hide AsMap, UniqueIds, Looked, Erased, Evicted, Put, OneLess;
    match c {
      case Insert(e) =>
        PutIsMapUpdate(s, e);
        PutKeepsNoLeak(s, e);
        EvictedIsSubMap(Put(s, e), capacity);
      case Lookup(key, hash) => LookedIsMapLookup(s, key, hash);
      case Release(h) =>
      case Erase(key, hash) => ErasedIsMapRemoval(s, key, hash);
    }
  }

  lemma NothingMapped()
    ensures UniqueIds([]) && AsMap([]) == map[]
  {
  }

  // What the cache maps a key to is what was inserted last under it, and
  // nothing is missing as long as everything fits.
  lemma {:induction false} CacheMapsToLatest(calls: seq<Call>, capacity: nat)
    requires Legal(calls, capacity)
    ensures var s := After(calls, capacity); UniqueIds(s.order) && SubMap(AsMap(s.order), Latest(calls))
    ensures AllFit(calls, capacity) ==> AsMap(After(calls, capacity).order) == Latest(calls)
  {
    hide UniqueIds, AsMap, Perform, Put, Legal, AllInserted;
    NothingMapped();
    if calls != [] {
      var front, last := calls[..|calls| - 1], calls[|calls| - 1];
      assert calls == front + [last];
      LegalBefore(front, last, capacity);
      CacheMapsToLatest(front, capacity);
      HandlesLiveAsLongAsOwned(front, capacity);
      LegalCall(front, last, capacity);
      CallIsMapStep(After(front, capacity), last, capacity, Latest(front));
    }
  }

  // A lookup finds the handle inserted last under its key or nothing, and finds
  // it for sure as long as everything fits.
  lemma LookupFindsLatest(calls: seq<Call>, capacity: nat, key: Bytes, hash: nat)
    requires Legal(calls, capacity)
    ensures var r := Returned(calls + [Lookup(key, hash)], capacity);
      && (r.Some? ==> (key, hash) in Latest(calls) && r.value == Latest(calls)[(key, hash)])
      && (AllFit(calls, capacity) && (key, hash) in Latest(calls) ==> r.Some?)
  {
    hide UniqueIds, AsMap, Looked, Legal, OneLess, AllFit, Latest;
    CacheMapsToLatest(calls, capacity);
    OneCallMore(calls, Lookup(key, hash), capacity);
    LookedIsMapLookup(After(calls, capacity), key, hash);
  }
}
