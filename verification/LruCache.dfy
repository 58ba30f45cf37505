/** The cache object itself: entries are objects whose lock word and flag are updated in
    place, the hash table, the list and the cost are fields. Each method is the code of
    src/common/cache.c between taking and giving up the mutex, and changes the cache as the
    function on stores says. Where the source sleeps and starts over because a lock is
    contended, the method returns to its caller: one call is one attempt. */
module LruCache {
  import opened Common
  import opened CacheStore
  import opened CacheGc
  import CacheRuns

  datatype Removal = Removed | Absent | Retry

  class CacheEntry {
    ghost const id: Id
    const key: Key
    var cost: nat
    var readers: nat
    var writing: bool
    var demoting: bool

    constructor (key: Key, ghost id: Id)
      ensures Value() == Entry(key, 1, 0, false, false) && this.id == id
    {
      this.id, this.key := id, key;
      cost, readers, writing, demoting := 1, 0, false, false;
    }

    function Value(): (e: Entry)
      reads this
    {
      Entry(key, cost, readers, writing, demoting)
    }

    /** `pthread_rwlock_trywrlock` and `pthread_rwlock_tryrdlock`. */
    method TryLock(mode: Mode) returns (ok: bool)
      modifies this
      ensures ok == CanLock(old(Value()), mode)
      ensures Value() == if ok then Lock(old(Value()), mode) else old(Value())
    {
      ok := !writing && (mode.Read? || readers == 0);
      if ok {
        if mode.Write? {
          writing := true;
        } else {
          readers := readers + 1;
        }
      }
    }

    /** Take the write lock, and give it back at once if the entry is being demoted. */
    method TryFree() returns (ok: bool)
      modifies this
      ensures ok == Evictable(old(Value()))
      ensures Value() == if ok then Lock(old(Value()), Write) else old(Value())
    {
      ok := TryLock(Write);
      if ok && demoting {
        Unlock();
        ok := false;
      }
    }

    /** `pthread_rwlock_unlock`. */
    method Unlock()
      requires writing || readers > 0
      modifies this
      ensures Value() == CacheStore.Unlock(old(Value()))
    {
      if writing {
        writing := false;
      } else {
        readers := readers - 1;
      }
    }
  }

  /** The entry a lookup of `key` locks: none if it is absent or contended. */
  function Lookup(st: Store, key: Key, mode: Mode): Option<Id> {
    if key in st.table && st.table[key] in st.heap && CanLock(st.heap[st.table[key]], mode)
    then Some(st.table[key]) else None
  }

  function HitStore(st: Store, key: Key, mode: Mode): Store {
    if Lookup(st, key, mode).Some? then Acquire(st, Lookup(st, key, mode).value, mode) else st
  }

  /** What one attempt of `dt_cache_get` does. */
  function GetStore(st: Store, quota: nat, allocates: bool, key: Key, mode: Mode, charge: nat): Store {
    if key in st.table then HitStore(st, key, mode)
    else
      Insert(Room(st, quota), key, if allocates then charge else 1, if allocates then Write else mode)
  }

  /** A miss first collects if the cost is over four fifths of the quota. */
  function Room(st: Store, quota: nat): Store {
    var threshold := FillLevel(quota, 0.8);
    if st.cost as real > threshold then Collect(st, threshold, st.lru) else st
  }

  /** The cost after a miss without interference: at most four fifths of the quota, or that of
      the entries that were pinned, and the new entry. */
  lemma GetStoreCost(st: Store, quota: nat, allocates: bool, key: Key, mode: Mode, charge: nat)
    requires StoreInv(st) && key !in st.table
    ensures GetStore(st, quota, allocates, key, mode, charge).cost as real
         <= CacheRuns.Max(0.8 * quota as real, Total(st.heap, Pick(st, st.lru, true)) as real)
            + (if allocates then charge else 1) as real
  {
    hide StoreInv, Collect, Total, Pick;
    var cost := if allocates then charge else 1;
    CollectCost(st, FillLevel(quota, 0.8));
    CacheRuns.WordWraps(Room(st, quota).cost + cost);
  }

  lemma TouchFields(st: Store, id: Id, e: Entry)
    ensures Touch(st, id, e).heap == st.heap[id := e]
    ensures Touch(st, id, e).(heap := st.heap) == st
  {
  }

  lemma TableIsLive(st: Store, key: Key)
    requires StoreInv(st) && key in st.table
    ensures st.table[key] in st.heap && st.heap[st.table[key]].key == key
  {
  }

  lemma CollectUnfolds(st: Store, threshold: real, l: seq<Id>)
    requires l != [] && l[0] in st.heap && !(st.cost as real < threshold)
    ensures Collect(st, threshold, l) ==
            Collect(if Evictable(st.heap[l[0]]) then Evict(st, l[0]) else st, threshold, l[1..])
  {
  }

  lemma CollectStops(st: Store, threshold: real, l: seq<Id>)
    requires l == [] || st.cost as real < threshold
    ensures Collect(st, threshold, l) == st
  {
  }

  lemma ListIsLive(st: Store)
    requires StoreInv(st)
    ensures Distinct(st.lru) && forall id :: id in st.lru ==> id in st.heap
  {
  }

  lemma HitKeepsStoreInv(st: Store, key: Key, mode: Mode)
    requires StoreInv(st)
    ensures StoreInv(HitStore(st, key, mode))
    ensures key in st.table ==> st.table[key] in st.heap
  {
    if Lookup(st, key, mode).Some? {
      AcquireKeepsInv(st, st.table[key], mode);
    }
  }

  /** The entry objects of the cache hold what `heap` says, but for the lock words of the
      entries in `locked`. */
  ghost predicate Entries(pool: map<Id, CacheEntry>, repr: set<CacheEntry>, heap: map<Id, Entry>, locked: set<Id>)
    reads repr
  {
    && (forall id :: id in pool <==> id in heap)
    && (forall id :: id in pool ==> pool[id] in repr && pool[id].id == id)
    && (forall id :: id in pool && id !in locked ==> pool[id].Value() == heap[id])
  }

  lemma EntryIsLive(pool: map<Id, CacheEntry>, repr: set<CacheEntry>, heap: map<Id, Entry>, locked: set<Id>, id: Id)
    requires Entries(pool, repr, heap, locked) && id in pool
    ensures id in heap && pool[id] in repr && (id !in locked ==> pool[id].Value() == heap[id])
  {
  }

  lemma ForgetEntry(pool: map<Id, CacheEntry>, repr: set<CacheEntry>, heap: map<Id, Entry>, id: Id)
    requires Entries(pool, repr, heap, {id})
    ensures Entries(pool - {id}, repr, heap - {id}, {})
  {
  }

  lemma AddEntry(pool: map<Id, CacheEntry>, repr: set<CacheEntry>, heap: map<Id, Entry>, entry: CacheEntry)
    requires Entries(pool, repr, heap, {})
    ensures Entries(pool[entry.id := entry], repr + {entry}, heap[entry.id := entry.Value()], {})
  {
  }

  class Cache {
    const quota: nat
    const allocates: bool
    var hashtable: map<Key, Id>
    var lru: seq<Id>
    var cost: nat
    var pool: map<Id, CacheEntry>
    var nextId: Id

    /** The state of the cache as a value, with the log of clean-up calls. */
    ghost var view: Store

    /** The entry objects the cache may change. */
    ghost var repr: set<CacheEntry>

    /** The fields and the entry objects hold what the view says, but for the lock words
        of the entries in `locked`. */
    ghost predicate ValidBut(locked: set<Id>)
      reads this, repr
    {
      && StoreInv(view) && Entries(pool, repr, view.heap, locked)
      && hashtable == view.table && lru == view.lru && cost == view.cost
      && nextId == view.nextId
    }

    ghost predicate Valid()
      reads this, repr
    {
      ValidBut({})
    }

    constructor (quota: nat, allocates: bool)
      ensures Valid() && view == EmptyStore() && repr == {} && this.quota == quota && this.allocates == allocates
    {
      this.quota, this.allocates := quota, allocates;
      hashtable, lru, cost := map[], [], 0;
      pool, nextId := map[], 0;
      view, repr := EmptyStore(), {};
      EmptyStoreInv();
    }

    method Contains(key: Key) returns (r: bool)
      requires Valid()
      ensures r <==> exists id :: id in lru && id in pool && pool[id].key == key
    {
      r := key in hashtable;
      if r {
        assert hashtable[key] in lru;
      }
    }

    /** Attempt to lock a mapped entry and, on success, make it the most recently used. */
    method Hit(key: Key, mode: Mode) returns (r: Option<Id>)
      requires Valid() && key in hashtable
      modifies this`lru, this`view, repr
      ensures Valid() && view == HitStore(old(view), key, mode)
      ensures r == Lookup(old(view), key, mode)
    {
      hide StoreInv, Without;
      HitKeepsStoreInv(view, key, mode);
      view := HitStore(view, key, mode);
      var id := hashtable[key];
      var ok := pool[id].TryLock(mode);
      if ok {
        lru := Without(lru, id) + [id];
        r := Some(id);
      } else {
        r := None;
      }
    }

    method TestGet(key: Key, mode: Mode) returns (r: Option<Id>)
      requires Valid()
      modifies this`lru, this`view, repr
      ensures Valid() && view == HitStore(old(view), key, mode)
      ensures r == Lookup(old(view), key, mode)
    {
      if key in hashtable {
        r := Hit(key, mode);
      } else {
        r := None;
      }
    }

    /** The client's unlock; a lock that is held can be dropped. */
    method Release(id: Id)
      requires Valid() && id in pool && (pool[id].writing || pool[id].readers > 0)
      modifies this`view, repr
      ensures Valid() && view == Touch(old(view), id, Unlock(old(view).heap[id]))
    {
      hide StoreInv, Touch;
      TouchKeepsInv(view, id, Unlock(view.heap[id]));
      ghost var st := view;
      view := Touch(view, id, Unlock(view.heap[id]));
      TouchFields(st, id, Unlock(st.heap[id]));
      pool[id].Unlock();
    }

    /** Take the entry's write lock, then free it unless it is being demoted. */
    method TryEvict(id: Id) returns (ok: bool)
      requires Valid() && id in pool
      modifies this, repr
      ensures Valid() && repr == old(repr)
      ensures ok == Evictable(old(view).heap[id])
      ensures view == if ok then Evict(old(view), id) else old(view)
      ensures pool == if ok then old(pool) - {id} else old(pool)
    {
      hide StoreInv, Without;
      EvictKeepsInv(view, id);
      ok := pool[id].TryFree();
      if ok {
        Unlink(id, pool[id].key, pool[id].cost);
      }
    }

    /** Unmap, unlink, clean up and forget an entry whose write lock is taken. */
    method Unlink(id: Id, key: Key, charge: nat)
      requires ValidBut({id}) && id in pool
      requires view.heap[id].key == key && view.heap[id].cost == charge
      modifies this
      ensures Valid() && repr == old(repr)
      ensures view == Evict(old(view), id) && pool == old(pool) - {id}
    {
      hide StoreInv, Without, Wrap, Entries;
      EntryIsLive(pool, repr, view.heap, {id}, id);
      EvictKeepsInv(view, id);
      ForgetEntry(pool, repr, view.heap, id);
      view := Evict(view, id);
      hashtable := hashtable - {key};
      lru := Without(lru, id);
      cost := Wrap(cost - charge);
      pool := pool - {id};
    }

    method Remove(key: Key) returns (r: Removal)
      requires Valid()
      modifies this, repr
      ensures Valid() && repr == old(repr)
      ensures r.Absent? <==> key !in old(hashtable)
      ensures r.Removed? <==> key in old(hashtable) && Evictable(old(view).heap[old(hashtable)[key]])
      ensures view == if r.Removed? then Evict(old(view), old(hashtable)[key]) else old(view)
    {
      if key !in hashtable {
        return Absent;
      }
      TableIsLive(view, key);
      hide StoreInv, Evict;
      var ok := TryEvict(hashtable[key]);
      r := if ok then Removed else Retry;
    }

    /** Walk the list from the least recently used end until the cost is low enough. */
    method Gc(fillRatio: real)
      requires Valid()
      modifies this, repr
      ensures Valid() && repr == old(repr)
      ensures view == Collect(old(view), FillLevel(quota, fillRatio), old(lru))
    {
      hide StoreInv, Evict, Collect, Evictable, FillLevel;
      ListIsLive(view);
      var threshold := FillLevel(quota, fillRatio);
      var l := lru;
      while l != []
        invariant Valid() && repr == old(repr)
        invariant Distinct(l) && forall id :: id in l ==> id in pool
        invariant Collect(view, threshold, l) == Collect(old(view), threshold, old(lru))
        decreases |l|
      {
        var id := l[0];
        assert l == [id] + l[1..];
        l := l[1..];
        if cost as real < threshold {
          CollectStops(view, threshold, [id] + l);
          return;
        }
        CollectUnfolds(view, threshold, [id] + l);
        var ok := TryEvict(id);
      }
      CollectStops(view, threshold, l);
    }

    /** One attempt of `dt_cache_get`; `charge` is the cost the allocate callback sets. */
    method Get(key: Key, mode: Mode, charge: nat) returns (r: Option<Id>)
      requires Valid()
      modifies this, repr
      ensures Valid() && fresh(repr - old(repr))
      ensures view == GetStore(old(view), quota, allocates, key, mode, charge)
      ensures r == if key in old(hashtable) then Lookup(old(view), key, mode) else Some(old(nextId))
      ensures key !in old(hashtable) ==>
                && r.Some? && r.value in pool && pool[r.value].key == key && !pool[r.value].demoting
                && pool[r.value].cost == (if allocates then charge else 1)
                && (allocates || mode == Write ==> pool[r.value].writing && pool[r.value].readers == 0)
                && (!allocates && mode == Read ==> !pool[r.value].writing && pool[r.value].readers == 1)
    {
      hide StoreInv, Evict, Insert, FillLevel, Collect, Entries;
      if key in hashtable {
        r := Hit(key, mode);
        return;
      }
      CollectKeepsInv(view, FillLevel(quota, 0.8), view.lru);
      if cost as real > FillLevel(quota, 0.8) {
        Gc(0.8);
      }
      assert view == Room(old(view), quota);
      r := Some(nextId);
      Allocate(key, if allocates then charge else 1, if allocates then Write else mode);
    }

    /** A new entry, locked for the caller, at the most recently used end. */
    method Allocate(key: Key, charge: nat, mode: Mode)
      requires Valid() && key !in hashtable
      modifies this, repr
      ensures Valid() && fresh(repr - old(repr))
      ensures view == Insert(old(view), key, charge, mode)
      ensures old(nextId) in pool && pool[old(nextId)].Value() == Lock(Entry(key, charge, 0, false, false), mode)
    {
      hide StoreInv, Wrap, Entries, Lock;
      InsertKeepsInv(view, key, charge, mode);
      var entry := NewEntry(key, charge, mode, nextId);
      AddEntry(pool, repr, view.heap, entry);
      view := Insert(view, key, charge, mode);
      pool := pool[nextId := entry];
      hashtable := hashtable[key := nextId];
      cost := Wrap(cost + entry.cost);
      lru := lru + [nextId];
      nextId := nextId + 1;
      repr := repr + {entry};
    }

    static method NewEntry(key: Key, charge: nat, mode: Mode, ghost id: Id) returns (entry: CacheEntry)
      ensures fresh(entry) && entry.id == id && entry.key == key && entry.cost == charge
      ensures entry.Value() == Lock(Entry(key, charge, 0, false, false), mode)
    {
      entry := new CacheEntry(key, id);
      entry.cost := charge;
      var ok := entry.TryLock(mode);
    }

    /** Clean up every entry still in the list; the cache is not used afterwards. */
    method Cleanup()
      requires Valid()
      modifies this
      ensures view == CleanedUp(old(view))
    {
      hide StoreInv;
      var l := lru;
      while l != []
        invariant view == old(view).(cleaned := view.cleaned)
        invariant view.cleaned + l == old(view).cleaned + old(lru)
        decreases |l|
      {
        view := view.(cleaned := view.cleaned + [l[0]]);
        l := l[1..];
      }
      pool, hashtable, lru := map[], map[], [];
      view := view.(heap := map[], table := map[], lru := []);
    }
  }

  /** After `dt_cache_cleanup` nothing is live and all that was live is cleaned up. */
  function CleanedUp(st: Store): Store {
    st.(heap := map[], table := map[], lru := [], cleaned := st.cleaned + st.lru)
  }

  /** By the end of the clean-up every allocation has been cleaned up exactly once. */
  lemma CleanupExactlyOnce(st: Store, id: Id)
    requires StoreInv(st)
    ensures multiset(CleanedUp(st).cleaned)[id] == if id < st.nextId then 1 else 0
  {
    CacheRuns.DistinctCount(st.cleaned, id);
    CacheRuns.DistinctCount(st.lru, id);
    assert id < st.nextId <==> id in st.heap || id in st.cleaned;
    assert multiset(st.cleaned + st.lru) == multiset(st.cleaned) + multiset(st.lru);
  }
}
