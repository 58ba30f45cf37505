/** The cache of src/common/cache.c run by any number of threads, as a transition system.
    Operations that hold the cache mutex to the end are one step. A miss that has to
    collect garbage holds the mutex over many steps, one for each list link it visits, and
    other threads release locks and move demotion flags in between, which needs no mutex.
    What the clients believe they hold is recorded apart from the lock words in memory.

    The clients are those of src/common/mipmap_cache.c: after a get for reading, a thread
    sets the entry's demotion flag whichever lock it was given, releases the entry, gets the
    key for reading again and clears the flag of the entry this second get returned. */
module CacheProtocol {
  import opened CacheStore

  /** A thread, or rather one use of the cache by it: a thread that holds several entries at
      a time counts once for each. */
  type Tid = nat

  /** Where a thread is in its use of an entry; a thread without one is idle.
      `Holding`: has the entry locked, and may start to demote it if it came from a get for
      reading. `Flagged`: has set the flag of `id`, still locked. `Waiting`: has released
      `id` and is about to get `key` again. `Again`: that get returned `now`. */
  datatype Use =
    | Holding(id: Id, mayDemote: bool)
    | Flagged(key: Key, id: Id)
    | Waiting(key: Key, id: Id)
    | Again(key: Key, id: Id, now: Id)

  /** `allocates`: an allocate callback is installed, so misses return a write lock. */
  datatype Config = Config(quota: nat, allocates: bool)

  /** While a miss collects, `skipped` are the links it found pinned and left in place,
      `rest` the links it has not visited yet. */
  datatype Mutex = Free | Collecting(who: Tid, key: Key, mode: Mode, skipped: seq<Id>, rest: seq<Id>)

  /** The locks the threads hold, entry by entry. */
  datatype Locks = Locks(readers: map<Id, set<Tid>>, writers: map<Id, Tid>)

  /** `stamps`: when an entry was last acquired. */
  datatype Sys = Sys(store: Store, config: Config, mutex: Mutex, locks: Locks,
                     uses: map<Tid, Use>, clock: nat, stamps: map<Id, nat>)

  datatype Action =
    | Get(t: Tid, key: Key, mode: Mode, cost: nat)
    | TestGet(t: Tid, key: Key, mode: Mode)
    | Visit
    | Finish(cost: nat)
    | Remove(key: Key)
    | Release(t: Tid, id: Id)
    | BeginDemote(t: Tid, id: Id)
    | EndDemote(t: Tid, id: Id)

  function Start(config: Config): Sys {
    Sys(EmptyStore(), config, Free, Locks(map[], map[]), map[], 0, map[])
  }

  function ReadersOf(l: Locks, id: Id): set<Tid> {
    if id in l.readers then l.readers[id] else {}
  }

  predicate Writes(l: Locks, t: Tid, id: Id) {
    id in l.writers && l.writers[id] == t
  }

  predicate Holds(l: Locks, t: Tid, id: Id) {
    t in ReadersOf(l, id) || Writes(l, t, id)
  }

  predicate Held(l: Locks, id: Id) {
    |ReadersOf(l, id)| > 0 || id in l.writers
  }

  function AddLock(l: Locks, t: Tid, id: Id, mode: Mode): Locks {
    if mode.Write? then l.(writers := l.writers[id := t])
    else l.(readers := l.readers[id := ReadersOf(l, id) + {t}])
  }

  function DropLock(l: Locks, t: Tid, id: Id): Locks {
    if Writes(l, t, id) then l.(writers := l.writers - {id})
    else l.(readers := l.readers[id := ReadersOf(l, id) - {t}])
  }

  /** The fill level at which a miss starts to collect, and below which it stops. */
  function Threshold(config: Config): real {
    0.8 * config.quota as real
  }

  predicate Done(s: Sys)
    requires s.mutex.Collecting?
  {
    s.mutex.rest == [] || s.store.cost as real < Threshold(s.config)
  }

  /** The cost a new entry may have: what the callback sets, or one without a callback. */
  predicate Chargeable(config: Config, cost: nat) {
    cost < WORD && (!config.allocates ==> cost == 1)
  }

  /** The entry the thread has locked. */
  predicate UseHolds(u: Use, id: Id) {
    match u
    case Holding(i, _) => i == id
    case Flagged(_, i) => i == id
    case Waiting(_, _) => false
    case Again(_, _, now) => now == id
  }

  /** The thread is idle, or this is the second get of its demotion. */
  predicate MayGet(s: Sys, t: Tid, key: Key, mode: Mode) {
    t in s.uses ==> s.uses[t].Waiting? && s.uses[t].key == key && mode.Read?
  }

  /** When a thread may take a step. A thread inside a collecting miss takes no other. */
  predicate Enabled(s: Sys, a: Action) {
    match a
    case Get(t, key, mode, cost) => s.mutex.Free? && Chargeable(s.config, cost) && MayGet(s, t, key, mode)
    case TestGet(t, key, mode) => s.mutex.Free? && t !in s.uses
    case Remove(key) => s.mutex.Free?
    case Visit => s.mutex.Collecting? && !Done(s)
    case Finish(cost) => s.mutex.Collecting? && Done(s) && Chargeable(s.config, cost)
    case Release(t, id) =>
      t in s.uses && (s.uses[t].Holding? || s.uses[t].Flagged?) && s.uses[t].id == id
    case BeginDemote(t, id) => t in s.uses && s.uses[t] == Holding(id, true)
    case EndDemote(t, id) => t in s.uses && s.uses[t].Again? && s.uses[t].now == id
  }

  // ----- effects -----

  /** Record that `t` now holds `id`. */
  function Grant(s: Sys, store: Store, t: Tid, id: Id, mode: Mode, mayDemote: bool): Sys {
    s.(store := store, locks := AddLock(s.locks, t, id, mode), uses := s.uses[t := Took(s.uses, t, id, mayDemote)],
       stamps := s.stamps[id := s.clock], clock := s.clock + 1)
  }

  /** A get starts a use of the entry, or goes on with the demotion it belongs to. */
  function Took(uses: map<Tid, Use>, t: Tid, id: Id, mayDemote: bool): Use {
    if t in uses && uses[t].Waiting? then Again(uses[t].key, uses[t].id, id) else Holding(id, mayDemote)
  }

  /** The lock mode a miss hands out. */
  function MissMode(config: Config, mode: Mode): Mode {
    if config.allocates then Write else mode
  }

  function Allocate(s: Sys, t: Tid, key: Key, mode: Mode, cost: nat): Sys {
    var m := MissMode(s.config, mode);
    Grant(s.(mutex := Free), Insert(s.store, key, cost, m), t, s.store.nextId, m, mode.Read?)
  }

  /** A lookup that found an entry: take the lock if the try call grants it, else nothing. */
  function Hit(s: Sys, t: Tid, id: Id, mode: Mode, mayDemote: bool): Sys
    requires id in s.store.heap
  {
    if CanLock(s.store.heap[id], mode) then Grant(s, Acquire(s.store, id, mode), t, id, mode, mayDemote) else s
  }

  function ReleaseBy(s: Sys, t: Tid, id: Id): Sys
    requires t in s.uses && id in s.store.heap && (s.store.heap[id].writing || s.store.heap[id].readers > 0)
  {
    s.(store := Touch(s.store, id, Unlock(s.store.heap[id])), locks := DropLock(s.locks, t, id),
       uses := if s.uses[t].Flagged? then s.uses[t := Waiting(s.uses[t].key, id)] else s.uses - {t})
  }

  function VisitNext(s: Sys): Sys
    requires s.mutex.Collecting? && s.mutex.rest != [] && s.mutex.rest[0] in s.store.heap
  {
    var id := s.mutex.rest[0];
    if Evictable(s.store.heap[id]) then
      s.(store := Evict(s.store, id), mutex := s.mutex.(rest := s.mutex.rest[1..]))
    else
      s.(mutex := s.mutex.(skipped := s.mutex.skipped + [id], rest := s.mutex.rest[1..]))
  }

  function SetFlag(s: Sys, id: Id, flag: bool): Sys
    requires id in s.store.heap
  {
    s.(store := Touch(s.store, id, s.store.heap[id].(demoting := flag)))
  }

  /** One step. Defined where the invariant holds, so that no step reaches freed memory. */
  ghost function Next(s: Sys, a: Action): Sys
    requires Inv(s) && Enabled(s, a)
  {
    match a
    case Get(t, key, mode, cost) =>
      if key in s.store.table then Hit(s, t, s.store.table[key], mode, mode.Read?)
      else if s.store.cost as real > Threshold(s.config) then
        s.(mutex := Collecting(t, key, mode, [], s.store.lru))
      else Allocate(s, t, key, mode, cost)
    case TestGet(t, key, mode) =>
      if key in s.store.table then Hit(s, t, s.store.table[key], mode, false) else s
    case Remove(key) =>
      if key in s.store.table && Evictable(s.store.heap[s.store.table[key]])
      then s.(store := Evict(s.store, s.store.table[key])) else s
    case Visit => ScanIsLive(s); VisitNext(s)
    case Finish(cost) => Allocate(s, s.mutex.who, s.mutex.key, s.mutex.mode, cost)
    case Release(t, id) => UserHolds(s, t, id); ReleaseBy(s, t, id)
    case BeginDemote(t, id) =>
      UserHolds(s, t, id); SetFlag(s, id, true).(uses := s.uses[t := Flagged(s.store.heap[id].key, id)])
    case EndDemote(t, id) =>
      UserHolds(s, t, id); SetFlag(s, id, false).(uses := s.uses[t := Holding(id, false)])
  }

  // ----- the invariant -----

  /** Every lock some thread holds is on a live entry. */
  ghost predicate HeldLive(heap: map<Id, Entry>, l: Locks) {
    forall id :: Held(l, id) ==> id in heap
  }

  /** The lock word in memory counts exactly the locks the threads hold. */
  ghost predicate LocksMatch(heap: map<Id, Entry>, l: Locks) {
    forall id :: id in heap ==> Counts(heap[id], l, id)
  }

  predicate Counts(e: Entry, l: Locks, id: Id) {
    && |ReadersOf(l, id)| == e.readers
    && (e.writing <==> id in l.writers)
    && (e.writing ==> e.readers == 0)
  }

  /** Nothing but the locks of `id` changed. */
  ghost predicate SameButFor(l: Locks, l': Locks, id: Id) {
    forall i :: i != id ==> ReadersOf(l', i) == ReadersOf(l, i) && (i in l'.writers <==> i in l.writers)
  }

  lemma UpdateMatches(heap: map<Id, Entry>, l: Locks, l': Locks, id: Id, e: Entry)
    requires HeldLive(heap, l) && LocksMatch(heap, l) && SameButFor(l, l', id)
    requires Counts(e, l', id)
    ensures HeldLive(heap[id := e], l') && LocksMatch(heap[id := e], l')
  {
    hide ReadersOf;
    assert forall i :: i != id ==> Held(l', i) == Held(l, i);
  }

  /** A collecting miss has split the list into the visited survivors and the unvisited. */
  predicate Scan(store: Store, mutex: Mutex) {
    mutex.Collecting? ==> store.lru == mutex.skipped + mutex.rest && mutex.key !in store.table
  }

  /** The list is ordered by the time of the last successful acquisition. */
  ghost predicate Recency(lru: seq<Id>, stamps: map<Id, nat>, clock: nat) {
    && (forall id :: id in lru ==> id in stamps && stamps[id] < clock)
    && (forall i, j :: 0 <= i < j < |lru| ==> stamps[lru[i]] < stamps[lru[j]])
  }

  /** A thread holds a lock exactly when its place in its use says so. */
  ghost predicate UsesMatch(l: Locks, uses: map<Tid, Use>) {
    forall t, id :: Holds(l, t, id) <==> t in uses && UseHolds(uses[t], id)
  }

  /** A demotion speaks of entries of its own key. */
  predicate Keyed(st: Store, u: Use) {
    && (!u.Holding? ==> u.id < st.nextId && (u.id in st.heap ==> st.heap[u.id].key == u.key))
    && (u.Again? ==> u.now < st.nextId && (u.now in st.heap ==> st.heap[u.now].key == u.key))
  }

  ghost predicate AllKeyed(st: Store, uses: map<Tid, Use>) {
    forall t :: t in uses ==> Keyed(st, uses[t])
  }

  predicate CollectorWaits(s: Sys) {
    s.mutex.Collecting? ==> MayGet(s, s.mutex.who, s.mutex.key, s.mutex.mode)
  }

  ghost predicate Inv(s: Sys) {
    && StoreInv(s.store)
    && HeldLive(s.store.heap, s.locks)
    && LocksMatch(s.store.heap, s.locks)
    && UsesMatch(s.locks, s.uses)
    && AllKeyed(s.store, s.uses)
    && Scan(s.store, s.mutex) && CollectorWaits(s)
    && Recency(s.store.lru, s.stamps, s.clock)
  }

  lemma ScanIsLive(s: Sys)
    requires Inv(s) && s.mutex.Collecting? && s.mutex.rest != []
    ensures s.mutex.rest[0] in s.store.heap && s.mutex.rest[0] in s.store.lru
  {
    hide LocksMatch, HeldLive, Recency;
    assert s.store.lru[|s.mutex.skipped|] == s.mutex.rest[0];
  }

  lemma HoldIsLocked(s: Sys, t: Tid, id: Id)
    requires Inv(s) && Holds(s.locks, t, id)
    ensures id in s.store.heap
    ensures s.store.heap[id].writing || s.store.heap[id].readers > 0
  {
    hide StoreInv, Recency;
    assert Held(s.locks, id) by {
      if t in ReadersOf(s.locks, id) {
        assert |ReadersOf(s.locks, id)| > 0;
      }
    }
  }

  lemma UserHolds(s: Sys, t: Tid, id: Id)
    requires Inv(s) && t in s.uses && UseHolds(s.uses[t], id)
    ensures id in s.store.heap && Holds(s.locks, t, id)
    ensures s.store.heap[id].writing || s.store.heap[id].readers > 0
  {
    assert Holds(s.locks, t, id) by {
      hide StoreInv, Recency, LocksMatch, HeldLive;
    }
    HoldIsLocked(s, t, id);
  }

  // ----- every step keeps the invariant -----

  lemma {:induction false} WithoutRecency(l: seq<Id>, x: Id, stamps: map<Id, nat>, clock: nat)
    requires Recency(l, stamps, clock)
    ensures Recency(Without(l, x), stamps, clock)
    ensures forall y :: y in Without(l, x) ==> y in l
  {
    if l != [] && l[0] != x {
      WithoutRecency(l[1..], x, stamps, clock);
      var r := Without(l[1..], x);
      forall y | y in r ensures stamps[l[0]] < stamps[y] {
        assert y in l[1..];
      }
    }
  }

  lemma NewestRecency(l: seq<Id>, x: Id, stamps: map<Id, nat>, clock: nat)
    requires Recency(l, stamps, clock) && x !in l
    ensures Recency(l + [x], stamps[x := clock], clock + 1)
  {
  }

  /** A thread's new lock is counted in memory and nobody else's is disturbed. */
  lemma AddLockMatches(heap: map<Id, Entry>, l: Locks, t: Tid, id: Id, mode: Mode, e: Entry)
    requires HeldLive(heap, l) && LocksMatch(heap, l)
    requires e.readers == |ReadersOf(l, id)| && id !in l.writers && CanLock(e, mode) && t !in ReadersOf(l, id)
    ensures HeldLive(heap[id := Lock(e, mode)], AddLock(l, t, id, mode))
    ensures LocksMatch(heap[id := Lock(e, mode)], AddLock(l, t, id, mode))
  {
    hide HeldLive, LocksMatch;
    UpdateMatches(heap, l, AddLock(l, t, id, mode), id, Lock(e, mode));
  }

  lemma HitKeepsRecency(s: Sys, id: Id)
    requires Inv(s) && id in s.store.heap
    ensures Recency(Without(s.store.lru, id) + [id], s.stamps[id := s.clock], s.clock + 1)
  {
    hide HeldLive, LocksMatch;
    var lru := Without(s.store.lru, id);
    WithoutProps(s.store.lru, id);
    WithoutRecency(s.store.lru, id, s.stamps, s.clock);
    NewestRecency(lru, id, s.stamps, s.clock);
  }

  /** A thread that holds nothing takes a lock nobody's lock is in the way of. */
  lemma AddLockUses(l: Locks, uses: map<Tid, Use>, t: Tid, id: Id, mode: Mode, u: Use)
    requires UsesMatch(l, uses) && (t in uses ==> uses[t].Waiting?) && id !in l.writers
    requires forall i :: UseHolds(u, i) <==> i == id
    ensures UsesMatch(AddLock(l, t, id, mode), uses[t := u])
  {
    var l' := AddLock(l, t, id, mode);
    forall t', i
      ensures Holds(l', t', i) <==> t' in uses[t := u] && UseHolds(uses[t := u][t'], i)
    {
      assert Holds(l, t', i) <==> t' in uses && UseHolds(uses[t'], i);
    }
  }

  lemma DropLockUses(l: Locks, uses: map<Tid, Use>, uses': map<Tid, Use>, t: Tid, id: Id)
    requires UsesMatch(l, uses) && t in uses && UseHolds(uses[t], id)
    requires id in l.writers ==> ReadersOf(l, id) == {}
    requires uses' == uses - {t} || (exists k: Key :: uses' == uses[t := Waiting(k, id)])
    ensures UsesMatch(DropLock(l, t, id), uses')
  {
    var l' := DropLock(l, t, id);
    forall t', i
      ensures Holds(l', t', i) <==> t' in uses' && UseHolds(uses'[t'], i)
    {
      assert Holds(l, t', i) <==> t' in uses && UseHolds(uses[t'], i);
      assert Holds(l, t, i) <==> i == id;
    }
  }

  /** Entries keep their keys, and identities are not used again. */
  ghost predicate SameKeys(st: Store, st': Store) {
    && st.nextId <= st'.nextId
    && forall id :: id in st'.heap && id < st.nextId ==> id in st.heap && st'.heap[id].key == st.heap[id].key
  }

  lemma KeyedFrame(st: Store, st': Store, uses: map<Tid, Use>)
    requires AllKeyed(st, uses) && SameKeys(st, st')
    ensures AllKeyed(st', uses)
  {
    forall t | t in uses ensures Keyed(st', uses[t]) {
      assert Keyed(st, uses[t]);
    }
  }

  lemma TookIsKeyed(s: Sys, st: Store, t: Tid, key: Key, mode: Mode, id: Id, mayDemote: bool)
    requires AllKeyed(s.store, s.uses) && SameKeys(s.store, st) && MayGet(s, t, key, mode)
    requires id in st.heap && st.heap[id].key == key && id < st.nextId
    ensures AllKeyed(st, s.uses[t := Took(s.uses, t, id, mayDemote)])
  {
    KeyedFrame(s.store, st, s.uses);
    if t in s.uses {
      assert Keyed(st, s.uses[t]);
    }
  }

  lemma HitKeepsInv(s: Sys, t: Tid, id: Id, key: Key, mode: Mode, mayDemote: bool)
    requires Inv(s) && s.mutex.Free? && id in s.store.heap && s.store.heap[id].key == key && MayGet(s, t, key, mode)
    ensures Inv(Hit(s, t, id, mode, mayDemote))
  {
    hide StoreInv, Recency, HeldLive, LocksMatch, UsesMatch, AllKeyed, MayGet, Took, Without;
    if CanLock(s.store.heap[id], mode) {
      CountsAt(s.store.heap, s.locks, id);
      AcquireKeepsInv(s.store, id, mode);
      TookHolds(s, t, key, mode, id, mayDemote);
      HoldsNothing(s.locks, s.uses, t, id);
      AddLockMatches(s.store.heap, s.locks, t, id, mode, s.store.heap[id]);
      AddLockUses(s.locks, s.uses, t, id, mode, Took(s.uses, t, id, mayDemote));
      LiveIsNamed(s.store, id);
      TookIsKeyed(s, Acquire(s.store, id, mode), t, key, mode, id, mayDemote);
      HitKeepsRecency(s, id);
    }
  }

  lemma CountsAt(heap: map<Id, Entry>, l: Locks, id: Id)
    requires LocksMatch(heap, l) && id in heap
    ensures Counts(heap[id], l, id)
  {
  }

  lemma HoldsNothing(l: Locks, uses: map<Tid, Use>, t: Tid, id: Id)
    requires UsesMatch(l, uses) && (t in uses ==> uses[t].Waiting?)
    ensures !Holds(l, t, id)
  {
    assert Holds(l, t, id) <==> t in uses && UseHolds(uses[t], id);
  }

  lemma TookHolds(s: Sys, t: Tid, key: Key, mode: Mode, id: Id, mayDemote: bool)
    requires MayGet(s, t, key, mode)
    ensures t in s.uses ==> s.uses[t].Waiting?
    ensures forall i :: UseHolds(Took(s.uses, t, id, mayDemote), i) <==> i == id
  {
  }

  lemma AllocateKeepsInv(s: Sys, t: Tid, key: Key, mode: Mode, cost: nat)
    requires Inv(s) && key !in s.store.table && MayGet(s, t, key, mode)
    ensures Inv(Allocate(s, t, key, mode, cost))
  {
    hide Recency, StoreInv, LocksMatch, UsesMatch, AllKeyed, MayGet, Took;
    var m, id := MissMode(s.config, mode), s.store.nextId;
    InsertKeepsInv(s.store, key, cost, m);
    FreshId(s.store);
    assert !Held(s.locks, id);
    TookHolds(s, t, key, mode, id, mode.Read?);
    AddLockUses(s.locks, s.uses, t, id, m, Took(s.uses, t, id, mode.Read?));
    TookIsKeyed(s, Insert(s.store, key, cost, m), t, key, mode, id, mode.Read?);
    AddLockMatches(s.store.heap, s.locks, t, id, m, Entry(key, cost, 0, false, false));
    NewestRecency(s.store.lru, id, s.stamps, s.clock);
  }

  lemma FreshId(st: Store)
    requires StoreInv(st)
    ensures st.nextId !in st.heap && st.nextId !in st.lru
  {
    assert !(st.nextId < st.nextId);
  }

  /** An entry that passes the eviction test is held by no thread. */
  lemma EvictableNotHeld(heap: map<Id, Entry>, l: Locks, id: Id)
    requires LocksMatch(heap, l) && id in heap && Evictable(heap[id])
    ensures !Held(l, id)
  {
    assert |ReadersOf(l, id)| == 0;
  }

  lemma EvictKeepsInvExceptScan(s: Sys, id: Id)
    requires Inv(s) && id in s.store.heap && Evictable(s.store.heap[id])
    ensures Inv(s.(store := Evict(s.store, id), mutex := Free))
  {
    hide Recency, StoreInv, UsesMatch, AllKeyed;
    EvictKeepsInv(s.store, id);
    EvictableNotHeld(s.store.heap, s.locks, id);
    KeyedFrame(s.store, Evict(s.store, id), s.uses);
    WithoutRecency(s.store.lru, id, s.stamps, s.clock);
  }

  lemma EvictKeepsScan(s: Sys, id: Id, skipped: seq<Id>, rest: seq<Id>)
    requires Indexed(s.store) && s.store.lru == skipped + [id] + rest
    ensures Without(s.store.lru, id) == skipped + rest
  {
    assert s.store.lru[|skipped|] == id;
    assert forall i :: 0 <= i < |skipped| ==> s.store.lru[i] == skipped[i];
    WithoutMiddle(skipped, id, rest);
  }

  lemma VisitKeepsInv(s: Sys)
    requires Inv(s) && s.mutex.Collecting? && s.mutex.rest != [] && s.mutex.rest[0] in s.store.heap
    ensures Inv(VisitNext(s))
  {
    hide Recency, Indexed, Accounted, LocksMatch, HeldLive;
    var id, skipped, rest := s.mutex.rest[0], s.mutex.skipped, s.mutex.rest[1..];
    assert s.mutex.rest == [id] + rest;
    assert s.store.lru == skipped + [id] + rest;
    if Evictable(s.store.heap[id]) {
      EvictKeepsInvExceptScan(s, id);
      EvictKeepsScan(s, id, skipped, rest);
    }
  }

  /** A thread that holds an entry sets or clears its flag and moves on in its demotion. */
  lemma SetFlagKeepsInv(s: Sys, t: Tid, id: Id, flag: bool, u: Use)
    requires Inv(s) && id in s.store.heap && t in s.uses && UseHolds(s.uses[t], id)
    requires u == (if flag then Flagged(s.store.heap[id].key, id) else Holding(id, false))
    ensures Inv(SetFlag(s, id, flag).(uses := s.uses[t := u]))
  {
    hide StoreInv, Recency, UsesMatch, AllKeyed, LocksMatch, HeldLive;
    var e := s.store.heap[id].(demoting := flag);
    TouchKeepsInv(s.store, id, e);
    FlagMatches(s.store.heap, s.locks, id, e);
    SameUses(s.locks, s.uses, t, u);
    KeyedFrame(s.store, Touch(s.store, id, e), s.uses);
    LiveIsNamed(s.store, id);
    assert AllKeyed(Touch(s.store, id, e), s.uses[t := u]) by {
      KeyedUpdate(Touch(s.store, id, e), s.uses, t, u);
    }
  }

  lemma FlagMatches(heap: map<Id, Entry>, l: Locks, id: Id, e: Entry)
    requires HeldLive(heap, l) && LocksMatch(heap, l) && id in heap
    requires e.readers == heap[id].readers && e.writing == heap[id].writing
    ensures HeldLive(heap[id := e], l) && LocksMatch(heap[id := e], l)
  {
  }

  lemma SameUses(l: Locks, uses: map<Tid, Use>, t: Tid, u: Use)
    requires UsesMatch(l, uses) && t in uses && forall i :: UseHolds(u, i) <==> UseHolds(uses[t], i)
    ensures UsesMatch(l, uses[t := u])
  {
    forall t', i
      ensures Holds(l, t', i) <==> t' in uses[t := u] && UseHolds(uses[t := u][t'], i)
    {
      assert Holds(l, t', i) <==> t' in uses && UseHolds(uses[t'], i);
    }
  }

  lemma KeyedUpdate(st: Store, uses: map<Tid, Use>, t: Tid, u: Use)
    requires AllKeyed(st, uses) && Keyed(st, u)
    ensures AllKeyed(st, uses[t := u])
  {
  }

  lemma DropLockMatches(heap: map<Id, Entry>, l: Locks, t: Tid, id: Id)
    requires HeldLive(heap, l) && LocksMatch(heap, l) && Holds(l, t, id) && id in heap
    requires heap[id].writing || heap[id].readers > 0
    ensures HeldLive(heap[id := Unlock(heap[id])], DropLock(l, t, id))
    ensures LocksMatch(heap[id := Unlock(heap[id])], DropLock(l, t, id))
  {
    assert Counts(heap[id], l, id);
    hide HeldLive, LocksMatch;
    UpdateMatches(heap, l, DropLock(l, t, id), id, Unlock(heap[id]));
  }

  lemma ReleaseKeepsInv(s: Sys, t: Tid, id: Id)
    requires Inv(s) && Enabled(s, Release(t, id)) && id in s.store.heap && Holds(s.locks, t, id)
    requires s.store.heap[id].writing || s.store.heap[id].readers > 0
    ensures Inv(ReleaseBy(s, t, id))
  {
    hide StoreInv, Recency, LocksMatch, HeldLive, UsesMatch, AllKeyed;
    var s' := ReleaseBy(s, t, id);
    TouchKeepsInv(s.store, id, Unlock(s.store.heap[id]));
    DropLockMatches(s.store.heap, s.locks, t, id);
    WriterAlone(s.store.heap, s.locks, id);
    DropLockUses(s.locks, s.uses, s'.uses, t, id);
    KeyedFrame(s.store, s'.store, s.uses);
    assert AllKeyed(s'.store, s'.uses) by {
      ReleasedKeyed(s'.store, s.uses, s'.uses, t, id);
    }
  }

  lemma WriterAlone(heap: map<Id, Entry>, l: Locks, id: Id)
    requires LocksMatch(heap, l) && id in heap
    ensures id in l.writers ==> ReadersOf(l, id) == {}
  {
    assert Counts(heap[id], l, id);
  }

  lemma ReleasedKeyed(st: Store, uses: map<Tid, Use>, uses': map<Tid, Use>, t: Tid, id: Id)
    requires AllKeyed(st, uses) && t in uses
    requires uses' == if uses[t].Flagged? then uses[t := Waiting(uses[t].key, uses[t].id)] else uses - {t}
    ensures AllKeyed(st, uses')
  {
    assert Keyed(st, uses[t]);
  }

  lemma LiveIsNamed(st: Store, id: Id)
    requires StoreInv(st) && id in st.heap
    ensures id < st.nextId
  {
  }

  /** Every step of every thread keeps the invariant. */
  lemma StepKeepsInv(s: Sys, a: Action)
    requires Inv(s) && Enabled(s, a)
    ensures Inv(Next(s, a))
  {
    hide Recency, LocksMatch, HeldLive, Accounted, UsesMatch, AllKeyed;
    match a
    case Get(t, key, mode, cost) =>
      if key in s.store.table {
        HitKeepsInv(s, t, s.store.table[key], key, mode, mode.Read?);
      } else if !(s.store.cost as real > Threshold(s.config)) {
        AllocateKeepsInv(s, t, key, mode, cost);
      }
    case TestGet(t, key, mode) =>
      if key in s.store.table {
        HitKeepsInv(s, t, s.store.table[key], key, mode, false);
      }
    case Remove(key) =>
      if key in s.store.table && Evictable(s.store.heap[s.store.table[key]]) {
        EvictKeepsInvExceptScan(s, s.store.table[key]);
      }
    case Visit =>
      ScanIsLive(s);
      VisitKeepsInv(s);
    case Finish(cost) =>
      AllocateKeepsInv(s, s.mutex.who, s.mutex.key, s.mutex.mode, cost);
    case Release(t, id) =>
      UserHolds(s, t, id);
      ReleaseKeepsInv(s, t, id);
    case BeginDemote(t, id) =>
      UserHolds(s, t, id);
      SetFlagKeepsInv(s, t, id, true, Flagged(s.store.heap[id].key, id));
    case EndDemote(t, id) =>
      UserHolds(s, t, id);
      SetFlagKeepsInv(s, t, id, false, Holding(id, false));
  }
}
