/** What holds over whole runs of the cache, for any number of threads. */
module CacheRuns {
  import opened CacheStore
  import opened CacheProtocol

  /** `acts` can be taken one after the other from `s`. */
  ghost predicate Run(s: Sys, acts: seq<Action>)
    requires Inv(s)
    decreases |acts|
  {
    acts == [] ||
    (Enabled(s, acts[0]) && (StepKeepsInv(s, acts[0]); Run(Next(s, acts[0]), acts[1..])))
  }

  ghost function After(s: Sys, acts: seq<Action>): Sys
    requires Inv(s) && Run(s, acts)
    decreases |acts|
  {
    if acts == [] then s
    else StepKeepsInv(s, acts[0]); After(Next(s, acts[0]), acts[1..])
  }

  lemma StartInv(config: Config)
    ensures Inv(Start(config))
  {
    EmptyStoreInv();
  }

  lemma {:induction false} RunKeepsInv(s: Sys, acts: seq<Action>)
    requires Inv(s) && Run(s, acts)
    ensures Inv(After(s, acts))
    decreases |acts|
  {
    hide Inv, Enabled, Next;
    if acts != [] {
      StepKeepsInv(s, acts[0]);
      RunKeepsInv(Next(s, acts[0]), acts[1..]);
    }
  }

  lemma {:induction false} RunAppend(s: Sys, a: seq<Action>, b: seq<Action>)
    requires Inv(s) && Run(s, a)
    requires (RunKeepsInv(s, a); Run(After(s, a), b))
    ensures Run(s, a + b)
    ensures (RunKeepsInv(s, a); After(s, a + b) == After(After(s, a), b))
    decreases |a|
  {
    hide Inv, Enabled, Next;
    RunKeepsInv(s, a);
    if a == [] {
      assert a + b == b;
    } else {
      StepKeepsInv(s, a[0]);
      assert (a + b)[1..] == a[1..] + b;
      RunAppend(Next(s, a[0]), a[1..], b);
    }
  }

  /** In every run, an entry on which some thread holds a lock is live, in the LRU list
      once, and found under its own key. */
  lemma HeldEntryIsMapped(config: Config, acts: seq<Action>, t: Tid, id: Id)
    requires (StartInv(config); Run(Start(config), acts))
    requires Holds(After(Start(config), acts).locks, t, id)
    ensures var st := After(Start(config), acts).store;
            id in st.heap && multiset(st.lru)[id] == 1 &&
            st.heap[id].key in st.table && st.table[st.heap[id].key] == id
  {
    RunKeepsInv(Start(config), acts);
    var s := After(Start(config), acts);
    HoldIsLocked(s, t, id);
    MappedOnce(s.store, id);
  }

  lemma MappedOnce(st: Store, id: Id)
    requires Indexed(st) && id in st.heap
    ensures multiset(st.lru)[id] == 1
    ensures st.heap[id].key in st.table && st.table[st.heap[id].key] == id
  {
    DistinctCount(st.lru, id);
  }

  lemma {:induction false} DistinctCount(s: seq<Id>, x: Id)
    requires Distinct(s)
    ensures multiset(s)[x] == if x in s then 1 else 0
  {
    if s != [] {
      assert s == [s[0]] + s[1..];
      DistinctCount(s[1..], x);
    }
  }

  /** The eviction test in memory says exactly that no thread holds the entry and none is
      demoting it. */
  lemma EvictableIff(s: Sys, id: Id)
    requires Inv(s) && id in s.store.heap
    ensures Evictable(s.store.heap[id]) <==> !Held(s.locks, id) && !s.store.heap[id].demoting
  {
    hide StoreInv, Recency;
    assert Counts(s.store.heap[id], s.locks, id);
  }

  /** A step that frees an entry found it held by nobody and not being demoted, and cleans
      it up once; every other entry keeps its key, its cost and its place in memory. */
  lemma StepFreesOnlyIdle(s: Sys, a: Action, id: Id)
    requires Inv(s) && Enabled(s, a) && id in s.store.heap
    ensures var s' := Next(s, a);
            if id in s'.store.heap
            then s'.store.heap[id].key == s.store.heap[id].key && s'.store.heap[id].cost == s.store.heap[id].cost
            else !Held(s.locks, id) && !s.store.heap[id].demoting && s'.store.cleaned == s.store.cleaned + [id]
  {
    hide StoreInv, Recency, LocksMatch, HeldLive, Without, Threshold, Held, ReadersOf;
    EvictableIff(s, id);
    FreshId(s.store);
    match a
    case Visit => ScanIsLive(s);
    case Release(t, i) => UserHolds(s, t, i);
    case BeginDemote(t, i) => UserHolds(s, t, i);
    case EndDemote(t, i) => UserHolds(s, t, i);
    case _ =>
  }

  /** Over a whole run every allocation is live or has been cleaned up once, not both. */
  lemma RunCleansOnce(config: Config, acts: seq<Action>, id: Id)
    requires (StartInv(config); Run(Start(config), acts))
    ensures var st := After(Start(config), acts).store;
            id < st.nextId ==> multiset(st.cleaned)[id] == if id in st.heap then 0 else 1
  {
    RunKeepsInv(Start(config), acts);
    var st := After(Start(config), acts).store;
    DistinctCount(st.cleaned, id);
  }

  /** In every run the cost field is the sum of the live costs, so long as that sum fits. */
  lemma RunCost(config: Config, acts: seq<Action>)
    requires (StartInv(config); Run(Start(config), acts))
    ensures var st := After(Start(config), acts).store;
            && st.cost == Wrap(Total(st.heap, st.lru))
            && (Total(st.heap, st.lru) < WORD ==> st.cost == Total(st.heap, st.lru))
  {
    hide Total, Indexed, Accounted, Run;
    StartInv(config);
    RunKeepsInv(Start(config), acts);
    assert StoreInv(After(Start(config), acts).store);
  }

  function Max(a: real, b: real): real {
    if a >= b then a else b
  }

  /** The thread, the key and the mode a step allocates for. */
  function ForWhom(s: Sys, a: Action): (Tid, Key, Mode)
    requires a.Get? || (a.Finish? && s.mutex.Collecting?)
  {
    if a.Get? then (a.t, a.key, a.mode) else (s.mutex.who, s.mutex.key, s.mutex.mode)
  }

  /** What a step that allocates leaves, in memory and with the threads: the new entry under
      its key, most recently used, at the cost charged. With an allocate callback the thread
      holds it for writing whatever it asked for; without one as it asked. */
  lemma MissLocks(s: Sys, a: Action)
    requires Inv(s) && Enabled(s, a) && Next(s, a).store.nextId > s.store.nextId
    ensures a.Get? || (a.Finish? && s.mutex.Collecting?)
    ensures var s', id, (t, key, mode) := Next(s, a), s.store.nextId, ForWhom(s, a);
            && s'.store.nextId == id + 1 && s'.mutex.Free?
            && id in s'.store.heap && key in s'.store.table && s'.store.table[key] == id
            && s'.store.lru == s.store.lru + [id]
            && s'.store.heap[id].key == key && s'.store.heap[id].cost == a.cost && !s'.store.heap[id].demoting
            && if s.config.allocates || mode == Write
               then id in s'.locks.writers && s'.locks.writers[id] == t && ReadersOf(s'.locks, id) == {}
                    && s'.store.heap[id].writing && s'.store.heap[id].readers == 0
               else id !in s'.locks.writers && ReadersOf(s'.locks, id) == {t}
                    && !s'.store.heap[id].writing && s'.store.heap[id].readers == 1
  {
    hide StoreInv, Recency, LocksMatch, UsesMatch, AllKeyed, Threshold, Without;
    FreshId(s.store);
    assert !Held(s.locks, s.store.nextId);
    match a
    case Visit => ScanIsLive(s);
    case Release(t, id) => UserHolds(s, t, id);
    case BeginDemote(t, id) => UserHolds(s, t, id);
    case EndDemote(t, id) => UserHolds(s, t, id);
    case _ =>
  }

  /** A thread holds one more lock on `id`, of this mode; no other lock changed. */
  ghost predicate OneMoreLock(l: Locks, l': Locks, t: Tid, id: Id, mode: Mode) {
    && l'.writers == (if mode == Write then l.writers[id := t] else l.writers)
    && (forall i :: ReadersOf(l', i) == ReadersOf(l, i) + if i == id && mode == Read then {t} else {})
  }

  lemma AddsOneLock(l: Locks, t: Tid, id: Id, mode: Mode)
    ensures OneMoreLock(l, AddLock(l, t, id, mode), t, id, mode)
  {
  }

  /** The try call is refused exactly where a writer holds the entry, or anyone does and it is
      wanted for writing. */
  lemma RefusedIff(heap: map<Id, Entry>, l: Locks, id: Id, mode: Mode)
    requires LocksMatch(heap, l) && id in heap
    ensures CanLock(heap[id], mode) <==> !(id in l.writers || (mode == Write && ReadersOf(l, id) != {}))
  {
    CountsAt(heap, l, id);
  }

  /** A lookup of a mapped key, by get or by test: nothing changes where the try call is
      refused; otherwise the thread now holds the entry as it asked, no other lock changed,
      and the entry is the most recently used. */
  lemma HitLocks(s: Sys, a: Action)
    requires Inv(s) && Enabled(s, a) && (a.Get? || a.TestGet?) && a.key in s.store.table
    ensures var s', id := Next(s, a), s.store.table[a.key];
            && id in s.store.heap
            && if id in s.locks.writers || (a.mode == Write && ReadersOf(s.locks, id) != {}) then s' == s
               else
                 && s'.store.lru == Without(s.store.lru, id) + [id] && s'.store.cost == s.store.cost
                 && OneMoreLock(s.locks, s'.locks, a.t, id, a.mode)
  {
    hide StoreInv, Recency, LocksMatch, UsesMatch, AllKeyed, HeldLive, Without, OneMoreLock, ReadersOf, CanLock;
    TableEntry(s.store, a.key);
    RefusedIff(s.store.heap, s.locks, s.store.table[a.key], a.mode);
    AddsOneLock(s.locks, a.t, s.store.table[a.key], a.mode);
  }

  lemma TableEntry(st: Store, key: Key)
    requires StoreInv(st) && key in st.table
    ensures st.table[key] in st.heap && st.heap[st.table[key]].key == key
  {
  }

  /** A release drops the lock of that thread on that entry and no other. */
  lemma ReleaseDrops(s: Sys, t: Tid, id: Id)
    requires Inv(s) && Enabled(s, Release(t, id))
    ensures var s' := Next(s, Release(t, id));
            && Holds(s.locks, t, id) && s'.store.lru == s.store.lru && s'.store.cost == s.store.cost
            && forall t', i :: Holds(s'.locks, t', i) <==> Holds(s.locks, t', i) && !(t' == t && i == id)
  {
    hide StoreInv, Recency, HeldLive, AllKeyed;
    UserHolds(s, t, id);
    StepKeepsInv(s, Release(t, id));
    var s' := Next(s, Release(t, id));
    forall t', i
      ensures Holds(s'.locks, t', i) <==> Holds(s.locks, t', i) && !(t' == t && i == id)
    {
      assert Holds(s.locks, t', i) <==> t' in s.uses && UseHolds(s.uses[t'], i);
      assert Holds(s'.locks, t', i) <==> t' in s'.uses && UseHolds(s'.uses[t'], i);
    }
  }

  /** A get of a key that is not mapped collects first if and only if the cost exceeds four
      fifths of the quota, and otherwise allocates at once. */
  lemma MissCollectsIff(s: Sys, get: Action)
    requires Inv(s) && get.Get? && Enabled(s, get) && get.key !in s.store.table
    ensures Next(s, get).mutex.Collecting? <==> s.store.cost as real > 0.8 * s.config.quota as real
    ensures !Next(s, get).mutex.Collecting? ==> Next(s, get).store.nextId == s.store.nextId + 1
  {
    hide StoreInv, Recency, LocksMatch, UsesMatch, AllKeyed, HeldLive;
  }

  /** A miss with the cost at most four fifths of the quota allocates at once. */
  lemma DirectMissCost(s: Sys, a: Action)
    requires Inv(s) && Enabled(s, a) && a.Get? && Next(s, a).store.nextId > s.store.nextId
    ensures Next(s, a).store.cost as real <= 0.8 * s.config.quota as real + a.cost as real
  {
    hide StoreInv, Recency, LocksMatch, HeldLive, UsesMatch, AllKeyed;
    WordWraps(s.store.cost + a.cost);
  }

  // ----- what a collection does while other threads go on -----

  /** This step of a collection visits `id`, with the cost not yet below the threshold, and
      finds it held or being demoted, or else idle. */
  ghost predicate Visits(s: Sys, a: Action, id: Id, pinned: bool) {
    && a.Visit? && s.mutex.Collecting? && s.mutex.rest != [] && s.mutex.rest[0] == id && id in s.store.heap
    && s.store.cost as real >= 0.8 * s.config.quota as real
    && (pinned <==> Held(s.locks, id) || s.store.heap[id].demoting)
  }

  /** Some step of the run visits `id` and finds it so. */
  ghost predicate Found(s: Sys, acts: seq<Action>, id: Id, pinned: bool)
    requires Inv(s) && Run(s, acts)
    decreases |acts|
  {
    acts != [] &&
    (StepKeepsInv(s, acts[0]); Visits(s, acts[0], id, pinned) || Found(Next(s, acts[0]), acts[1..], id, pinned))
  }

  /** `s'` is later in the same collection than `s`: of the links in between, those in
      `pinned` have been skipped and those in `idle` evicted, in order. */
  ghost predicate Later(s: Sys, s': Sys, pinned: seq<Id>, idle: seq<Id>) {
    && s.mutex.Collecting? && s'.mutex.Collecting? && s'.config == s.config
    && s'.mutex.skipped == s.mutex.skipped + pinned && s'.store.cleaned == s.store.cleaned + idle
  }

  /** One step of any thread while a miss collects. */
  lemma CollectingStep(s: Sys, a: Action) returns (pinned: seq<Id>, idle: seq<Id>)
    requires Inv(s) && Enabled(s, a) && s.mutex.Collecting? && !a.Finish?
    ensures Later(s, Next(s, a), pinned, idle)
    ensures forall id :: id in pinned ==> Visits(s, a, id, true)
    ensures forall id :: id in idle ==> Visits(s, a, id, false)
  {
    hide StoreInv, Recency, LocksMatch, HeldLive, UsesMatch, AllKeyed, Held, Without;
    pinned, idle := [], [];
    match a
    case Visit =>
      ScanIsLive(s);
      var id := s.mutex.rest[0];
      EvictableIff(s, id);
      if Evictable(s.store.heap[id]) {
        idle := [id];
      } else {
        pinned := [id];
      }
    case Release(t, id) => UserHolds(s, t, id);
    case BeginDemote(t, id) => UserHolds(s, t, id);
    case EndDemote(t, id) => UserHolds(s, t, id);
  }

  /** While a miss collects, whatever the other threads do in between: every link it skips
      was held or being demoted when it was visited, every entry it evicts was idle, and it
      visits none once the cost is below the threshold. */
  lemma {:induction false} CollectionVisits(s: Sys, acts: seq<Action>) returns (pinned: seq<Id>, idle: seq<Id>)
    requires Inv(s) && Run(s, acts) && s.mutex.Collecting? && forall i :: 0 <= i < |acts| ==> !acts[i].Finish?
    ensures Later(s, After(s, acts), pinned, idle)
    ensures forall id :: id in pinned ==> Found(s, acts, id, true)
    ensures forall id :: id in idle ==> Found(s, acts, id, false)
    decreases |acts|
  {
    hide Inv, Enabled, Next, Visits;
    if acts == [] {
      pinned, idle := [], [];
    } else {
      StepKeepsInv(s, acts[0]);
      var p, i := CollectingStep(s, acts[0]);
      var p', i' := CollectionVisits(Next(s, acts[0]), acts[1..]);
      pinned, idle := p + p', i + i';
    }
  }

  /** The cost after a miss that collected: at most the threshold, or the cost of distinct
      entries each of which was held or being demoted when it was visited, and the new
      entry. What was evicted was idle when it was visited. */
  lemma MissCostBound(s: Sys, get: Action, acts: seq<Action>, cost: nat) returns (pinned: seq<Id>, idle: seq<Id>)
    requires Inv(s) && get.Get? && Enabled(s, get) && Next(s, get).mutex.Collecting?
    requires (StepKeepsInv(s, get); Run(Next(s, get), acts)) && forall i :: 0 <= i < |acts| ==> !acts[i].Finish?
    requires (StepKeepsInv(s, get); Enabled(After(Next(s, get), acts), Finish(cost)))
    ensures (StepKeepsInv(s, get); RunKeepsInv(Next(s, get), acts);
             var s1, s2 := Next(s, get), After(Next(s, get), acts);
             var s3 := Next(s2, Finish(cost));
             && Distinct(pinned) && s3.store.cleaned == s.store.cleaned + idle
             && (forall id :: id in pinned ==> id in s2.store.heap && Found(s1, acts, id, true))
             && (forall id :: id in idle ==> Found(s1, acts, id, false))
             && s3.store.cost as real
                <= Max(0.8 * s.config.quota as real, Total(s2.store.heap, pinned) as real) + cost as real)
  {
    hide Run, After, Recency, LocksMatch, HeldLive, UsesMatch, AllKeyed, Accounted, Tabled, Total, Done;
    StepKeepsInv(s, get);
    var s1 := Next(s, get);
    RunKeepsInv(s1, acts);
    var s2 := After(s1, acts);
    pinned, idle := CollectionVisits(s1, acts);
    assert s2.mutex.skipped == pinned;
    CollectedCost(s2);
    SkippedLive(s2);
    WordWraps(s2.store.cost + cost);
  }

  lemma SkippedLive(s: Sys)
    requires Inv(s) && s.mutex.Collecting?
    ensures Distinct(s.mutex.skipped) && forall id :: id in s.mutex.skipped ==> id in s.store.heap
  {
    hide Recency, LocksMatch, HeldLive, UsesMatch, AllKeyed, Accounted, Tabled;
    var l, k := s.store.lru, s.mutex.skipped;
    assert forall i :: 0 <= i < |k| ==> l[i] == k[i];
  }

  /** What is left when a collection is done. */
  lemma CollectedCost(s: Sys)
    requires Inv(s) && s.mutex.Collecting? && Done(s)
    ensures s.store.cost as real <= Max(Threshold(s.config), Total(s.store.heap, s.mutex.skipped) as real)
  {
    hide Recency, LocksMatch, HeldLive, Indexed, Accounted, Total;
    if s.mutex.rest == [] {
      assert s.store.lru == s.mutex.skipped;
      WordWraps(Total(s.store.heap, s.store.lru));
    }
  }

  lemma WordWraps(n: nat)
    ensures Wrap(n) <= n
  {
  }
}
