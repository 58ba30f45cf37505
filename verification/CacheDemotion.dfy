/** Demoting a lock to a read lock (src/common/mipmap_cache.c): a thread sets the flag of the
    entry it got, releases it, gets the key for reading again and clears the flag of what it
    was given. In between it holds no lock, and the flag alone keeps the entry from being
    freed. It does so as long as no other thread demotes an entry of that key. Nothing in the
    source keeps others from it, so from every such state some run frees the entry. */
module CacheDemotion {
  import opened CacheStore
  import opened CacheProtocol
  import opened CacheRuns

  /** The thread has set the flag of an entry of this key and not yet cleared one. */
  predicate Demotes(s: Sys, t: Tid, key: Key) {
    t in s.uses && !s.uses[t].Holding? && s.uses[t].key == key
  }

  /** In this step a thread other than `t` begins to demote an entry of this key. */
  predicate Opposes(s: Sys, a: Action, t: Tid, key: Key) {
    a.BeginDemote? && a.t != t && a.id in s.store.heap && s.store.heap[a.id].key == key
  }

  /** No thread other than `t` begins to demote an entry of this key. */
  ghost predicate Unopposed(s: Sys, acts: seq<Action>, t: Tid, key: Key)
    requires Inv(s) && Run(s, acts)
    decreases |acts|
  {
    acts == [] ||
    (!Opposes(s, acts[0], t, key) &&
     (StepKeepsInv(s, acts[0]); Unopposed(Next(s, acts[0]), acts[1..], t, key)))
  }

  /** The entry `t` demotes is live with its flag up, no other thread demotes one of that
      key, and a second get returned that entry. */
  ghost predicate Sole(s: Sys, t: Tid)
    requires t in s.uses && !s.uses[t].Holding?
  {
    var u := s.uses[t];
    && u.id in s.store.heap && s.store.heap[u.id].demoting
    && (forall t' :: Demotes(s, t', u.key) ==> t' == t)
    && (u.Again? ==> u.now == u.id)
  }

  /** No thread but `t` demotes an entry of the key, and if `t` does, its entry is safe. */
  ghost predicate KeySafe(s: Sys, t: Tid, key: Key) {
    && (forall t' :: Demotes(s, t', key) ==> t' == t)
    && (Demotes(s, t, key) ==> Sole(s, t))
  }

  /** While no other thread begins to demote the key, no step of any thread frees the entry
      `t` demotes, or lets its second get return another. */
  lemma StepKeepsKeySafe(s: Sys, a: Action, t: Tid, key: Key)
    requires Inv(s) && Enabled(s, a) && !Opposes(s, a, t, key) && KeySafe(s, t, key)
    ensures KeySafe(Next(s, a), t, key)
  {
    hide Recency, LocksMatch, UsesMatch, HeldLive, StoreInv, Without, Threshold, Held, ReadersOf, Opposes;
    if Demotes(s, t, key) {
      StepFreesOnlyIdle(s, a, s.uses[t].id);
    }
    match a
    case Visit =>
      ScanIsLive(s);
      StayKeepsKeySafe(s, Next(s, a), t, key);
    case Remove(_) => StayKeepsKeySafe(s, Next(s, a), t, key);
    case Release(t', i) =>
      UserHolds(s, t', i);
      StayKeepsKeySafe(s, Next(s, a), t, key);
    case BeginDemote(t', i) => BeginKeepsKeySafe(s, t', i, t, key);
    case EndDemote(t', i) => EndKeepsKeySafe(s, t', i, t, key);
    case Get(t', k, _, _) =>
      MappedToDemoted(s, t, key);
      TakeKeepsKeySafe(s, Next(s, a), t', k, t, key);
    case Finish(_) =>
      MappedToDemoted(s, t, key);
      FreshId(s.store);
      TakeKeepsKeySafe(s, Next(s, a), s.mutex.who, s.mutex.key, t, key);
    case TestGet(t', k, _) =>
      MappedToDemoted(s, t, key);
      TakeKeepsKeySafe(s, Next(s, a), t', k, t, key);
  }

  /** The key of a safe demotion is mapped to its entry. */
  lemma MappedToDemoted(s: Sys, t: Tid, key: Key)
    requires Inv(s) && KeySafe(s, t, key)
    ensures Demotes(s, t, key) ==> key in s.store.table && s.store.table[key] == s.uses[t].id
  {
    hide Recency, LocksMatch, UsesMatch, HeldLive, Accounted, Listed;
    if t in s.uses {
      assert Keyed(s.store, s.uses[t]);
    }
  }

  /** No demotion begins or ends, no flag moves. */
  lemma StayKeepsKeySafe(s: Sys, s': Sys, t: Tid, key: Key)
    requires KeySafe(s, t, key)
    requires forall x, k :: Demotes(s', x, k) <==> Demotes(s, x, k)
    requires Demotes(s, t, key) ==> s.uses[t].id in s'.store.heap && s'.store.heap[s.uses[t].id].demoting
    requires Demotes(s', t, key) ==> t in s.uses && s'.uses[t].id == s.uses[t].id
    requires t in s'.uses && s'.uses[t].Again? ==> t in s.uses && s'.uses[t] == s.uses[t]
    ensures KeySafe(s', t, key)
  {
  }

  lemma BeginKeepsKeySafe(s: Sys, t': Tid, id: Id, t: Tid, key: Key)
    requires Inv(s) && Enabled(s, BeginDemote(t', id)) && !Opposes(s, BeginDemote(t', id), t, key)
    requires KeySafe(s, t, key)
    ensures KeySafe(Next(s, BeginDemote(t', id)), t, key)
  {
    hide Recency, LocksMatch, UsesMatch, HeldLive, StoreInv, AllKeyed;
    UserHolds(s, t', id);
    BeginAddsOne(s, t', id);
  }

  lemma EndKeepsKeySafe(s: Sys, t': Tid, id: Id, t: Tid, key: Key)
    requires Inv(s) && Enabled(s, EndDemote(t', id)) && KeySafe(s, t, key)
    ensures KeySafe(Next(s, EndDemote(t', id)), t, key)
  {
    hide Recency, LocksMatch, UsesMatch, HeldLive, StoreInv;
    UserHolds(s, t', id);
    assert Keyed(s.store, s.uses[t']);
    if Demotes(s, t, key) {
      assert Keyed(s.store, s.uses[t]);
      assert s.uses[t].id == id ==> Demotes(s, t', key);
    }
    var s' := Next(s, EndDemote(t', id));
    assert forall x, k :: Demotes(s', x, k) ==> Demotes(s, x, k);
  }

  /** Only the thread that gets an entry moves, and if it demotes, it stays at that key. */
  lemma TakeKeepsKeySafe(s: Sys, s': Sys, t': Tid, k: Key, t: Tid, key: Key)
    requires KeySafe(s, t, key)
    requires t' in s.uses ==> s.uses[t'].Waiting? && s.uses[t'].key == k
    requires s'.uses == s.uses || exists i, may :: s'.uses == s.uses[t' := Took(s.uses, t', i, may)]
    requires Demotes(s, t, key) ==> s.uses[t].id in s'.store.heap && s'.store.heap[s.uses[t].id].demoting
    requires t' == t && Demotes(s, t, key) && s'.uses != s.uses ==>
               s'.uses[t] == Again(key, s.uses[t].id, s.uses[t].id)
    ensures KeySafe(s', t, key)
  {
    assert forall x, k :: Demotes(s', x, k) ==> Demotes(s, x, k);
  }

  lemma BeginAddsOne(s: Sys, t: Tid, id: Id)
    requires Inv(s) && Enabled(s, BeginDemote(t, id)) && id in s.store.heap
    ensures var s' := Next(s, BeginDemote(t, id));
            forall t', key :: Demotes(s', t', key) <==> Demotes(s, t', key) || (t' == t && key == s.store.heap[id].key)
  {
    hide StoreInv, Recency, LocksMatch, UsesMatch, HeldLive, AllKeyed;
    UserHolds(s, t, id);
  }

  lemma {:induction false} RunKeepsKeySafe(s: Sys, acts: seq<Action>, t: Tid, key: Key)
    requires Inv(s) && Run(s, acts) && Unopposed(s, acts, t, key) && KeySafe(s, t, key)
    ensures KeySafe(After(s, acts), t, key)
    decreases |acts|
  {
    hide Inv, Enabled, Next, Opposes, KeySafe;
    if acts != [] {
      StepKeepsInv(s, acts[0]);
      StepKeepsKeySafe(s, acts[0], t, key);
      RunKeepsKeySafe(Next(s, acts[0]), acts[1..], t, key);
    }
  }

  /** A thread sets the flag while no other demotes the key. In every run from there in which
      no other thread begins to demote it, for as long as the thread demotes it: the entry is
      live, its flag up and mapped under the key; the second get can only return that entry or
      find it write-locked, and has returned it once it is done. */
  lemma RegetReturnsSameEntry(s: Sys, t: Tid, id: Id, acts: seq<Action>, cost: nat)
    requires Inv(s) && Enabled(s, BeginDemote(t, id)) && id in s.store.heap && Chargeable(s.config, cost)
    requires forall t' :: !Demotes(s, t', s.store.heap[id].key)
    requires (StepKeepsInv(s, BeginDemote(t, id)); Run(Next(s, BeginDemote(t, id)), acts))
    requires (StepKeepsInv(s, BeginDemote(t, id)); var s1 := Next(s, BeginDemote(t, id));
              Unopposed(s1, acts, t, s.store.heap[id].key) && Demotes(After(s1, acts), t, s.store.heap[id].key))
    ensures (StepKeepsInv(s, BeginDemote(t, id)); RunKeepsInv(Next(s, BeginDemote(t, id)), acts);
             SameEntry(After(Next(s, BeginDemote(t, id)), acts), t, cost))
  {
    hide Run, After, Unopposed, SameEntry, Sole, Enabled, Next;
    var key, a := s.store.heap[id].key, BeginDemote(t, id);
    assert KeySafe(s, t, key);
    BeginKeepsKeySafe(s, t, id, t, key);
    StepKeepsInv(s, a);
    var s1 := Next(s, a);
    RunKeepsInv(s1, acts);
    RunKeepsConfig(s1, acts);
    BeginKeepsConfig(s, t, id);
    RunKeepsKeySafe(s1, acts, t, key);
    SafeMeansSame(After(s1, acts), t, key, cost);
  }

  /** What a second get finds. */
  ghost predicate SameEntry(s: Sys, t: Tid, cost: nat)
    requires Inv(s)
  {
    && t in s.uses && !s.uses[t].Holding?
    && var u := s.uses[t];
       && u.id in s.store.heap && s.store.heap[u.id].demoting
       && u.key in s.store.table && s.store.table[u.key] == u.id
       && (u.Again? ==> u.now == u.id)
       && (u.Waiting? && s.mutex.Free? ==>
             var a := Get(t, u.key, Read, cost);
             Enabled(s, a) && Next(s, a) == if s.store.heap[u.id].writing then s
                                            else Grant(s, Acquire(s.store, u.id, Read), t, u.id, Read, true))
  }

  lemma SafeMeansSame(s: Sys, t: Tid, key: Key, cost: nat)
    requires Inv(s) && KeySafe(s, t, key) && Demotes(s, t, key) && Chargeable(s.config, cost)
    ensures SameEntry(s, t, cost)
  {
    hide Recency, LocksMatch, UsesMatch, HeldLive, StoreInv, AllKeyed, Chargeable;
    MappedToDemoted(s, t, key);
  }

  lemma BeginKeepsConfig(s: Sys, t: Tid, id: Id)
    requires Inv(s) && Enabled(s, BeginDemote(t, id))
    ensures Next(s, BeginDemote(t, id)).config == s.config
  {
    UserHolds(s, t, id);
  }

  lemma {:induction false} RunKeepsConfig(s: Sys, acts: seq<Action>)
    requires Inv(s) && Run(s, acts)
    ensures After(s, acts).config == s.config
    decreases |acts|
  {
    hide Inv, Enabled;
    if acts != [] {
      StepKeepsInv(s, acts[0]);
      RunKeepsConfig(Next(s, acts[0]), acts[1..]);
    }
  }

  // ----- exactly when an entry can be lost -----

  /** The thread has begun its demotion and not yet got the key again. */
  predicate Exposed(s: Sys, t: Tid) {
    t in s.uses && (s.uses[t].Flagged? || s.uses[t].Waiting?)
  }

  /** `t` is about to get `key` again, and the entry it released is gone. */
  predicate Lost(s: Sys, t: Tid, key: Key, id: Id) {
    t in s.uses && s.uses[t] == Waiting(key, id) && id !in s.store.heap
  }

  /** Some run in which no other thread begins to demote the key frees the entry while `t` has
      yet to get it again. */
  ghost predicate LosableAlone(s: Sys, t: Tid)
    requires Inv(s) && Exposed(s, t)
  {
    exists acts :: LosesAlone(s, acts, t)
  }

  ghost predicate LosesAlone(s: Sys, acts: seq<Action>, t: Tid)
    requires Inv(s) && Exposed(s, t)
  {
    && Run(s, acts) && Unopposed(s, acts, t, s.uses[t].key)
    && Lost(After(s, acts), t, s.uses[t].key, s.uses[t].id)
  }

  /** No step begins a demotion. */
  predicate Quiet(acts: seq<Action>) {
    forall i :: 0 <= i < |acts| ==> !acts[i].BeginDemote?
  }

  /** `s'` is reached from `s` without any demotion beginning. */
  ghost predicate Leads(s: Sys, s': Sys)
    requires Inv(s)
  {
    exists acts :: EndsAt(s, acts, s')
  }

  ghost predicate EndsAt(s: Sys, acts: seq<Action>, s': Sys)
    requires Inv(s)
  {
    Run(s, acts) && Quiet(acts) && After(s, acts) == s'
  }

  lemma {:induction false} QuietUnopposed(s: Sys, acts: seq<Action>, t: Tid, key: Key)
    requires Inv(s) && Run(s, acts) && Quiet(acts)
    ensures Unopposed(s, acts, t, key)
    decreases |acts|
  {
    hide Inv, Enabled, Next;
    if acts != [] {
      StepKeepsInv(s, acts[0]);
      QuietUnopposed(Next(s, acts[0]), acts[1..], t, key);
    }
  }

  lemma LeadsSelf(s: Sys)
    requires Inv(s)
    ensures Leads(s, s)
  {
    hide Inv;
    assert EndsAt(s, [], s);
  }

  lemma LeadsInv(s: Sys, s': Sys)
    requires Inv(s) && Leads(s, s')
    ensures Inv(s')
  {
    hide Inv;
    var acts :| EndsAt(s, acts, s');
    RunKeepsInv(s, acts);
  }

  lemma LeadsStep(s: Sys, a: Action)
    requires Inv(s) && Enabled(s, a) && !a.BeginDemote?
    ensures Leads(s, Next(s, a))
  {
    hide Inv, Enabled, Next;
    RunOne(s, a);
    assert EndsAt(s, [a], Next(s, a));
  }

  lemma LeadsTrans(s: Sys, s1: Sys, s2: Sys)
    requires Inv(s) && Leads(s, s1)
    requires (LeadsInv(s, s1); Leads(s1, s2))
    ensures Leads(s, s2)
  {
    hide Inv, Run, After;
    LeadsInv(s, s1);
    var a :| EndsAt(s, a, s1);
    var b :| EndsAt(s1, b, s2);
    RunAppend(s, a, b);
    assert EndsAt(s, a + b, s2);
  }

  /** A first step, then more. */
  lemma LeadsBy(s: Sys, a: Action, s': Sys)
    requires Inv(s) && Enabled(s, a) && !a.BeginDemote?
    requires (StepKeepsInv(s, a); Leads(Next(s, a), s'))
    ensures Leads(s, s')
  {
    hide Inv, Enabled, Next, Leads;
    StepKeepsInv(s, a);
    LeadsStep(s, a);
    LeadsTrans(s, Next(s, a), s');
  }

  lemma RunOne(s: Sys, a: Action)
    requires Inv(s) && Enabled(s, a)
    ensures Run(s, [a]) && After(s, [a]) == Next(s, a) && Inv(Next(s, a))
  {
    hide Inv, Enabled, Next;
    StepKeepsInv(s, a);
    assert [a][1..] == [];
    assert Run(Next(s, a), []) && After(Next(s, a), []) == Next(s, a);
  }

  /** A collection in progress can run to its end; only the thread that collects moves. */
  lemma {:induction false} CollectionEnds(s: Sys) returns (s': Sys)
    requires Inv(s)
    ensures Leads(s, s') && Inv(s') && s'.mutex.Free?
    ensures forall u :: u in s.uses && (s.mutex.Collecting? ==> u != s.mutex.who) ==>
              u in s'.uses && s'.uses[u] == s.uses[u]
    ensures forall id :: id < s.store.nextId && id in s'.store.heap ==>
              id in s.store.heap && s'.store.heap[id].demoting == s.store.heap[id].demoting
    decreases if s.mutex.Collecting? then 1 + |s.mutex.rest| else 0
  {
    hide StoreInv, Recency, LocksMatch, HeldLive, Without, Held, ReadersOf, Leads, Threshold, Done, UsesMatch, AllKeyed;
    if s.mutex.Free? {
      s' := s;
      LeadsSelf(s);
    } else if Done(s) {
      s' := Next(s, Finish(1));
      StepKeepsInv(s, Finish(1));
      LeadsStep(s, Finish(1));
      FreshId(s.store);
    } else {
      StepKeepsInv(s, Visit);
      ScanWillVisit(s);
      ScanIsLive(s);
      s' := CollectionEnds(Next(s, Visit));
      LeadsBy(s, Visit, s');
    }
  }

  lemma ScanWillVisit(s: Sys)
    requires s.mutex.Collecting? && !Done(s)
    ensures s.mutex.rest != []
  {
  }

  /** What a continuation that only releases `id` leaves: demotions that had not got their
      key again are where they were, or have just released `id`; the flag is not raised, and
      while it stays up all demotions go on. */
  ghost predicate OnlyReleases(s: Sys, s': Sys, id: Id) {
    && s.mutex.Free? && s'.mutex.Free? && id in s.store.heap && id in s'.store.heap
    && s'.store.heap[id].key == s.store.heap[id].key
    && (forall t :: Exposed(s, t) ==>
          Exposed(s', t) && s'.uses[t].key == s.uses[t].key && s'.uses[t].id == s.uses[t].id)
    && (s'.store.heap[id].demoting ==>
          s.store.heap[id].demoting && forall t, key :: Demotes(s, t, key) ==> Demotes(s', t, key))
  }

  /** How many locks there are on an entry. */
  function LockCount(e: Entry): nat {
    e.readers + if e.writing then 1 else 0
  }

  lemma HolderReleases(s: Sys, id: Id, t: Tid) returns (s': Sys)
    requires Inv(s) && s.mutex.Free? && id in s.store.heap && Enabled(s, Release(t, id))
    ensures Leads(s, s') && Inv(s') && OnlyReleases(s, s', id)
    ensures LockCount(s'.store.heap[id]) == LockCount(s.store.heap[id]) - 1
  {
    hide StoreInv, Recency, HeldLive, LocksMatch, UsesMatch, Leads, AllKeyed;
    CountsAt(s.store.heap, s.locks, id);
    UserHolds(s, t, id);
    StepKeepsInv(s, Release(t, id));
    s' := Next(s, Release(t, id));
    LeadsStep(s, Release(t, id));
  }

  lemma HolderEnds(s: Sys, id: Id, t: Tid) returns (s': Sys)
    requires Inv(s) && s.mutex.Free? && id in s.store.heap && Enabled(s, EndDemote(t, id))
    ensures s' == Next(s, EndDemote(t, id)) && Inv(s') && OnlyReleases(s, s', id)
    ensures LockCount(s'.store.heap[id]) == LockCount(s.store.heap[id]) && Enabled(s', Release(t, id))
  {
    hide StoreInv, Recency, HeldLive, LocksMatch, UsesMatch, AllKeyed;
    UserHolds(s, t, id);
    StepKeepsInv(s, EndDemote(t, id));
    s' := Next(s, EndDemote(t, id));
  }

  /** A holder of an entry can give it up, if need be by first ending its demotion. */
  lemma HolderLeaves(s: Sys, id: Id, t: Tid) returns (s': Sys)
    requires Inv(s) && s.mutex.Free? && id in s.store.heap && Holds(s.locks, t, id)
    ensures Leads(s, s') && Inv(s') && OnlyReleases(s, s', id)
    ensures LockCount(s'.store.heap[id]) == LockCount(s.store.heap[id]) - 1
  {
    HolderUses(s, t, id);
    hide Inv, Next, Leads, LockCount;
    if s.uses[t].Again? {
      var s1 := HolderEnds(s, id, t);
      s' := HolderReleases(s1, id, t);
      LeadsBy(s, EndDemote(t, id), s');
      OnlyReleasesTrans(s, s1, s', id);
    } else {
      s' := HolderReleases(s, id, t);
    }
  }

  lemma HolderUses(s: Sys, t: Tid, id: Id)
    requires Inv(s) && Holds(s.locks, t, id)
    ensures t in s.uses && UseHolds(s.uses[t], id)
  {
  }

  /** The holders of an entry can all give it up. */
  lemma {:induction false} HoldersLeave(s: Sys, id: Id) returns (s': Sys)
    requires Inv(s) && s.mutex.Free? && id in s.store.heap
    ensures Leads(s, s') && Inv(s') && OnlyReleases(s, s', id) && !Held(s'.locks, id)
    decreases LockCount(s.store.heap[id])
  {
    hide Inv, Leads, OnlyReleases, Exposed, Demotes;
    if !Held(s.locks, id) {
      s' := s;
      LeadsSelf(s);
      OnlyReleasesRefl(s, id);
    } else {
      var t := SomeHolder(s.locks, id);
      HoldIsLocked(s, t, id);
      var s1 := HolderLeaves(s, id, t);
      OnlyReleasesLive(s, s1, id);
      s' := HoldersLeave(s1, id);
      LeadsTrans(s, s1, s');
      OnlyReleasesTrans(s, s1, s', id);
    }
  }

  lemma OnlyReleasesRefl(s: Sys, id: Id)
    requires s.mutex.Free? && id in s.store.heap
    ensures OnlyReleases(s, s, id)
  {
  }

  lemma OnlyReleasesLive(s: Sys, s': Sys, id: Id)
    requires OnlyReleases(s, s', id)
    ensures s'.mutex.Free? && id in s'.store.heap
  {
  }

  lemma OnlyReleasesTrans(s: Sys, s1: Sys, s2: Sys, id: Id)
    requires OnlyReleases(s, s1, id) && OnlyReleases(s1, s2, id)
    ensures OnlyReleases(s, s2, id)
  {
  }

  lemma SomeHolder(l: Locks, id: Id) returns (t: Tid)
    requires Held(l, id)
    ensures Holds(l, t, id)
  {
    if id in l.writers {
      t := l.writers[id];
    } else {
      t :| t in ReadersOf(l, id);
    }
  }

  /** With the flag down and nobody holding the entry, a remove frees it. */
  lemma RemoveFrees(s: Sys, id: Id) returns (s': Sys)
    requires Inv(s) && s.mutex.Free? && id in s.store.heap
    requires !Held(s.locks, id) && !s.store.heap[id].demoting
    ensures Leads(s, s') && Inv(s') && s'.uses == s.uses && id !in s'.store.heap
  {
    hide Recency, HeldLive, Leads, LocksMatch, Accounted, UsesMatch, AllKeyed;
    EvictableIff(s, id);
    var a := Remove(s.store.heap[id].key);
    s' := Next(s, a);
    StepKeepsInv(s, a);
    LeadsStep(s, a);
  }

  /** Another thread that demotes the key can get it again and end, which takes the flag down. */
  lemma OtherDemotionEnds(s: Sys, t: Tid, id: Id) returns (s': Sys)
    requires Inv(s) && s.mutex.Free? && id in s.store.heap && !Held(s.locks, id)
    requires t in s.uses && s.uses[t].Waiting? && s.uses[t].key == s.store.heap[id].key
    ensures Leads(s, s') && Inv(s') && s'.mutex.Free? && id in s'.store.heap && !s'.store.heap[id].demoting
    ensures s'.store.heap[id].key == s.store.heap[id].key
    ensures forall u :: u in s.uses && u != t ==> u in s'.uses && s'.uses[u] == s.uses[u]
  {
    hide Inv, Leads, Next, Enabled;
    var a, s1 := GetsAgain(s, t, id);
    var b;
    b, s' := EndTakesFlagDown(s1, t, id);
    LeadsStep(s1, b);
    LeadsBy(s, a, s');
  }

  lemma GetsAgain(s: Sys, t: Tid, id: Id) returns (a: Action, s': Sys)
    requires Inv(s) && s.mutex.Free? && id in s.store.heap && !Held(s.locks, id)
    requires t in s.uses && s.uses[t].Waiting? && s.uses[t].key == s.store.heap[id].key
    ensures Enabled(s, a) && a.Get? && s' == Next(s, a) && Inv(s') && s'.mutex.Free?
    ensures s'.uses == s.uses[t := Again(s.uses[t].key, s.uses[t].id, id)]
    ensures id in s'.store.heap && s'.store.heap[id].key == s.store.heap[id].key
  {
    hide Recency, HeldLive, Accounted, Without, LocksMatch, UsesMatch, AllKeyed;
    CountsAt(s.store.heap, s.locks, id);
    a := Get(t, s.store.heap[id].key, Read, 1);
    StepKeepsInv(s, a);
    s' := Next(s, a);
  }

  lemma EndTakesFlagDown(s: Sys, t: Tid, id: Id) returns (b: Action, s': Sys)
    requires Inv(s) && s.mutex.Free? && t in s.uses && s.uses[t].Again? && s.uses[t].now == id
    ensures Enabled(s, b) && b.EndDemote? && s' == Next(s, b) && Inv(s') && s'.mutex.Free?
    ensures s'.uses == s.uses[t := Holding(id, false)]
    ensures id in s.store.heap && id in s'.store.heap && !s'.store.heap[id].demoting
    ensures s'.store.heap[id].key == s.store.heap[id].key
  {
    hide Recency, HeldLive, StoreInv, LocksMatch, UsesMatch, AllKeyed;
    b := EndDemote(t, id);
    UserHolds(s, t, id);
    StepKeepsInv(s, b);
    s' := Next(s, b);
  }

  /** A thread that demotes the key of an entry nobody holds is about to get it again. */
  lemma UnheldMeansWaiting(s: Sys, t: Tid, id: Id)
    requires Inv(s) && id in s.store.heap && !Held(s.locks, id) && Demotes(s, t, s.store.heap[id].key)
    ensures s.uses[t].Waiting?
  {
    hide Recency, Accounted, Listed, LocksMatch, UsesMatch, HeldLive, Total;
    var u := s.uses[t];
    assert Keyed(s.store, u);
    if u.Flagged? || u.Again? {
      var i := if u.Flagged? then u.id else u.now;
      UserHolds(s, t, i);
      assert i == id;
      HolderHeld(s.locks, t, id);
    }
  }

  lemma HolderHeld(l: Locks, t: Tid, id: Id)
    requires Holds(l, t, id)
    ensures Held(l, id)
  {
    if t in ReadersOf(l, id) {
      assert |ReadersOf(l, id)| > 0;
    }
  }

  /** With the flag down, or another thread demoting the key, the entry can be freed. */
  lemma LoseFromFree(s: Sys, t: Tid) returns (s': Sys)
    requires Inv(s) && s.mutex.Free? && Exposed(s, t) && s.uses[t].id in s.store.heap && !Sole(s, t)
    ensures Leads(s, s') && Lost(s', t, s.uses[t].key, s.uses[t].id)
  {
    hide Inv, Leads, Held, Holds;
    var key, id := s.uses[t].key, s.uses[t].id;
    KeyOfDemotion(s, t);
    var s1 := HoldersLeave(s, id);
    UnheldMeansWaiting(s1, t, id);
    if !s1.store.heap[id].demoting {
      s' := RemoveFrees(s1, id);
      LeadsTrans(s, s1, s');
    } else {
      var t' :| Demotes(s, t', key) && t' != t;
      UnheldMeansWaiting(s1, t', id);
      var s2 := OtherDemotionEnds(s1, t', id);
      var s3 := HoldersLeave(s2, id);
      s' := RemoveFrees(s3, id);
      UnheldMeansWaiting(s3, t, id);
      LeadsTrans(s2, s3, s');
      LeadsTrans(s1, s2, s');
      LeadsTrans(s, s1, s');
    }
  }

  lemma KeyOfDemotion(s: Sys, t: Tid)
    requires Inv(s) && t in s.uses && !s.uses[t].Holding?
    ensures s.uses[t].id in s.store.heap ==> s.store.heap[s.uses[t].id].key == s.uses[t].key
    ensures s.uses[t].Flagged? ==> s.uses[t].id in s.store.heap
    ensures s.uses[t].id < s.store.nextId
  {
    assert Keyed(s.store, s.uses[t]);
    if s.uses[t].Flagged? {
      UserHolds(s, t, s.uses[t].id);
    }
  }

  lemma LeadsToLoss(s: Sys, s': Sys, t: Tid)
    requires Inv(s) && Exposed(s, t) && Leads(s, s') && Lost(s', t, s.uses[t].key, s.uses[t].id)
    ensures LosableAlone(s, t)
  {
    hide Inv, Lost, Run, After, Unopposed;
    var acts :| EndsAt(s, acts, s');
    QuietUnopposed(s, acts, t, s.uses[t].key);
    assert LosesAlone(s, acts, t);
  }

  /** As long as no other thread begins to demote the key, a thread can lose the entry it
      demotes if and only if the entry is gone already, its flag is down, or another thread
      was demoting an entry of the key before. */
  lemma LosableAloneIff(s: Sys, t: Tid)
    requires Inv(s) && Exposed(s, t)
    ensures LosableAlone(s, t) <==> !Sole(s, t)
  {
    hide Inv, Leads, LosableAlone;
    if Sole(s, t) {
      SoleNotLosable(s, t);
    } else {
      var s' := LoseWhenNotSole(s, t);
      LeadsToLoss(s, s', t);
    }
  }

  lemma LoseWhenNotSole(s: Sys, t: Tid) returns (s': Sys)
    requires Inv(s) && Exposed(s, t) && !Sole(s, t)
    ensures Leads(s, s') && Lost(s', t, s.uses[t].key, s.uses[t].id)
  {
    hide Inv, Leads;
    var id := s.uses[t].id;
    KeyOfDemotion(s, t);
    if id !in s.store.heap {
      s' := s;
      LeadsSelf(s);
      return;
    }
    s' := CollectionEnds(s);
    if s.mutex.Collecting? {
      CollectorElsewhere(s, t);
    }
    if id !in s'.store.heap {
      KeyOfDemotion(s', t);
    } else {
      var s1 := s';
      SoleAfterCollection(s, s1, t);
      s' := LoseFromFree(s1, t);
      LeadsTrans(s, s1, s');
    }
  }

  lemma SoleNotLosable(s: Sys, t: Tid)
    requires Inv(s) && Exposed(s, t) && Sole(s, t)
    ensures !LosableAlone(s, t)
  {
    hide Inv, Run, After, Unopposed;
    if LosableAlone(s, t) {
      var acts :| LosesAlone(s, acts, t);
      RunKeepsKeySafe(s, acts, t, s.uses[t].key);
    }
  }

  lemma SoleAfterCollection(s: Sys, s1: Sys, t: Tid)
    requires Exposed(s, t) && !Sole(s, t) && s.uses[t].id in s.store.heap && s.uses[t].id in s1.store.heap
    requires s1.store.heap[s.uses[t].id].demoting == s.store.heap[s.uses[t].id].demoting
    requires s.mutex.Collecting? ==> !Demotes(s, s.mutex.who, s.uses[t].key)
    requires forall u :: u in s.uses && (s.mutex.Collecting? ==> u != s.mutex.who) ==>
              u in s1.uses && s1.uses[u] == s.uses[u]
    ensures Exposed(s1, t) && s1.uses[t] == s.uses[t] && !Sole(s1, t)
  {
    if t' :| Demotes(s, t', s.uses[t].key) && t' != t {
      assert Demotes(s1, t', s.uses[t].key);
    }
  }

  /** The thread that collects demotes no key of a live entry. */
  lemma CollectorElsewhere(s: Sys, t: Tid)
    requires Inv(s) && Exposed(s, t) && s.uses[t].id in s.store.heap && s.mutex.Collecting?
    ensures !Demotes(s, s.mutex.who, s.uses[t].key)
  {
    hide Recency, Accounted, Listed, LocksMatch, UsesMatch, HeldLive, Total;
    assert Keyed(s.store, s.uses[t]);
  }

  // ----- without that restriction an entry can always be lost -----

  /** From every state in which a thread has yet to get the key again, some run frees its
      entry: if it alone demotes the key, another thread gets the entry for reading, begins to
      demote it too, and takes the flag down when it is done. */
  lemma AlwaysLosable(s: Sys, t: Tid) returns (acts: seq<Action>)
    requires Inv(s) && Exposed(s, t)
    ensures Run(s, acts) && Lost(After(s, acts), t, s.uses[t].key, s.uses[t].id)
  {
    hide Inv, Leads, Run, After, Lost;
    if !Sole(s, t) {
      acts := LosingRun(s, t);
    } else {
      var first, s1 := AllLeave(s, t);
      if !Sole(s1, t) {
        var more := LosingRun(s1, t);
        acts := first + more;
        RunAppend(s, first, more);
      } else {
        var second, s2 := AnotherBegins(s1, t);
        var more := LosingRun(s2, t);
        RunAppend(s1, second, more);
        acts := first + (second + more);
        RunAppend(s, first, second + more);
      }
    }
  }

  lemma LosingRun(s: Sys, t: Tid) returns (acts: seq<Action>)
    requires Inv(s) && Exposed(s, t) && !Sole(s, t)
    ensures Run(s, acts) && Lost(After(s, acts), t, s.uses[t].key, s.uses[t].id)
  {
    hide Inv, Run, After, Lost, Sole;
    var s' := LoseWhenNotSole(s, t);
    acts :| EndsAt(s, acts, s');
  }

  /** A collection can end and all holders of the entry can leave it. */
  lemma AllLeave(s: Sys, t: Tid) returns (acts: seq<Action>, s': Sys)
    requires Inv(s) && Exposed(s, t) && Sole(s, t)
    ensures Run(s, acts) && After(s, acts) == s' && Inv(s') && s'.mutex.Free? && Exposed(s', t)
    ensures s'.uses[t].key == s.uses[t].key && s'.uses[t].id == s.uses[t].id
    ensures s.uses[t].id in s'.store.heap ==> !Held(s'.locks, s.uses[t].id)
  {
    hide Inv, Leads, Run, After, Held;
    KeyOfDemotion(s, t);
    if s.mutex.Collecting? {
      CollectorElsewhere(s, t);
    }
    var s1 := CollectionEnds(s);
    s' := s1;
    if s.uses[t].id in s1.store.heap {
      s' := HoldersLeave(s1, s.uses[t].id);
      LeadsTrans(s, s1, s');
    }
    assert Leads(s, s');
    acts := LeadingRun(s, s');
  }

  lemma LeadingRun(s: Sys, s': Sys) returns (acts: seq<Action>)
    requires Inv(s) && Leads(s, s')
    ensures Run(s, acts) && After(s, acts) == s'
  {
    hide Inv, Run, After;
    acts :| EndsAt(s, acts, s');
  }

  /** An idle thread gets the entry for reading and begins to demote it. */
  lemma AnotherBegins(s: Sys, t: Tid) returns (acts: seq<Action>, s': Sys)
    requires Inv(s) && s.mutex.Free? && Exposed(s, t) && Sole(s, t) && !Held(s.locks, s.uses[t].id)
    ensures Run(s, acts) && After(s, acts) == s' && Inv(s') && Exposed(s', t) && s'.uses[t] == s.uses[t] && !Sole(s', t)
  {
    var id := s.uses[t].id;
    var t' := IdleThread(s.uses.Keys);
    KeyOfDemotion(s, t);
    hide Inv, Run, After, Next, Enabled, Held;
    var a, s1 := ReadsAnew(s, t', id);
    var b := BeginDemote(t', id);
    s' := BeginsAnew(s1, t', id);
    RunOne(s, a);
    RunOne(s1, b);
    acts := [a] + [b];
    RunAppend(s, [a], [b]);
    SoleCounts(s', t', t);
  }

  /** There is always a thread beyond all that use the cache. */
  lemma {:induction false} IdleThread(busy: set<Tid>) returns (t: Tid)
    ensures forall b :: b in busy ==> b < t
  {
    if busy == {} {
      t := 0;
    } else {
      var x :| x in busy;
      var b := IdleThread(busy - {x});
      t := if x < b then b else x + 1;
      assert forall y :: y in busy ==> y == x || y in busy - {x};
    }
  }

  lemma ReadsAnew(s: Sys, t: Tid, id: Id) returns (a: Action, s': Sys)
    requires Inv(s) && s.mutex.Free? && t !in s.uses && id in s.store.heap && !Held(s.locks, id)
    ensures Enabled(s, a) && s' == Next(s, a) && Inv(s') && s'.uses == s.uses[t := Holding(id, true)]
    ensures id in s'.store.heap && s'.store.heap[id].key == s.store.heap[id].key
  {
    hide Recency, HeldLive, Accounted, Without, LocksMatch, UsesMatch, AllKeyed;
    CountsAt(s.store.heap, s.locks, id);
    a := Get(t, s.store.heap[id].key, Read, 1);
    StepKeepsInv(s, a);
    s' := Next(s, a);
  }

  lemma BeginsAnew(s: Sys, t: Tid, id: Id) returns (s': Sys)
    requires Inv(s) && t in s.uses && s.uses[t] == Holding(id, true) && id in s.store.heap
    ensures Enabled(s, BeginDemote(t, id)) && s' == Next(s, BeginDemote(t, id)) && Inv(s')
    ensures s'.uses == s.uses[t := Flagged(s.store.heap[id].key, id)]
  {
    hide StoreInv, Recency, HeldLive, LocksMatch, UsesMatch, AllKeyed;
    UserHolds(s, t, id);
    StepKeepsInv(s, BeginDemote(t, id));
    s' := Next(s, BeginDemote(t, id));
  }

  // ----- a run that loses an entry -----

  /** Two threads get the same image for reading and demote it at the same time. When the
      first is done the flag is down, and the entry is freed before the second gets its key
      again. */
  lemma LossReachable(quota: nat, key: Key) returns (acts: seq<Action>)
    ensures (StartInv(Config(quota, true)); Run(Start(Config(quota, true)), acts))
    ensures Lost(After(Start(Config(quota, true)), acts), 1, key, 0)
  {
    hide Inv, Enabled, Next, Run, After, Lost;
    var s0 := Start(Config(quota, true));
    StartInv(s0.config);
    var overlap, s, _, _ := OverlapReachable(quota, key);
    SoleCounts(s, 0, 1);
    var more := LosingRun(s, 1);
    acts := overlap + more;
    RunAppend(s0, overlap, more);
  }

  lemma SoleCounts(s: Sys, t: Tid, t': Tid)
    requires t != t' && t' in s.uses && !s.uses[t'].Holding? && Demotes(s, t, s.uses[t'].key)
    ensures !Sole(s, t')
  {
  }

  /** Thread 0 gets a new entry for reading and is given the write lock, thread 1 gets it for
      reading and is given a read lock; each sets the flag and releases the entry. */
  lemma OverlapReachable(quota: nat, key: Key) returns (acts: seq<Action>, s: Sys, wrote: Sys, read: Sys)
    ensures (StartInv(Config(quota, true)); Run(Start(Config(quota, true)), acts))
    ensures (StartInv(Config(quota, true)); s == After(Start(Config(quota, true)), acts))
    ensures Inv(s) && s.uses == map[0 := Waiting(key, 0), 1 := Waiting(key, 0)] && 0 in s.store.heap
    ensures acts == [Get(0, key, Read, 1), BeginDemote(0, 0), Release(0, 0),
                     Get(1, key, Read, 1), BeginDemote(1, 0), Release(1, 0)]
    ensures (StartInv(Config(quota, true)); Run(Start(Config(quota, true)), acts[..1]) &&
             wrote == After(Start(Config(quota, true)), acts[..1]))
    ensures wrote.locks.writers == map[0 := 0] && ReadersOf(wrote.locks, 0) == {}
    ensures (StartInv(Config(quota, true)); Run(Start(Config(quota, true)), acts[..4]) &&
             read == After(Start(Config(quota, true)), acts[..4]))
    ensures read.locks.writers == map[] && ReadersOf(read.locks, 0) == {1}
  {
    hide Inv, Enabled, Next, Run, After;
    var s0 := Start(Config(quota, true));
    StartInv(s0.config);
    var first, s1;
    first, s1, wrote := DemotionBegins(s0, 0, key);
    var second;
    second, s, read := DemotionBegins(s1, 1, key);
    acts := first + second;
    RunAppend(s0, first, second);
    RunAppend(s0, first, [second[0]]);
    assert acts[..1] == [first[0]] && acts[..4] == first + [second[0]];
  }

  /** A get for reading, then the flag, then the release. */
  lemma DemotionBegins(s: Sys, t: Tid, key: Key) returns (acts: seq<Action>, s': Sys, took: Sys)
    requires Inv(s) && s.mutex.Free? && s.config.allocates && t !in s.uses
    requires if key in s.store.table then s.store.table[key] == 0 && !Held(s.locks, 0)
             else s.store.nextId == 0 && s.store.cost == 0
    ensures Run(s, acts) && s' == After(s, acts) && Inv(s') && s'.mutex.Free? && s'.config == s.config
    ensures s'.uses == s.uses[t := Waiting(key, 0)] && !Held(s'.locks, 0)
    ensures key in s'.store.table && s'.store.table[key] == 0 && 0 in s'.store.heap
    ensures acts == [Get(t, key, Read, 1), BeginDemote(t, 0), Release(t, 0)]
    ensures Run(s, [acts[0]]) && took == After(s, [acts[0]]) && TookEntry(s, took, t, key)
    ensures s'.locks.writers == s.locks.writers - {0}
  {
    hide Inv, Enabled, Next, TookEntry, Run, After;
    var a, s1 := TakesForReading(s, t, key);
    took := s1;
    TookWriters(s, s1, t, key);
    var b, s2 := Begins(s1, t, key);
    var c;
    c, s' := Releases(s2, t, key);
    acts := [a, b, c];
    assert acts == [a] + ([b] + [c]);
    RunOne(s2, c);
    RunOne(s1, b);
    RunOne(s, a);
    RunAppend(s1, [b], [c]);
    RunAppend(s, [a], [b] + [c]);
  }

  /** Entry 0 is the only holder's. */
  ghost predicate OnlyHolder(s: Sys, t: Tid, key: Key) {
    && s.mutex.Free? && key in s.store.table && s.store.table[key] == 0 && 0 in s.store.heap
    && s.store.heap[0].key == key && Holds(s.locks, t, 0)
    && LockCount(s.store.heap[0]) == 1
  }

  /** A new entry is given for writing, one that was there for reading. */
  ghost predicate TookEntry(s: Sys, s': Sys, t: Tid, key: Key) {
    if key in s.store.table then ReadersOf(s'.locks, 0) == {t} && s'.locks.writers == s.locks.writers
    else ReadersOf(s'.locks, 0) == {} && s'.locks.writers == s.locks.writers[0 := t]
  }

  lemma TookWriters(s: Sys, s': Sys, t: Tid, key: Key)
    requires TookEntry(s, s', t, key)
    ensures s'.locks.writers - {0} == s.locks.writers - {0}
  {
    assert s.locks.writers[0 := t] - {0} == s.locks.writers - {0};
  }

  lemma TakesAsGiven(s: Sys, t: Tid, key: Key)
    requires Inv(s) && s.config.allocates && Enabled(s, Get(t, key, Read, 1))
    requires if key in s.store.table then s.store.table[key] == 0 && !Held(s.locks, 0)
             else s.store.nextId == 0 && s.store.cost == 0
    ensures TookEntry(s, Next(s, Get(t, key, Read, 1)), t, key)
  {
    hide Recency, Scan, Indexed, LocksMatch, UsesMatch, AllKeyed, Without, Held;
    NewUnheld(s);
    UnheldUnread(s.locks, 0);
    if key in s.store.table {
      TableLive(s.store, key);
      UnheldLockable(s, 0);
    }
  }

  lemma TableLive(st: Store, key: Key)
    requires StoreInv(st) && key in st.table
    ensures st.table[key] in st.heap
  {
  }

  lemma UnheldLockable(s: Sys, id: Id)
    requires Inv(s) && id in s.store.heap && !Held(s.locks, id)
    ensures CanLock(s.store.heap[id], Read)
  {
    hide StoreInv, Recency, UsesMatch, AllKeyed;
    CountsAt(s.store.heap, s.locks, id);
  }

  lemma NewUnheld(s: Sys)
    requires Inv(s)
    ensures !Held(s.locks, s.store.nextId)
  {
    hide Recency, LocksMatch, UsesMatch, AllKeyed;
    FreshId(s.store);
  }

  lemma UnheldUnread(l: Locks, id: Id)
    ensures !Held(l, id) ==> ReadersOf(l, id) == {} && id !in l.writers
  {
  }

  lemma TakesForReading(s: Sys, t: Tid, key: Key) returns (a: Action, s': Sys)
    requires Inv(s) && s.mutex.Free? && s.config.allocates && t !in s.uses
    requires if key in s.store.table then s.store.table[key] == 0 && !Held(s.locks, 0)
             else s.store.nextId == 0 && s.store.cost == 0
    ensures a == Get(t, key, Read, 1) && Enabled(s, a) && s' == Next(s, a) && Inv(s') && s'.config == s.config
    ensures s'.uses == s.uses[t := Holding(0, true)] && OnlyHolder(s', t, key) && TookEntry(s, s', t, key)
  {
    hide Recency, HeldLive, Scan, Accounted, Listed, Total, Without, LocksMatch, UsesMatch, AllKeyed, TookEntry;
    a := Get(t, key, Read, 1);
    TakesAsGiven(s, t, key);
    StepKeepsInv(s, a);
    s' := Next(s, a);
    if key in s.store.table {
      CountsAt(s.store.heap, s.locks, 0);
      assert s'.locks == AddLock(s.locks, t, 0, Read);
    } else {
      assert s' == Allocate(s, t, key, Read, 1);
    }
  }

  lemma Begins(s: Sys, t: Tid, key: Key) returns (a: Action, s': Sys)
    requires Inv(s) && t in s.uses && s.uses[t] == Holding(0, true) && OnlyHolder(s, t, key)
    ensures a == BeginDemote(t, 0) && Enabled(s, a) && s' == Next(s, a) && Inv(s') && s'.config == s.config
    ensures s'.uses == s.uses[t := Flagged(key, 0)] && OnlyHolder(s', t, key) && s'.locks == s.locks
  {
    hide StoreInv, Recency, HeldLive, Scan, LocksMatch, UsesMatch, AllKeyed;
    a := BeginDemote(t, 0);
    StepKeepsInv(s, a);
    s' := Next(s, a);
  }

  lemma Releases(s: Sys, t: Tid, key: Key) returns (a: Action, s': Sys)
    requires Inv(s) && t in s.uses && s.uses[t] == Flagged(key, 0) && OnlyHolder(s, t, key)
    ensures a == Release(t, 0) && Enabled(s, a) && s' == Next(s, a) && Inv(s')
    ensures s'.mutex.Free? && s'.config == s.config
    ensures s'.uses == s.uses[t := Waiting(key, 0)] && s'.store.table == s.store.table
    ensures 0 in s'.store.heap && !Held(s'.locks, 0) && s'.locks.writers == s.locks.writers - {0}
  {
    hide StoreInv, Recency, HeldLive, Scan, LocksMatch, UsesMatch, AllKeyed;
    a := Release(t, 0);
    StepKeepsInv(s, a);
    s' := Next(s, a);
    CountsAt(s'.store.heap, s'.locks, 0);
  }
}
