/** One attempt of `dt_cache_get` as the cache object makes it is the steps of the transition
    system with nothing in between: the get, the visits of its collection and its finish. */
module CacheAttempt {
  import opened CacheStore
  import opened CacheProtocol
  import opened CacheRuns
  import opened CacheGc
  import LruCache

  /** Visits, then the finish. */
  predicate Uninterrupted(acts: seq<Action>, cost: nat) {
    && acts != [] && acts[|acts| - 1] == Finish(cost)
    && forall i :: 0 <= i < |acts| - 1 ==> acts[i].Visit?
  }

  /** What a miss that has still to visit the links of `mutex.rest` leaves. */
  function MissStore(s: Sys, cost: nat): Store
    requires s.mutex.Collecting?
  {
    Insert(Collect(s.store, Threshold(s.config), s.mutex.rest), s.mutex.key, cost, MissMode(s.config, s.mutex.mode))
  }

  lemma {:induction false} CollectingMiss(s: Sys, acts: seq<Action>, cost: nat)
    requires Inv(s) && s.mutex.Collecting? && Run(s, acts) && Uninterrupted(acts, cost)
    ensures After(s, acts).store == MissStore(s, cost) && After(s, acts).mutex.Free?
    decreases |acts|
  {
    hide Inv, Next, Enabled, MissStore;
    StepKeepsInv(s, acts[0]);
    if |acts| == 1 {
      assert acts[1..] == [];
      FinishStep(s, cost);
    } else {
      VisitStep(s, cost);
      CollectingMiss(Next(s, acts[0]), acts[1..], cost);
    }
  }

  lemma FinishStep(s: Sys, cost: nat)
    requires Inv(s) && Enabled(s, Finish(cost))
    ensures Next(s, Finish(cost)).store == MissStore(s, cost) && Next(s, Finish(cost)).mutex.Free?
  {
    hide StoreInv, Recency, LocksMatch, HeldLive, UsesMatch, AllKeyed, Collect, Threshold;
    LruCache.CollectStops(s.store, Threshold(s.config), s.mutex.rest);
  }

  lemma VisitStep(s: Sys, cost: nat)
    requires Inv(s) && Enabled(s, Visit)
    ensures var s' := Next(s, Visit); s'.mutex.Collecting? && MissStore(s', cost) == MissStore(s, cost)
  {
    hide StoreInv, Recency, LocksMatch, HeldLive, UsesMatch, AllKeyed, Collect, Threshold;
    VisitIsCollect(s);
    ScanIsLive(s);
  }

  lemma SameLevel(config: Config)
    ensures Threshold(config) == FillLevel(config.quota, 0.8)
  {
  }

  /** The steps of a get with nothing in between leave the store of one attempt: the get alone
      where it hits, contends or need not collect, else with its visits and its finish. */
  lemma StepsAreGetStore(s: Sys, t: Tid, key: Key, mode: Mode, cost: nat, acts: seq<Action>)
    requires Inv(s) && Enabled(s, Get(t, key, mode, cost)) && Run(s, [Get(t, key, mode, cost)] + acts)
    requires if Next(s, Get(t, key, mode, cost)).mutex.Collecting? then Uninterrupted(acts, cost) else acts == []
    ensures var s' := After(s, [Get(t, key, mode, cost)] + acts);
            && s'.mutex.Free?
            && s'.store == LruCache.GetStore(s.store, s.config.quota, s.config.allocates, key, mode, cost)
  {
    var get := Get(t, key, mode, cost);
    var all := [get] + acts;
    assert all[1..] == acts;
    StepKeepsInv(s, get);
    var s1 := Next(s, get);
    GetStep(s, t, key, mode, cost);
    hide Inv, Next, Enabled, LruCache.GetStore, MissStore;
    if s1.mutex.Collecting? {
      CollectingMiss(s1, acts, cost);
    }
  }

  lemma GetStep(s: Sys, t: Tid, key: Key, mode: Mode, cost: nat)
    requires Inv(s) && Enabled(s, Get(t, key, mode, cost))
    ensures var s1, after := Next(s, Get(t, key, mode, cost)),
                             LruCache.GetStore(s.store, s.config.quota, s.config.allocates, key, mode, cost);
            if s1.mutex.Collecting? then MissStore(s1, cost) == after else s1.store == after
  {
    hide Recency, LocksMatch, HeldLive, UsesMatch, AllKeyed, Accounted, Listed, Collect, Without, Threshold, FillLevel;
    SameLevel(s.config);
    if key in s.store.table {
      LruCache.TableIsLive(s.store, key);
    }
  }

  /** And a miss that collects can always be brought to its end that way. */
  lemma {:induction false} MissCanFinish(s: Sys, cost: nat) returns (acts: seq<Action>)
    requires Inv(s) && s.mutex.Collecting? && Chargeable(s.config, cost)
    ensures Run(s, acts) && Uninterrupted(acts, cost)
    decreases |s.mutex.rest|
  {
    hide StoreInv, Recency, LocksMatch, HeldLive, UsesMatch, AllKeyed, Threshold, Chargeable;
    if Done(s) {
      acts := [Finish(cost)];
      assert Run(s, acts);
    } else {
      ScanIsLive(s);
      StepKeepsInv(s, Visit);
      var more := MissCanFinish(Next(s, Visit), cost);
      acts := [Visit] + more;
      assert acts[1..] == more;
    }
  }
}
