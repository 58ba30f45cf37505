/** Garbage collection without interference: `dt_cache_gc` frees exactly the idle entries
    of the shortest prefix of the LRU list that brings the cost below the threshold. */
module CacheGc {
  import opened CacheStore
  import opened CacheProtocol
  import CacheRuns

  /** The level to which a collection brings the cost down. */
  function FillLevel(quota: nat, ratio: real): real {
    quota as real * ratio
  }

  /** The loop of `dt_cache_gc` from the link `rest[0]` on. */
  function Collect(st: Store, threshold: real, rest: seq<Id>): Store
    decreases |rest|
  {
    if rest == [] || st.cost as real < threshold then st
    else if rest[0] in st.heap && Evictable(st.heap[rest[0]]) then
      Collect(Evict(st, rest[0]), threshold, rest[1..])
    else Collect(st, threshold, rest[1..])
  }

  /** The steps of a collecting miss, taken with nothing in between, are this loop. */
  lemma VisitIsCollect(s: Sys)
    requires Inv(s) && Enabled(s, Visit)
    ensures var t := Threshold(s.config);
            Collect(s.store, t, s.mutex.rest) == Collect(Next(s, Visit).store, t, Next(s, Visit).mutex.rest)
  {
    hide StoreInv, Recency, LocksMatch, HeldLive;
    ScanIsLive(s);
  }

  /** The entries of `l` that pass the eviction test, in order; `pinned`: those that do not. */
  function Pick(st: Store, l: seq<Id>, pinned: bool): seq<Id> {
    if l == [] then []
    else
      var last := l[|l| - 1];
      Pick(st, l[..|l| - 1], pinned) +
      if (last in st.heap && Evictable(st.heap[last])) != pinned then [last] else []
  }

  function KeepHeap(heap: map<Id, Entry>, victims: seq<Id>): map<Id, Entry> {
    map id | id in heap && id !in victims :: heap[id]
  }

  function KeepTable(table: map<Key, Id>, victims: seq<Id>): map<Key, Id> {
    map key | key in table && table[key] !in victims :: table[key]
  }

  /** The store with the idle entries of the first `k` links gone and all else in place. */
  function Swept(st: Store, k: nat): Store
    requires k <= |st.lru|
  {
    var victims := Pick(st, st.lru[..k], false);
    Store(KeepHeap(st.heap, victims), KeepTable(st.table, victims),
          Pick(st, st.lru[..k], true) + st.lru[k..],
          Wrap(st.cost - Total(st.heap, victims)), st.nextId, st.cleaned + victims)
  }

  lemma {:induction false} PickProps(st: Store, l: seq<Id>, pinned: bool)
    ensures forall id :: id in Pick(st, l, pinned) <==> id in l && (id in st.heap && Evictable(st.heap[id])) != pinned
  {
    if l != [] {
      var n := |l| - 1;
      assert l == l[..n] + [l[n]];
      PickProps(st, l[..n], pinned);
    }
  }

  lemma PickSnoc(st: Store, k: nat, pinned: bool)
    requires k < |st.lru|
    ensures Pick(st, st.lru[..k + 1], pinned) ==
            Pick(st, st.lru[..k], pinned) +
            if (st.lru[k] in st.heap && Evictable(st.heap[st.lru[k]])) != pinned then [st.lru[k]] else []
  {
    assert st.lru[..k + 1][..k] == st.lru[..k];
  }

  lemma SweptNone(st: Store)
    requires StoreInv(st)
    ensures Swept(st, 0) == st
  {
    hide Indexed, Accounted, Total;
    assert st.lru[..0] == [];
    var s := Swept(st, 0);
    assert s.cost == st.cost by { TotalNone(st.heap); }
    assert s.heap == st.heap;
    assert s.table == st.table;
    assert s.lru == st.lru;
  }

  lemma TotalNone(heap: map<Id, Entry>)
    ensures Total(heap, []) == 0
  {
  }

  /** What the index says of the link at position `k`. */
  lemma LinkFacts(st: Store, k: nat)
    requires Indexed(st) && k < |st.lru|
    ensures st.lru[k] in st.heap && st.lru[k] !in st.lru[..k]
    ensures forall key :: key in st.table ==> (st.table[key] == st.lru[k] <==> key == st.heap[st.lru[k]].key)
  {
  }

  /** Visiting one more link: an idle entry is evicted, a pinned one is left alone. */
  lemma SweptNext(st: Store, k: nat)
    requires StoreInv(st) && k < |st.lru|
    ensures var id := st.lru[k];
            id in Swept(st, k).heap && id in st.heap && Swept(st, k).heap[id] == st.heap[id] &&
            Swept(st, k + 1) == if Evictable(st.heap[id]) then Evict(Swept(st, k), id) else Swept(st, k)
  {
    hide Indexed, Accounted, Total, Pick, KeepTable;
    LinkFacts(st, k);
    PickSnoc(st, k, false);
    PickSnoc(st, k, true);
    PickProps(st, st.lru[..k], false);
    PickProps(st, st.lru[..k], true);
    var id := st.lru[k];
    assert st.lru[k..] == [id] + st.lru[k + 1..];
    if Evictable(st.heap[id]) {
      SweptEvict(st, k, id);
    } else {
      SweptSkip(st, k);
    }
  }

  lemma SweptSkip(st: Store, k: nat)
    requires k < |st.lru|
    requires Pick(st, st.lru[..k + 1], false) == Pick(st, st.lru[..k], false) + []
    requires Pick(st, st.lru[..k + 1], true) == Pick(st, st.lru[..k], true) + [st.lru[k]]
    ensures Swept(st, k + 1) == Swept(st, k)
  {
    hide Total, Pick;
    assert Pick(st, st.lru[..k + 1], false) == Pick(st, st.lru[..k], false);
    assert Pick(st, st.lru[..k], true) + st.lru[k..] == Pick(st, st.lru[..k], true) + [st.lru[k]] + st.lru[k + 1..];
  }

  lemma SweptEvict(st: Store, k: nat, id: Id)
    requires StoreInv(st) && k < |st.lru| && id == st.lru[k] && id in st.heap && Evictable(st.heap[id])
    requires Pick(st, st.lru[..k + 1], false) == Pick(st, st.lru[..k], false) + [id]
    requires Pick(st, st.lru[..k + 1], true) == Pick(st, st.lru[..k], true) + []
    requires id !in Pick(st, st.lru[..k], true) && id !in Pick(st, st.lru[..k], false)
    ensures id in Swept(st, k).heap && Swept(st, k + 1) == Evict(Swept(st, k), id)
  {
    hide Pick, Total, Indexed, Accounted, KeepTable;
    var victims, pinned := Pick(st, st.lru[..k], false), Pick(st, st.lru[..k], true);
    var a, b := Evict(Swept(st, k), id), Swept(st, k + 1);
    assert a.lru == b.lru by {
      assert st.lru[k..] == [id] + st.lru[k + 1..];
      assert pinned + st.lru[k..] == pinned + [id] + st.lru[k + 1..];
      WithoutMiddle(pinned, id, st.lru[k + 1..]);
    }
    assert a.cost == b.cost by {
      TotalSnoc(st.heap, victims, id);
      SubTwice(st.cost, Total(st.heap, victims), st.heap[id].cost);
    }
    SweptEvictMaps(st, k, id);
    assert st.cleaned + victims + [id] == st.cleaned + (victims + [id]);
  }

  lemma SweptEvictMaps(st: Store, k: nat, id: Id)
    requires Indexed(st) && k < |st.lru| && id == st.lru[k] && id in st.heap
    requires Pick(st, st.lru[..k + 1], false) == Pick(st, st.lru[..k], false) + [id]
    requires id !in Pick(st, st.lru[..k], false)
    ensures id in Swept(st, k).heap
    ensures Evict(Swept(st, k), id).heap == Swept(st, k + 1).heap
    ensures Evict(Swept(st, k), id).table == Swept(st, k + 1).table
  {
    LinkFacts(st, k);
    hide Pick, Total, Indexed, Without, KeepTable;
    var v := Pick(st, st.lru[..k], false);
    DropHeap(st.heap, v, id);
    DropTable(st.table, v, id, st.heap[id].key);
  }

  lemma DropHeap(heap: map<Id, Entry>, v: seq<Id>, id: Id)
    ensures KeepHeap(heap, v) - {id} == KeepHeap(heap, v + [id])
  {
  }

  lemma DropTable(table: map<Key, Id>, v: seq<Id>, id: Id, k: Key)
    requires forall key :: key in table ==> (table[key] == id <==> key == k)
    ensures KeepTable(table, v) - {k} == KeepTable(table, v + [id])
  {
  }

  lemma SubTwice(c: nat, a: nat, b: nat)
    ensures ((c - a) % WORD - b) % WORD == (c - (a + b)) % WORD
  {
    WrapShift(c - (a + b), (c - a) % WORD - b, (c - a) / WORD);
  }

  lemma {:induction false} CollectFrom(st: Store, threshold: real, j: nat) returns (k: nat)
    requires StoreInv(st) && j <= |st.lru|
    requires forall i :: 0 <= i < j ==> Swept(st, i).cost as real >= threshold
    ensures j <= k <= |st.lru| && Collect(Swept(st, j), threshold, st.lru[j..]) == Swept(st, k)
    ensures k == |st.lru| || Swept(st, k).cost as real < threshold
    ensures forall i :: 0 <= i < k ==> Swept(st, i).cost as real >= threshold
    decreases |st.lru| - j
  {
    hide StoreInv, Swept, Evict;
    if j == |st.lru| || Swept(st, j).cost as real < threshold {
      k := j;
    } else {
      SweptNext(st, j);
      assert st.lru[j..][1..] == st.lru[j + 1..];
      k := CollectFrom(st, threshold, j + 1);
    }
  }

  /** The collection evicts exactly the idle entries of the shortest sufficient prefix. */
  lemma CollectShortestPrefix(st: Store, threshold: real)
    requires StoreInv(st)
    ensures exists k ::
              && 0 <= k <= |st.lru|
              && Collect(st, threshold, st.lru) == Swept(st, k)
              && (k == |st.lru| || Swept(st, k).cost as real < threshold)
              && (forall i :: 0 <= i < k ==> Swept(st, i).cost as real >= threshold)
  {
    SweptNone(st);
    var k := CollectFrom(st, threshold, 0);
  }

  /** What is left after a collection: less than the threshold, or only what was pinned. */
  lemma CollectCost(st: Store, threshold: real)
    requires StoreInv(st)
    ensures Collect(st, threshold, st.lru).cost as real
         <= CacheRuns.Max(threshold, Total(st.heap, Pick(st, st.lru, true)) as real)
  {
    hide StoreInv, Collect, Total, Pick;
    CollectShortestPrefix(st, threshold);
    CollectKeepsInv(st, threshold, st.lru);
    var st' := Collect(st, threshold, st.lru);
    if !(st'.cost as real < threshold) {
      assert st' == Swept(st, |st.lru|);
      assert st.lru[..|st.lru|] == st.lru;
      OnlyPinnedLeft(st, st');
    }
  }

  lemma OnlyPinnedLeft(st: Store, st': Store)
    requires StoreInv(st') && st'.lru == Pick(st, st.lru, true) + []
    requires st'.heap == KeepHeap(st.heap, Pick(st, st.lru, false))
    ensures st'.cost <= Total(st.heap, Pick(st, st.lru, true))
  {
    hide Indexed, Accounted, Total, Pick;
    var pinned := Pick(st, st.lru, true);
    PickProps(st, st.lru, true);
    PickProps(st, st.lru, false);
    TotalFrame(st.heap, st'.heap, pinned);
    assert st'.lru == pinned;
    CacheRuns.WordWraps(Total(st'.heap, pinned));
  }

  lemma {:induction false} CollectKeepsInv(st: Store, threshold: real, rest: seq<Id>)
    requires StoreInv(st)
    ensures StoreInv(Collect(st, threshold, rest))
    ensures Collect(st, threshold, rest).table.Keys <= st.table.Keys
    ensures Collect(st, threshold, rest).nextId == st.nextId
    decreases |rest|
  {
    hide StoreInv;
    if rest != [] && !(st.cost as real < threshold) {
      if rest[0] in st.heap && Evictable(st.heap[rest[0]]) {
        EvictKeepsInv(st, rest[0]);
        CollectKeepsInv(Evict(st, rest[0]), threshold, rest[1..]);
      } else {
        CollectKeepsInv(st, threshold, rest[1..]);
      }
    }
  }
}
