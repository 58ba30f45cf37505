/** The memory of the LRU cache of src/common/cache.c as one value: the live entries,
    the hash table, the LRU list, the running cost and the log of clean-ups. The
    functions below are what each operation does to it while the cache mutex is held. */
module CacheStore {

  /** A `uint32_t` cache key. */
  type Key = k: nat | k < 0x1_0000_0000

  /** One allocation. The address may be reused by the allocator, the identity is not. */
  type Id = nat

  /** `size_t` arithmetic wraps at this modulus. */
  const WORD: nat := 0x1_0000_0000_0000_0000

  function Wrap(n: int): nat {
    n % WORD
  }

  datatype Mode = Read | Write

  /** An entry with its reader/writer lock word and the demotion flag. */
  datatype Entry = Entry(key: Key, cost: nat, readers: nat, writing: bool, demoting: bool)

  datatype Store = Store(heap: map<Id, Entry>, table: map<Key, Id>, lru: seq<Id>, cost: nat,
                         nextId: Id, cleaned: seq<Id>)

  // ----- the reader/writer lock, as POSIX.1-2017 describes the try calls -----

  predicate CanLock(e: Entry, mode: Mode) {
    !e.writing && (mode.Write? ==> e.readers == 0)
  }

  function Lock(e: Entry, mode: Mode): Entry {
    if mode.Write? then e.(writing := true) else e.(readers := e.readers + 1)
  }

  /** Unlocking needs no mode: the lock knows which kind is held. */
  function Unlock(e: Entry): Entry
    requires e.writing || e.readers > 0
  {
    if e.writing then e.(writing := false) else e.(readers := e.readers - 1)
  }

  /** The test both `dt_cache_remove` and `dt_cache_gc` apply before freeing an entry. */
  predicate Evictable(e: Entry) {
    CanLock(e, Write) && !e.demoting
  }

  // ----- sequences of distinct identities -----

  predicate Distinct(s: seq<Id>) {
    forall i, j :: 0 <= i < j < |s| ==> s[i] != s[j]
  }

  /** `g_list_remove_link`: the list without the link of `x`. */
  function Without(s: seq<Id>, x: Id): seq<Id> {
    if s == [] then [] else if s[0] == x then s[1..] else [s[0]] + Without(s[1..], x)
  }

  lemma {:induction false} WithoutProps(s: seq<Id>, x: Id)
    requires Distinct(s)
    ensures Distinct(Without(s, x))
    ensures forall y :: y in Without(s, x) <==> y in s && y != x
    ensures x !in s ==> Without(s, x) == s
  {
    if s == [] {
    } else {
      assert s == [s[0]] + s[1..];
      WithoutProps(s[1..], x);
      if s[0] != x {
        var r := Without(s[1..], x);
        assert Without(s, x) == [s[0]] + r;
        assert s[0] !in r;
      }
    }
  }

  /** Removing an element of the middle leaves both neighbours' stretches as they were. */
  lemma {:induction false} WithoutMiddle(a: seq<Id>, x: Id, b: seq<Id>)
    requires x !in a
    ensures Without(a + [x] + b, x) == a + b
  {
    if a == [] {
      assert a + [x] + b == [x] + b;
      assert a + b == b;
    } else {
      var s := a + [x] + b;
      assert s[1..] == a[1..] + [x] + b;
      WithoutMiddle(a[1..], x, b);
      assert a + b == [a[0]] + (a[1..] + b);
    }
  }

  // ----- the cost of a list of entries -----

  function Cost(heap: map<Id, Entry>, id: Id): nat {
    if id in heap then heap[id].cost else 0
  }

  function Total(heap: map<Id, Entry>, s: seq<Id>): nat {
    if s == [] then 0 else Cost(heap, s[0]) + Total(heap, s[1..])
  }

  lemma {:induction false} TotalAppend(heap: map<Id, Entry>, s: seq<Id>, t: seq<Id>)
    ensures Total(heap, s + t) == Total(heap, s) + Total(heap, t)
  {
    if s == [] {
      assert s + t == t;
    } else {
      assert (s + t)[1..] == s[1..] + t;
      TotalAppend(heap, s[1..], t);
    }
  }

  lemma TotalSnoc(heap: map<Id, Entry>, s: seq<Id>, x: Id)
    ensures Total(heap, s + [x]) == Total(heap, s) + Cost(heap, x)
  {
    TotalAppend(heap, s, [x]);
    assert Total(heap, [x]) == Cost(heap, x) + Total(heap, [x][1..]);
  }

  lemma {:induction false} TotalWithout(heap: map<Id, Entry>, s: seq<Id>, x: Id)
    requires x in s
    ensures Total(heap, s) == Total(heap, Without(s, x)) + Cost(heap, x)
  {
    if s[0] != x {
      TotalWithout(heap, s[1..], x);
      assert Without(s, x)[1..] == Without(s[1..], x);
    }
  }

  /** The total depends only on the costs of the listed entries. */
  lemma {:induction false} TotalFrame(h: map<Id, Entry>, h': map<Id, Entry>, s: seq<Id>)
    requires forall id :: id in s ==> Cost(h, id) == Cost(h', id)
    ensures Total(h, s) == Total(h', s)
  {
    if s != [] {
      TotalFrame(h, h', s[1..]);
    }
  }

  // ----- the invariant of the store -----

  /** The LRU list holds every live entry once. */
  ghost predicate Listed(heap: map<Id, Entry>, lru: seq<Id>) {
    Distinct(lru) && forall id :: id in lru <==> id in heap
  }

  /** The hash table finds every live entry under its own key, and nothing else. */
  ghost predicate Tabled(heap: map<Id, Entry>, table: map<Key, Id>) {
    && (forall k :: k in table ==> table[k] in heap && heap[table[k]].key == k)
    && (forall id :: id in heap ==> heap[id].key in table && table[heap[id].key] == id)
  }

  ghost predicate Indexed(st: Store) {
    Listed(st.heap, st.lru) && Tabled(st.heap, st.table)
  }

  /** Every allocation so far is live or has been cleaned up once, never both. */
  ghost predicate Accounted(st: Store) {
    && Distinct(st.cleaned)
    && (forall id :: id in st.cleaned ==> id !in st.heap)
    && (forall id: Id :: id < st.nextId <==> id in st.heap || id in st.cleaned)
  }

  ghost predicate StoreInv(st: Store) {
    && Indexed(st)
    && Accounted(st)
    && st.cost == Wrap(Total(st.heap, st.lru))
  }

  // ----- the operations -----

  function EmptyStore(): Store {
    Store(map[], map[], [], 0, 0, [])
  }

  /** A hit: take the lock and move the link to the most recently used end. */
  function Acquire(st: Store, id: Id, mode: Mode): Store
    requires id in st.heap
  {
    st.(heap := st.heap[id := Lock(st.heap[id], mode)], lru := Without(st.lru, id) + [id])
  }

  /** Unmap, unlink, clean up and free; the subtraction is on `size_t`. */
  function Evict(st: Store, id: Id): Store
    requires id in st.heap
  {
    var e := st.heap[id];
    Store(st.heap - {id}, st.table - {e.key}, Without(st.lru, id), Wrap(st.cost - e.cost),
          st.nextId, st.cleaned + [id])
  }

  /** A miss: a fresh entry, locked for the caller, most recently used. */
  function Insert(st: Store, key: Key, cost: nat, mode: Mode): Store {
    var id := st.nextId;
    Store(st.heap[id := Lock(Entry(key, cost, 0, false, false), mode)], st.table[key := id],
          st.lru + [id], Wrap(st.cost + cost), id + 1, st.cleaned)
  }

  /** The lock word or the demotion flag of one entry changes, nothing else. */
  function Touch(st: Store, id: Id, e: Entry): Store {
    st.(heap := st.heap[id := e])
  }

  lemma EmptyStoreInv()
    ensures StoreInv(EmptyStore())
  {
    var st := EmptyStore();
    assert forall id: Id :: id !in st.heap && id !in st.cleaned && !(id < st.nextId);
  }

  // Each operation keeps the index, then the cost.

  lemma TouchKeepsInv(st: Store, id: Id, e: Entry)
    requires StoreInv(st) && id in st.heap
    requires e.key == st.heap[id].key && e.cost == st.heap[id].cost
    ensures StoreInv(Touch(st, id, e))
  {
    TotalFrame(st.heap, Touch(st, id, e).heap, st.lru);
  }

  lemma BubbleKeepsDistinct(s: seq<Id>, x: Id)
    requires Distinct(s) && x in s
    ensures Distinct(Without(s, x) + [x])
    ensures forall y :: y in Without(s, x) + [x] <==> y in s
  {
    WithoutProps(s, x);
  }

  lemma BubbleKeepsTotal(heap: map<Id, Entry>, s: seq<Id>, x: Id)
    requires x in s
    ensures Total(heap, Without(s, x) + [x]) == Total(heap, s)
  {
    TotalWithout(heap, s, x);
    TotalSnoc(heap, Without(s, x), x);
  }

  lemma AcquireKeepsInv(st: Store, id: Id, mode: Mode)
    requires StoreInv(st) && id in st.heap
    ensures StoreInv(Acquire(st, id, mode))
  {
    BubbleKeepsDistinct(st.lru, id);
    BubbleKeepsTotal(st.heap, st.lru, id);
    var st1 := st.(lru := Without(st.lru, id) + [id]);
    assert StoreInv(st1);
    TouchKeepsInv(st1, id, Lock(st.heap[id], mode));
  }

  /** Two integers a whole number of words apart wrap to the same `size_t`. */
  lemma {:induction false} WrapShift(a: int, b: int, q: int)
    requires a == b + q * WORD
    ensures a % WORD == b % WORD
  {
    var qa, qb := a / WORD, b / WORD;
    assert a == qa * WORD + a % WORD && b == qb * WORD + b % WORD;
    assert a % WORD - b % WORD == (qb + q - qa) * WORD;
  }

  lemma WrapSub(total: nat, part: nat, rest: nat)
    requires total == rest + part
    ensures (total % WORD - part) % WORD == rest % WORD
  {
    WrapShift(rest, total % WORD - part, total / WORD);
  }

  lemma WrapAdd(total: nat, part: nat)
    ensures (total % WORD + part) % WORD == (total + part) % WORD
  {
    WrapShift(total + part, total % WORD + part, total / WORD);
  }

  lemma EvictKeepsTable(heap: map<Id, Entry>, table: map<Key, Id>, id: Id)
    requires Tabled(heap, table) && id in heap
    ensures Tabled(heap - {id}, table - {heap[id].key})
  {
  }

  lemma EvictKeepsIndex(st: Store, id: Id)
    requires Indexed(st) && id in st.heap
    ensures Indexed(Evict(st, id))
  {
    hide Tabled;
    WithoutProps(st.lru, id);
    EvictKeepsTable(st.heap, st.table, id);
  }

  lemma EvictKeepsAccounts(st: Store, id: Id)
    requires Accounted(st) && id in st.heap
    ensures Accounted(Evict(st, id))
  {
    var st' := Evict(st, id);
    assert forall y :: y in st'.cleaned <==> y in st.cleaned || y == id;
  }

  lemma EvictCost(st: Store, id: Id)
    requires Indexed(st) && id in st.heap
    ensures Total(st.heap, st.lru) == Total(Evict(st, id).heap, Evict(st, id).lru) + st.heap[id].cost
  {
    WithoutProps(st.lru, id);
    var st' := Evict(st, id);
    TotalWithout(st.heap, st.lru, id);
    TotalFrame(st.heap, st'.heap, st'.lru);
  }

  lemma EvictKeepsInv(st: Store, id: Id)
    requires StoreInv(st) && id in st.heap
    ensures StoreInv(Evict(st, id))
  {
    hide Indexed, Accounted, Total;
    EvictKeepsIndex(st, id);
    EvictKeepsAccounts(st, id);
    EvictCost(st, id);
    var st' := Evict(st, id);
    WrapSub(Total(st.heap, st.lru), st.heap[id].cost, Total(st'.heap, st'.lru));
  }

  /** As long as the live costs fit a `size_t`, the field is their sum and the
      subtraction of a freed entry's cost does not wrap. */
  lemma CostDoesNotWrap(st: Store, id: Id)
    requires StoreInv(st) && id in st.heap
    requires Total(st.heap, st.lru) < WORD
    ensures st.cost == Total(st.heap, st.lru)
    ensures st.heap[id].cost <= st.cost && Evict(st, id).cost == st.cost - st.heap[id].cost
  {
    hide Indexed, Accounted, Total;
    EvictCost(st, id);
  }

  lemma InsertKeepsTable(heap: map<Id, Entry>, table: map<Key, Id>, id: Id, e: Entry)
    requires Tabled(heap, table) && id !in heap && e.key !in table
    ensures Tabled(heap[id := e], table[e.key := id])
  {
  }

  lemma InsertKeepsIndex(st: Store, key: Key, cost: nat, mode: Mode)
    requires Indexed(st) && key !in st.table && st.nextId !in st.heap
    ensures Indexed(Insert(st, key, cost, mode))
  {
    hide Tabled;
    InsertKeepsTable(st.heap, st.table, st.nextId, Lock(Entry(key, cost, 0, false, false), mode));
  }

  lemma InsertKeepsAccounts(st: Store, key: Key, cost: nat, mode: Mode)
    requires Accounted(st)
    ensures Accounted(Insert(st, key, cost, mode)) && st.nextId !in st.heap
  {
    var st' := Insert(st, key, cost, mode);
    assert !(st.nextId < st.nextId);
  }

  lemma InsertCost(st: Store, key: Key, cost: nat, mode: Mode)
    requires Indexed(st) && st.nextId !in st.heap
    ensures var st' := Insert(st, key, cost, mode);
            Total(st'.heap, st'.lru) == Total(st.heap, st.lru) + cost
  {
    var st' := Insert(st, key, cost, mode);
    var id := st.nextId;
    TotalFrame(st.heap, st'.heap, st.lru);
    TotalSnoc(st'.heap, st.lru, id);
  }

  lemma InsertKeepsInv(st: Store, key: Key, cost: nat, mode: Mode)
    requires StoreInv(st) && key !in st.table
    ensures StoreInv(Insert(st, key, cost, mode))
  {
    hide Indexed, Accounted, Total;
    InsertKeepsAccounts(st, key, cost, mode);
    InsertKeepsIndex(st, key, cost, mode);
    InsertCost(st, key, cost, mode);
    WrapAdd(Total(st.heap, st.lru), cost);
  }
}
