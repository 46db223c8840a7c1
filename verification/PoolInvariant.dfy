/** What every operation on the pool keeps. */
module PoolInvariant {
  import opened Wrappers
  import opened CStrings
  import opened SlotTables
  import opened Pool
  import opened Config

  /** Each entry is filed under the printed number of its instance. */
  ghost predicate Keyed(heap: map<Ptr, Instance>, slots: seq<Slot<Ptr>>) {
    forall i :: 0 <= i < |slots| && slots[i].Live? && slots[i].value in heap ==> slots[i].key == ToDec(heap[slots[i].value].num)
  }

  /** The entry for the number of the instance is the instance itself. */
  ghost predicate Linked(s: State, p: Ptr) {
    p in s.heap && s.heap[p].app in s.apps && Lookup(s.apps[s.heap[p].app].table.slots, ToDec(s.heap[p].num)) == Some(p)
  }

  ghost predicate Filed(s: State) {
    forall a :: a in s.apps ==> Keyed(s.heap, s.apps[a].table.slots)
  }

  /** A valid instance can be found; an instance that cannot be found is still held by some request. */
  ghost predicate Accounted(s: State, freeing: set<Ptr>) {
    forall p :: p in s.heap && p !in freeing ==> (s.heap[p].valid ==> Linked(s, p)) && (Linked(s, p) || s.heap[p].inFlight > 0)
  }

  /** Only registered applications have entries (an application being loaded is exempt). */
  ghost predicate Registered(s: State, loading: set<AppPtr>) {
    forall a :: a in s.apps ==> a in Values(s.registry.slots) || a in loading || Count(s.apps[a].table.slots) == 0
  }

  ghost predicate PoolInv(s: State, loading: set<AppPtr>, freeing: set<Ptr>) {
    Sound(s) && Filed(s) && Accounted(s, freeing) && Registered(s, loading)
  }

  // ---------------------------------------------------------------- requests that hold instances

  function Holders(reqs: map<nat, Request>, p: Ptr): set<nat> {
    set r | r in reqs && reqs[r].holds && reqs[r].target == Some(p)
  }

  ghost predicate CountsHolders(heap: map<Ptr, Instance>, reqs: map<nat, Request>) {
    forall p :: p in heap ==> heap[p].inFlight == |Holders(reqs, p)|
  }

  ghost predicate HoldsAllocated(heap: map<Ptr, Instance>, reqs: map<nat, Request>) {
    forall r :: r in reqs && reqs[r].holds ==> reqs[r].target.Some? && reqs[r].target.value in heap
  }

  ghost predicate Held(heap: map<Ptr, Instance>, reqs: map<nat, Request>) {
    CountsHolders(heap, reqs) && HoldsAllocated(heap, reqs)
  }

  lemma SameCountsKeepHeld(heap: map<Ptr, Instance>, heap': map<Ptr, Instance>, reqs: map<nat, Request>)
    requires Held(heap, reqs) && heap'.Keys == heap.Keys
    requires forall p :: p in heap ==> heap'[p].inFlight == heap[p].inFlight
    ensures Held(heap', reqs)
  {
  }

  // ---------------------------------------------------------------- finding entries again

  lemma {:induction false} DistinctFind<V>(slots: seq<Slot<V>>, i: nat, key: string)
    requires Distinct(slots) && i < |slots| && Matches(slots[i], key)
    ensures FindKey(slots, key) == Some(i)
  {
    FirstMatch(slots, key, i);
  }

  lemma EntryIsLinked(s: State, a: AppPtr, i: nat)
    requires Sound(s) && Filed(s) && a in s.apps
    requires i < |s.apps[a].table.slots| && s.apps[a].table.slots[i].Live?
    ensures Linked(s, s.apps[a].table.slots[i].value)
  {
    var slots := s.apps[a].table.slots;
    assert Keyed(s.heap, slots) && AppSound(s.heap, a, s.apps[a].table);
    DistinctFind(slots, i, slots[i].key);
  }

  lemma LinkedHasEntry(s: State, p: Ptr) returns (i: nat)
    requires Linked(s, p)
    ensures var slots := s.apps[s.heap[p].app].table.slots;
            i < |slots| && slots[i].Live? && slots[i].value == p && Count(slots) > 0
  {
    var slots := s.apps[s.heap[p].app].table.slots;
    i := FindKey(slots, ToDec(s.heap[p].num)).value;
    var j := EntryOfSlot(slots, i);
  }

  // ---------------------------------------------------------------- changes inside the records

  /** The same dictionaries and the same records, which may have lost their validity. */
  ghost predicate SameShape(s: State, s': State) {
    && s'.heap.Keys == s.heap.Keys && s'.apps.Keys == s.apps.Keys && s'.registry == s.registry
    && (forall a :: a in s.apps ==> s'.apps[a].table == s.apps[a].table)
    && (forall p :: p in s.heap ==> s'.heap[p].app == s.heap[p].app && s'.heap[p].num == s.heap[p].num
                                    && (s'.heap[p].valid ==> s.heap[p].valid))
  }

  lemma ShapeKeepsInv(s: State, s': State, freeing: set<Ptr>)
    requires PoolInv(s, {}, {}) && SameShape(s, s')
    requires forall p :: p in s.heap && p !in freeing ==> Linked(s, p) || s'.heap[p].inFlight > 0
    ensures PoolInv(s', {}, freeing)
  {
    forall a | a in s'.apps ensures AppSound(s'.heap, a, s'.apps[a].table) && Keyed(s'.heap, s'.apps[a].table.slots) {
      assert AppSound(s.heap, a, s.apps[a].table) && Keyed(s.heap, s.apps[a].table.slots);
    }
    forall p | p in s.heap ensures Linked(s, p) ==> Linked(s', p) {
    }
  }

  // ---------------------------------------------------------------- freeing

  lemma FreedEntryIsGone(s: State, p: Ptr)
    requires Sound(s) && Filed(s) && p in s.heap
    ensures var a := s.heap[p].app;
            && AppSound(s.heap - {p}, a, Free(s, p).apps[a].table)
            && Keyed(s.heap - {p}, Free(s, p).apps[a].table.slots)
            && (Count(s.apps[a].table.slots) == 0 ==> Count(Free(s, p).apps[a].table.slots) == 0)
  {
    var a, key := s.heap[p].app, ToDec(s.heap[p].num);
    var t, t' := s.apps[a].table, Free(s, p).apps[a].table;
    assert AppSound(s.heap, a, t) && Injective(t.slots) && Keyed(s.heap, t.slots);
    forall i | 0 <= i < |t'.slots| && t'.slots[i].Live? ensures t'.slots[i] == t.slots[i] && t'.slots[i].value != p {
      if t.slots[i].value == p {
        EntryIsLinked(s, a, i);
      }
    }
    RemoveIsDelete(t, key);
    CountAfterRemove(t, key);
  }

  lemma OthersStayLinked(s: State, p: Ptr, q: Ptr)
    requires Sound(s) && p in s.heap && q in s.heap && q != p && Linked(s, q)
    ensures Linked(Free(s, p), q)
  {
    var a, key := s.heap[p].app, ToDec(s.heap[p].num);
    var t := s.apps[a].table;
    assert AppSound(s.heap, a, t);
    if s.heap[q].app == a && Lookup(t.slots, key) == Some(p) {
      LookupAfterRemove(t, key, ToDec(s.heap[q].num));
      if SameKey(key, ToDec(s.heap[q].num)) {
        SameKeyAsPrinted(key, s.heap[q].num);
      }
    }
  }

  /** Freeing an idle, invalid record leaves no entry behind and disturbs no other. */
  lemma FreeKeepsInv(s: State, p: Ptr)
    requires PoolInv(s, {}, {p}) && p in s.heap
    ensures PoolInv(Free(s, p), {}, {})
  {
    var s' := Free(s, p);
    FreedEntryIsGone(s, p);
    forall b | b in s'.apps ensures AppSound(s'.heap, b, s'.apps[b].table) && Keyed(s'.heap, s'.apps[b].table.slots) {
      assert AppSound(s.heap, b, s.apps[b].table) && Keyed(s.heap, s.apps[b].table.slots);
    }
    forall q | q in s'.heap ensures Linked(s, q) ==> Linked(s', q) {
      if Linked(s, q) {
        OthersStayLinked(s, p, q);
      }
    }
  }
}
