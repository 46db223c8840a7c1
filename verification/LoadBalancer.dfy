/** The load balancer as it runs: records, dictionaries and requests updated in place. */
module LoadBalancer {
  import opened Wrappers
  import opened CStrings
  import opened SlotTables
  import opened Pool
  import opened PoolInvariant
  import opened FindLaws
  import opened Config

  /** GSWAppRequest */
  class AppRequest {
    var name: string
    var instance: CInt
    const hasHandlerKey: bool
    var host: Option<string>
    var port: CInt
    var target: Option<Ptr>      // pAppInstance
    ghost var holds: bool

    ghost function State(): Request
      reads this
    {
      Request(name, instance, hasHandlerKey, host, port, target, holds)
    }

    constructor (name: string, instance: CInt, hasHandlerKey: bool)
      ensures State() == Request(name, instance, hasHandlerKey, None, 0, None, false)
    {
      this.name, this.instance, this.hasHandlerKey := name, instance, hasHandlerKey;
      host, port, target, holds := None, 0, None, false;
    }
  }

  // ---------------------------------------------------------------- one turn of the search

  /** GSWDict_AllKeys */
  function AllKeys<V>(slots: seq<Slot<V>>): (keys: seq<string>)
    ensures |keys| == Count(slots)
  {
    seq(|Entries(slots)|, j requires 0 <= j < |Entries(slots)| => Entries(slots)[j].0)
  }

  lemma KeyFindsValue<V>(slots: seq<Slot<V>>, j: nat)
    requires Distinct(slots) && j < Count(slots)
    ensures Lookup(slots, AllKeys(slots)[j]) == Some(Order(slots)[j])
  {
    var i := SlotOfEntry(slots, j);
    DistinctFind(slots, i, Entries(slots)[j].0);
  }

  /** The request once it is sent to the instance at p. */
  function Sent(req: Request, name: string, inst: Instance, p: Ptr): Request {
    req.(name := name, instance := inst.num, host := inst.host, port := inst.port, target := Some(p), holds := true)
  }

  /** The turn revives the instance and may take it. */
  predicate Taken(inst: Instance, refusals: Table<Refusal>, name: string, hasHandlerKey: bool, now: nat) {
    inst.retry == 0 && inst.valid && (hasHandlerKey || !Refuses(refusals, name, inst.num, now))
  }

  function RefusalsAfter(inst: Instance, refusals: Table<Refusal>, name: string, hasHandlerKey: bool, now: nat): Table<Refusal> {
    if inst.retry == 0 && inst.valid && !hasHandlerKey then LiftRefusal(refusals, name, inst.num, now) else refusals
  }

  /** One turn more: the index moves on, and the instance there is looked at. */
  lemma OneTurnMore(s: State, a: AppPtr, order: seq<Ptr>, n: nat, name: string, hasHandlerKey: bool, now: nat)
    requires a in s.apps && Allocated(s.heap, order) && n < |order|
    ensures var m, m' := AfterTurns(s, a, order, n, name, hasHandlerKey, now), AfterTurns(s, a, order, n + 1, name, hasHandlerKey, now);
            var next := (m.apps[a].lastIndex + 1) % |order|;
            var p := InCycle(order, s.apps[a].lastIndex, n);
            && order[next] == p
            && var inst := Revived(m.heap[p], now);
               && m' == m.(heap := m.heap[p := inst], apps := m.apps[a := m.apps[a].(lastIndex := next)],
                           refusals := RefusalsAfter(inst, m.refusals, name, hasHandlerKey, now))
               && Eligible(s, p, name, hasHandlerKey, now) == Taken(inst, m.refusals, name, hasHandlerKey, now)
  {
    var last := s.apps[a].lastIndex;
    IndexMovesOn(order, last, n);
    TriedNext(order, last, n);
    HeapAfterTurn(s, Tried(order, last, n), InCycle(order, last, n), now);
    LiftedKeepsRefusals(s, Tried(order, last, n), name, hasHandlerKey, now);
  }

  lemma TriedNext(order: seq<Ptr>, last: nat, n: nat)
    requires n < |order|
    ensures Tried(order, last, n + 1) == Tried(order, last, n) + [InCycle(order, last, n)]
    ensures Tried(order, last, n + 1)[..n] == Tried(order, last, n)
  {
  }

  lemma IndexMovesOn(order: seq<Ptr>, last: nat, n: nat)
    requires n < |order|
    ensures IndexAfter(order, last, n + 1) == (IndexAfter(order, last, n) + 1) % |order|
    ensures order[IndexAfter(order, last, n + 1)] == InCycle(order, last, n)
  {
    ModOfSum(last + n, 1, |order|);
    assert last + n + 1 == last + 1 + n;
  }

  lemma HeapAfterTurn(s: State, tried: seq<Ptr>, p: Ptr, now: nat)
    requires p in s.heap
    ensures var heap := RevivedAmong(s.heap, tried, now);
            RevivedAmong(s.heap, tried + [p], now) == heap[p := Revived(heap[p], now)]
  {
  }

  /** Pool and request after n turns of the search that started from s and req. */
  ghost predicate AfterSearching(s: State, req: Request, a: AppPtr, order: seq<Ptr>, n: nat, now: nat, s': State, req': Request)
    requires a in s.apps && Allocated(s.heap, order)
  {
    && n <= |order|
    && var last, first := s.apps[a].lastIndex, FirstEligible(s, order, s.apps[a].lastIndex, 0, req.name, req.hasHandlerKey, now);
       var after := AfterTurns(s, a, order, n, req.name, req.hasHandlerKey, now);
       if !req'.holds then
         s' == after && req' == req && first == FirstEligible(s, order, last, n, req.name, req.hasHandlerKey, now)
       else
         && n > 0 && first == n - 1
         && var p := InCycle(order, last, n - 1);
            s' == CountOpen(after, p) && req' == Sent(req, s.apps[a].name, s.heap[p], p)
  }

  /** AfterSearching, to be looked into only where a proof considers it. */
  ghost predicate Searched(s: State, req: Request, a: AppPtr, order: seq<Ptr>, n: nat, now: nat, s': State, req': Request) {
    forall i {:trigger Look(i)} :: Look(i) ==>
      a in s.apps && Allocated(s.heap, order) && AfterSearching(s, req, a, order, n, now, s', req')
  }

  /** What one turn of the loop does. */
  ghost predicate IsTurn(m: State, req: Request, a: AppPtr, order: seq<Ptr>, now: nat, s': State, req': Request)
    requires a in m.apps && order != [] && Allocated(m.heap, order)
  {
    var next := (m.apps[a].lastIndex + 1) % |order|;
    var p := order[next];
    var inst := Revived(m.heap[p], now);
    var taken := Taken(inst, m.refusals, req.name, req.hasHandlerKey, now);
    && s' == m.(heap := m.heap[p := if taken then inst.(inFlight := inst.inFlight + 1) else inst],
                apps := m.apps[a := m.apps[a].(lastIndex := next)],
                refusals := RefusalsAfter(inst, m.refusals, req.name, req.hasHandlerKey, now))
    && req' == if taken then Sent(req, m.apps[a].name, inst, p) else req
  }

  lemma UpdatedTwice<K, V>(m: map<K, V>, k: K, v: V, v': V)
    ensures m[k := v][k := v'] == m[k := v']
  {
  }

  /** One more turn of the loop, seen from outside. */
  lemma SearchingOn(s: State, req: Request, a: AppPtr, order: seq<Ptr>, n: nat, now: nat, m: State, s': State, req': Request)
    requires a in s.apps && Allocated(s.heap, order) && !req.holds && n < |order|
    requires AfterSearching(s, req, a, order, n, now, m, req)
    requires IsTurn(m, req, a, order, now, s', req')
    ensures AfterSearching(s, req, a, order, n + 1, now, s', req')
  {
    var p := InCycle(order, s.apps[a].lastIndex, n);
    OneTurnMore(s, a, order, n, req.name, req.hasHandlerKey, now);
    SameIdentity(s, a, order, n, req, now, p);
    TurnEnds(m, AfterTurns(s, a, order, n + 1, req.name, req.hasHandlerKey, now), req, a, order, now, s', req', p);
  }

  /** A turn either passes over the instance or takes it. */
  lemma TurnEnds(m: State, after: State, req: Request, a: AppPtr, order: seq<Ptr>, now: nat, s': State, req': Request, p: Ptr)
    requires a in m.apps && order != [] && Allocated(m.heap, order) && !req.holds && p in m.heap
    requires IsTurn(m, req, a, order, now, s', req')
    requires var next := (m.apps[a].lastIndex + 1) % |order|; var inst := Revived(m.heap[p], now);
             && p == order[next]
             && after == m.(heap := m.heap[p := inst], apps := m.apps[a := m.apps[a].(lastIndex := next)],
                            refusals := RefusalsAfter(inst, m.refusals, req.name, req.hasHandlerKey, now))
    ensures p in after.heap
    ensures var inst := Revived(m.heap[p], now);
            if Taken(inst, m.refusals, req.name, req.hasHandlerKey, now)
            then s' == CountOpen(after, p) && req' == Sent(req, m.apps[a].name, inst, p)
            else s' == after && req' == req
  {
    var inst := Revived(m.heap[p], now);
    UpdatedTwice(m.heap, p, inst, inst.(inFlight := inst.inFlight + 1));
  }

  /** The search changes neither where an instance is nor what it is called. */
  lemma SameIdentity(s: State, a: AppPtr, order: seq<Ptr>, n: nat, req: Request, now: nat, p: Ptr)
    requires a in s.apps && Allocated(s.heap, order) && n <= |order| && p in s.heap
    ensures var m := AfterTurns(s, a, order, n, req.name, req.hasHandlerKey, now);
            Sent(req, m.apps[a].name, Revived(m.heap[p], now), p) == Sent(req, s.apps[a].name, s.heap[p], p)
  {
  }

  lemma SearchingOver(s: State, req: Request, a: AppPtr, order: seq<Ptr>, n: nat, now: nat, s': State, req': Request)
    requires a in s.apps && Allocated(s.heap, order) && !req.holds
    requires Searched(s, req, a, order, n, now, s', req') && (req'.holds || n == |order|)
    ensures s' == Pool.Search(s, a, order, req.name, req.hasHandlerKey, now)
    ensures var p := Pick(s, order, s.apps[a].lastIndex, req.name, req.hasHandlerKey, now);
            req'.holds == p.Some? && req' == if p.Some? then Sent(req, s.apps[a].name, s.heap[p.value], p.value) else req
  {
    assert Look(0);
  }

  lemma SearchBegins(s: State, req: Request, a: AppPtr, order: seq<Ptr>, now: nat)
    requires a in s.apps && Allocated(s.heap, order) && !req.holds
    ensures Searched(s, req, a, order, 0, now, s, req)
  {
    var after := AfterTurns(s, a, order, 0, req.name, req.hasHandlerKey, now);
    assert after.heap == s.heap && after.apps == s.apps;
  }

  // ---------------------------------------------------------------- invalidating

  function Invalidated(heap: map<Ptr, Instance>, ps: set<Ptr>): map<Ptr, Instance> {
    map p | p in heap :: if p in ps then heap[p].(valid := false) else heap[p]
  }

  lemma InvalidatedTwice(heap: map<Ptr, Instance>, ps: set<Ptr>, qs: set<Ptr>)
    ensures Invalidated(Invalidated(heap, ps), qs) == Invalidated(heap, ps + qs)
  {
  }

  lemma ValuesUpTo<V>(slots: seq<Slot<V>>, i: nat)
    requires i < |slots|
    ensures Values(slots[..i + 1]) == Values(slots[..i]) + if slots[i].Live? then {slots[i].value} else {}
  {
    forall v ensures v in Values(slots[..i + 1]) <==> v in Values(slots[..i]) || (slots[i].Live? && v == slots[i].value) {
      if v in Values(slots[..i]) {
        var k :| 0 <= k < i && slots[..i][k].Live? && slots[..i][k].value == v;
        assert slots[..i + 1][k] == slots[..i][k];
      }
      if slots[i].Live? {
        assert slots[..i + 1][i] == slots[i];
      }
    }
  }

  /** The instances listed by the applications in the first n slots of the registry. */
  ghost function ListedBy(s: State, n: nat): set<Ptr>
    requires n <= |s.registry.slots| && RegistrySound(s.registry, s.apps.Keys)
  {
    set k, p | 0 <= k < n && s.registry.slots[k].Live? && p in Values(s.apps[s.registry.slots[k].value].table.slots) :: p
  }

  lemma ListedByNext(s: State, n: nat)
    requires n < |s.registry.slots| && RegistrySound(s.registry, s.apps.Keys)
    ensures ListedBy(s, n + 1) == ListedBy(s, n) + if s.registry.slots[n].Live? then Values(s.apps[s.registry.slots[n].value].table.slots) else {}
  {
  }

  lemma ListedByAll(s: State)
    requires Sound(s)
    ensures Invalidated(s.heap, ListedBy(s, |s.registry.slots|)) == ClearAll(s).heap
  {
    forall p ensures p in ListedBy(s, |s.registry.slots|) <==> Listed(s, p) {
      if p in ListedBy(s, |s.registry.slots|) {
        var k :| 0 <= k < |s.registry.slots| && s.registry.slots[k].Live? && p in Values(s.apps[s.registry.slots[k].value].table.slots);
        assert s.registry.slots[k].value in Values(s.registry.slots);
      }
    }
  }

  // ---------------------------------------------------------------- purging

  /** What the purge does to one invalid entry. */
  function WithoutEntry(s: State, a: AppPtr, key: string, p: Ptr): State
    requires a in s.apps && p in s.heap
  {
    s.(heap := if s.heap[p].inFlight == 0 then s.heap - {p} else s.heap,
       apps := s.apps[a := s.apps[a].(table := Remove(s.apps[a].table, key))])
  }

  /** Once its entry is removed, an instance is not found under any key. */
  lemma RemovedIsUnlisted(t: Table<Ptr>, key: string, p: Ptr, other: string)
    requires Distinct(t.slots) && Injective(t.slots)
    requires exists i :: 0 <= i < |t.slots| && t.slots[i] == Live(key, p)
    ensures Lookup(Remove(t, key).slots, other) != Some(p)
  {
    var i :| 0 <= i < |t.slots| && t.slots[i] == Live(key, p);
    DistinctFind(t.slots, i, key);
    if Lookup(Remove(t, key).slots, other) == Some(p) {
      LookupIsEntry(Remove(t, key).slots, other);
    }
  }

  /** The slots when the purge has come to slot i. */
  function PurgedRow(heap: map<Ptr, Instance>, slots: seq<Slot<Ptr>>, i: nat): (r: seq<Slot<Ptr>>)
    requires (forall k :: 0 <= k < |slots| && slots[k].Live? ==> slots[k].value in heap) && i <= |slots|
    ensures |r| == |slots|
    ensures forall k :: 0 <= k < |slots| ==> r[k] == if k < i && slots[k].Live? && !heap[slots[k].value].valid then Empty else slots[k]
  {
    PurgedSlots(heap, slots[..i]) + slots[i..]
  }

  lemma RowNext(heap: map<Ptr, Instance>, slots: seq<Slot<Ptr>>, i: nat)
    requires (forall k :: 0 <= k < |slots| && slots[k].Live? ==> slots[k].value in heap) && i < |slots|
    ensures PurgedRow(heap, slots, i + 1) ==
            if slots[i].Live? && !heap[slots[i].value].valid then PurgedRow(heap, slots, i)[i := Empty] else PurgedRow(heap, slots, i)
  {
  }

  lemma RowSound(heap: map<Ptr, Instance>, a: AppPtr, slots: seq<Slot<Ptr>>, i: nat)
    requires Owned(heap, a, slots) && Distinct(slots) && Injective(slots) && i <= |slots|
    ensures Distinct(PurgedRow(heap, slots, i)) && Injective(PurgedRow(heap, slots, i))
  {
    var r := PurgedRow(heap, slots, i);
    forall k | 0 <= k < |r| && r[k].Live? ensures r[k] == slots[k] {
    }
  }

  /** The pool when the purge has come to slot i. */
  function PurgedUpTo(s: State, a: AppPtr, i: nat): State
    requires a in s.apps && Owned(s.heap, a, s.apps[a].table.slots) && i <= |s.apps[a].table.slots|
  {
    var t := s.apps[a].table;
    s.(heap := s.heap - Discarded(s.heap, t.slots[..i]),
       apps := s.apps[a := s.apps[a].(table := t.(slots := PurgedRow(s.heap, t.slots, i)))])
  }

  lemma DiscardedNext(heap: map<Ptr, Instance>, a: AppPtr, slots: seq<Slot<Ptr>>, i: nat)
    requires Owned(heap, a, slots) && i < |slots|
    ensures var slot := slots[i];
            Discarded(heap, slots[..i + 1]) ==
            Discarded(heap, slots[..i]) + if slot.Live? && !heap[slot.value].valid && heap[slot.value].inFlight == 0 then {slot.value} else {}
  {
    var done, next := slots[..i], slots[..i + 1];
    assert forall k :: 0 <= k < i ==> next[k] == done[k];
    assert next[i] == slots[i];
    forall p | p in Discarded(heap, done) ensures p in Discarded(heap, next) {
      var k :| 0 <= k < i && done[k].Live? && done[k].value == p && !heap[p].valid && heap[p].inFlight == 0;
      assert next[k] == done[k];
    }
  }

  lemma NotYetDiscarded(heap: map<Ptr, Instance>, a: AppPtr, slots: seq<Slot<Ptr>>, i: nat)
    requires Owned(heap, a, slots) && Injective(slots) && i < |slots| && slots[i].Live?
    ensures slots[i].value !in Discarded(heap, slots[..i])
  {
  }

  /** The entry at slot i is still there when the purge comes to it, and its record has not been freed. */
  lemma PurgeMeets(s: State, a: AppPtr, i: nat)
    requires a in s.apps && AppSound(s.heap, a, s.apps[a].table) && i < |s.apps[a].table.slots|
    ensures var m, slot := PurgedUpTo(s, a, i), s.apps[a].table.slots[i];
            && m.apps[a].table.slots[i] == slot
            && Distinct(m.apps[a].table.slots) && Injective(m.apps[a].table.slots)
            && (slot.Live? ==> slot.value in m.heap && m.heap[slot.value] == s.heap[slot.value])
  {
    RowSound(s.heap, a, s.apps[a].table.slots, i);
    if s.apps[a].table.slots[i].Live? {
      NotYetDiscarded(s.heap, a, s.apps[a].table.slots, i);
    }
  }

  lemma PurgeNext(s: State, a: AppPtr, i: nat)
    requires a in s.apps && AppSound(s.heap, a, s.apps[a].table) && i < |s.apps[a].table.slots|
    ensures var m, slot := PurgedUpTo(s, a, i), s.apps[a].table.slots[i];
            && (slot.Live? ==> slot.value in m.heap)
            && PurgedUpTo(s, a, i + 1) == if slot.Live? && !s.heap[slot.value].valid then WithoutEntry(m, a, slot.key, slot.value) else m
  {
    var m, m', slot := PurgedUpTo(s, a, i), PurgedUpTo(s, a, i + 1), s.apps[a].table.slots[i];
    PurgeMeets(s, a, i);
    RowNext(s.heap, s.apps[a].table.slots, i);
    DiscardedNext(s.heap, a, s.apps[a].table.slots, i);
    if slot.Live? && !s.heap[slot.value].valid {
      DistinctFind(m.apps[a].table.slots, i, slot.key);
      assert m'.heap == WithoutEntry(m, a, slot.key, slot.value).heap;
    } else {
      assert m'.heap == m.heap;
    }
  }

  lemma PurgeEnds(s: State, a: AppPtr)
    requires a in s.apps && AppSound(s.heap, a, s.apps[a].table)
    ensures PurgedUpTo(s, a, 0) == s
    ensures PurgedUpTo(s, a, |s.apps[a].table.slots|) == Purge(s, a)
  {
    var slots := s.apps[a].table.slots;
    assert PurgedRow(s.heap, slots, 0) == slots;
    assert s.heap - Discarded(s.heap, slots[..0]) == s.heap;
    assert slots[..|slots|] == slots;
    assert PurgedRow(s.heap, slots, |slots|) == PurgedSlots(s.heap, slots);
  }

  // ---------------------------------------------------------------- the pool

  class Adaptor {
    var heap: map<Ptr, Instance>
    var apps: map<AppPtr, App>
    var registry: Table<AppPtr>
    var refusals: Table<Refusal>

    ghost function State(): State
      reads this
    {
      Pool.State(heap, apps, registry, refusals)
    }

    constructor ()
      ensures State() == Pool.State(map[], map[], Table([], 16), Table([], 50))
    {
      heap, apps, registry, refusals := map[], map[], Table([], 16), Table([], 50);
    }

    /** The refusal check of both finds: a refusal whose time is over is lifted. */
    method MayTry(name: string, num: int, now: nat) returns (okay: bool)
      modifies this`refusals
      ensures refusals == LiftRefusal(old(refusals), name, num, now)
      ensures okay == !Refuses(old(refusals), name, num, now)
    {
      okay := true;
      var key := RefusalKey(name, num);
      var info := Lookup(refusals.slots, key);
      if info.Some? && info.value.refused {
        if now > info.value.until {
          refusals := SetValue(refusals, key, info.value.(refused := false));
        } else {
          okay := false;
        }
      }
    }

    /** The request is sent to the instance, which counts it. */
    method Take(req: AppRequest, p: Ptr)
      requires p in heap
      modifies this`heap, req
      ensures heap == old(heap)[p := old(heap)[p].(inFlight := old(heap)[p].inFlight + 1)]
      ensures req.State() == old(req.State()).(instance := heap[p].num, host := heap[p].host, port := heap[p].port,
                                               target := Some(p), holds := true)
    {
      req.instance, req.host, req.port := heap[p].num, heap[p].host, heap[p].port;
      req.target, req.holds := Some(p), true;
      heap := heap[p := heap[p].(inFlight := heap[p].inFlight + 1)];
    }

    /** The body of the search loop, once the index has moved on to p. */
    method TryInstance(req: AppRequest, a: AppPtr, p: Ptr, now: nat) returns (found: bool)
      requires p in heap && a in apps && !req.holds
      modifies this`heap, this`refusals, req
      ensures var inst := Revived(old(heap)[p], now);
              && found == req.holds == Taken(inst, old(refusals), old(req.name), req.hasHandlerKey, now)
              && refusals == RefusalsAfter(inst, old(refusals), old(req.name), req.hasHandlerKey, now)
              && heap == old(heap)[p := if found then inst.(inFlight := inst.inFlight + 1) else inst]
              && req.State() == if found then Sent(old(req.State()), apps[a].name, inst, p) else old(req.State())
    {
      found := false;
      if heap[p].retry != 0 && heap[p].retry < now {
        heap := heap[p := heap[p].(retry := 0)];
      }
      assert heap == old(heap)[p := Revived(old(heap)[p], now)];
      if heap[p].retry == 0 && heap[p].valid {
        var okay := true;
        if !req.hasHandlerKey {
          okay := MayTry(req.name, heap[p].num, now);
        }
        if okay {
          found := true;
          req.name := apps[a].name;
          Take(req, p);
        }
      }
    }

    /** GSWLoadBalancing_FindApp, after the configuration has been looked at. */
    method FindApp(req: AppRequest, now: nat) returns (found: bool)
      requires Sound(State()) && !req.holds
      modifies this`heap, this`apps, this`refusals, req
      ensures (State(), req.State()) == old(Pool.FindApp(State(), req.State(), now))
      ensures found == req.holds
    {
      found := false;
      var app := Lookup(registry.slots, req.name);
      if app.None? {
        return;
      }
      var a := app.value;
      LookupIsEntry(registry.slots, req.name);
      found := Search(req, a, now);
    }

    /** The loop body brings the search one turn further. */
    method SearchTurn(req: AppRequest, a: AppPtr, keys: seq<string>, now: nat, ghost s: State, ghost r: Request, ghost order: seq<Ptr>, ghost n: nat)
      returns (found: bool)
      requires Searched(s, r, a, order, n, now, State(), req.State()) && !r.holds && n < |order| && !req.holds
      requires a in apps && Distinct(apps[a].table.slots) && order == Order(apps[a].table.slots) && keys == AllKeys(apps[a].table.slots)
      modifies this`heap, this`apps, this`refusals, req
      ensures found == req.holds
      ensures a in apps && apps[a].table == old(apps)[a].table
      ensures Searched(s, r, a, order, n + 1, now, State(), req.State())
    {
      assert Look(0);
      ghost var m := State();
      found := Turn(req, a, keys, now);
      SearchingOn(s, r, a, order, n, now, m, State(), req.State());
    }

    /** The search loop. */
    method Search(req: AppRequest, a: AppPtr, now: nat) returns (found: bool)
      requires Sound(State()) && a in apps && !req.holds
      modifies this`heap, this`apps, this`refusals, req
      ensures var s, order := old(State()), Order(old(apps)[a].table.slots);
              && Allocated(s.heap, order)
              && State() == Pool.Search(s, a, order, old(req.name), req.hasHandlerKey, now)
              && var p := Pick(s, order, s.apps[a].lastIndex, old(req.name), req.hasHandlerKey, now);
                 && found == req.holds == p.Some?
                 && req.State() == if p.Some? then Sent(old(req.State()), s.apps[a].name, s.heap[p.value], p.value) else old(req.State())
    {
      ghost var s, r, slots := State(), req.State(), apps[a].table.slots;
      ghost var order := Order(slots);
      assert AppSound(heap, a, apps[a].table);
      OwnedOrder(heap, a, slots);
      var keys := AllKeys(apps[a].table.slots);
      var count, tries := |keys|, |keys|;
      found := false;
      ghost var n: nat := 0;
      SearchBegins(s, r, a, order, now);
      while !found && tries > 0
        invariant tries >= 0 && n + tries == count == |order| && found == req.holds
        invariant Searched(s, r, a, order, n, now, State(), req.State())
        invariant a in apps && apps[a].table.slots == slots
      {
        tries := tries - 1;
        found := SearchTurn(req, a, keys, now, s, r, order, n);
        n := n + 1;
      }
      SearchingOver(s, r, a, order, n, now, State(), req.State());
    }

    /** The loop body: the instance after the last one tried. */
    method Turn(req: AppRequest, a: AppPtr, keys: seq<string>, now: nat) returns (found: bool)
      requires a in apps && !req.holds && keys == AllKeys(apps[a].table.slots) && keys != []
      requires Distinct(apps[a].table.slots) && Allocated(heap, Order(apps[a].table.slots))
      modifies this`heap, this`apps, this`refusals, req
      ensures found == req.holds
      ensures a in apps && apps[a].table == old(apps)[a].table
      ensures IsTurn(old(State()), old(req.State()), a, Order(old(apps)[a].table.slots), now, State(), req.State())
    {
      var count := |keys|;
      apps := apps[a := apps[a].(lastIndex := (apps[a].lastIndex + 1) % count)];
      KeyFindsValue(apps[a].table.slots, apps[a].lastIndex);
      var p := Lookup(apps[a].table.slots, keys[apps[a].lastIndex]);
      found := false;
      if p.Some? {
        found := TryInstance(req, a, p.value, now);
      }
    }

    /** The instance asked for is taken unless it is invalid or refuses; its retry time is not looked at. */
    method TryNamed(req: AppRequest, p: Ptr, now: nat) returns (found: bool)
      requires p in heap && !req.holds
      modifies this`heap, this`refusals, req
      ensures (State(), req.State()) == old(FindKnown(State(), req.State(), p, now))
      ensures found == req.holds
    {
      found := false;
      if heap[p].valid {
        var okay := true;
        if !req.hasHandlerKey {
          okay := MayTry(req.name, heap[p].num, now);
        }
        if okay {
          found := true;
          Take(req, p);
        }
      }
    }

    /** GSWLoadBalancing_FindInstance, after the configuration has been looked at. */
    method FindInstance(req: AppRequest, now: nat) returns (found: bool)
      requires Sound(State()) && !req.holds
      modifies this`heap, this`apps, this`refusals, req
      ensures (State(), req.State()) == old(Pool.FindInstance(State(), req.State(), now))
      ensures found == req.holds
    {
      found := false;
      var app := Lookup(registry.slots, req.name);
      if app.Some? {
        var a := app.value;
        LookupIsEntry(registry.slots, req.name);
        assert AppSound(heap, a, apps[a].table);
        var instance := Lookup(apps[a].table.slots, ToDec(req.instance));
        if instance.None? {
          if apps[a].switchToKnown {
            found := FindApp(req, now);
          }
        } else {
          LookupIsEntry(apps[a].table.slots, ToDec(req.instance));
          found := TryNamed(req, instance.value, now);
        }
      }
    }

    // -------------------------------------------------------------- letting go

    /** GSWAppInstance_Free: unlinks the record if the entry for its number is itself. */
    method Free(p: Ptr)
      requires p in heap && heap[p].app in apps
      modifies this`heap, this`apps
      ensures State() == Pool.Free(old(State()), p)
    {
      var a, key := heap[p].app, ToDec(heap[p].num);
      if Lookup(apps[a].table.slots, key) == Some(p) {
        apps := apps[a := apps[a].(table := Remove(apps[a].table, key))];
      }
      heap := heap - {p};
    }

    /** GSWAppInstance_FreeIFND */
    method FreeIfNotDone(p: Ptr) returns (freed: bool)
      requires p in heap && heap[p].app in apps
      modifies this`heap, this`apps
      ensures State() == FreeIfIdle(old(State()), p) && freed == (old(heap)[p].inFlight == 0)
    {
      freed := heap[p].inFlight == 0;
      if freed {
        Free(p);
      }
    }

    /** GSWLoadBalancing_MarkNotRespondingApp */
    method MarkNotResponding(req: AppRequest, now: nat)
      requires req.target.Some? && req.target.value in heap && heap[req.target.value].app in apps
      modifies this`heap, this`apps, req`holds
      ensures State() == Mark(old(State()), req.target.value, now)
      ensures req.State() == old(req.State()).(holds := false)
    {
      var p := req.target.value;
      heap := heap[p := heap[p].(inFlight := heap[p].inFlight - 1)];
      heap := heap[p := heap[p].(notResponding := heap[p].notResponding + 1)];
      heap := heap[p := heap[p].(retry := now + APP_CONNECT_RETRY_DELAY)];
      req.holds := false;
      assert heap == old(heap)[p := heap[p]];
      if !heap[p].valid {
        var _ := FreeIfNotDone(p);
      }
    }

    /** GSWLoadBalancing_StartAppRequest */
    method StartAppRequest(req: AppRequest)
      requires req.target.Some? && req.target.value in heap
      modifies this`heap
      ensures State() == Start(old(State()), req.target.value)
    {
      var p := req.target.value;
      if heap[p].retry != 0 {
        heap := heap[p := heap[p].(retry := 0)];
      }
      assert heap == old(heap)[p := old(heap)[p].(retry := 0)];
    }

    /** GSWLoadBalancing_StopAppRequest */
    method StopAppRequest(req: AppRequest)
      requires req.target.Some? && req.target.value in heap && heap[req.target.value].app in apps
      modifies this`heap, this`apps, req`target, req`holds
      ensures State() == Stop(old(State()), old(req.target).value)
      ensures req.State() == old(req.State()).(target := None, holds := false)
    {
      var p := req.target.value;
      heap := heap[p := heap[p].(inFlight := heap[p].inFlight - 1)];
      heap := heap[p := heap[p].(handled := heap[p].handled + 1)];
      assert heap == old(heap)[p := heap[p]];
      if !heap[p].valid {
        var _ := FreeIfNotDone(p);
      }
      req.target, req.holds := None, false;
    }

    /** GSWAppInfo_Set */
    method SetAppInfo(name: string, num: int, isRefused: bool, now: nat)
      modifies this`refusals
      ensures State() == SetRefused(old(State()), name, num, isRefused, now)
    {
      var key := RefusalKey(name, num);
      var info := Lookup(refusals.slots, key);
      var record := info.GetOr(Refusal(false, 0)).(refused := isRefused);
      record := record.(until := now + REFUSAL_DELAY);
      if info.None? {
        refusals := Add(refusals, key, record);
      } else {
        refusals := SetValue(refusals, key, record);
      }
    }

    // -------------------------------------------------------------- reading the configuration

    /** GSWApp_InternClearInstances: GSWAppInstance_InternClear on each instance of one application. */
    method ClearInstances(a: AppPtr)
      requires a in apps && Owned(heap, a, apps[a].table.slots)
      modifies this`heap
      ensures heap == Invalidated(old(heap), Values(apps[a].table.slots))
    {
      var slots, i := apps[a].table.slots, 0;
      assert Values(slots[..0]) == {};
      while i < |slots|
        invariant i <= |slots| && heap == Invalidated(old(heap), Values(slots[..i]))
      {
        ValuesUpTo(slots, i);
        if slots[i].Live? {
          heap := heap[slots[i].value := heap[slots[i].value].(valid := false)];
        }
        i := i + 1;
      }
      assert slots[..i] == slots;
    }

    /** GSWApp_AppsClearInstances */
    method ClearAllInstances()
      requires Sound(State())
      modifies this`heap
      ensures State() == ClearAll(old(State()))
    {
      ghost var s := State();
      var slots, i := registry.slots, 0;
      while i < |slots|
        invariant i <= |slots| && heap == Invalidated(s.heap, ListedBy(s, i))
      {
        if slots[i].Live? {
          assert AppSound(s.heap, slots[i].value, apps[slots[i].value].table);
          ClearInstances(slots[i].value);
          InvalidatedTwice(s.heap, ListedBy(s, i), Values(apps[slots[i].value].table.slots));
        }
        ListedByNext(s, i);
        i := i + 1;
      }
      ListedByAll(s);
    }

    /** GSWConfig_PropListInstanceToInstance */
    method ConfigureInstance(p: Ptr, conf: InstanceConf)
      requires p in heap
      modifies this`heap
      ensures heap == old(heap)[p := Configured(old(heap)[p], conf)]
      ensures heap[p].valid && heap[p].retry == 0 && heap[p].num == Atoi(conf.key)
      ensures heap[p].host == if conf.host.Some? then conf.host else old(heap[p].host)
      ensures heap[p].port == if conf.port.Some? then conf.port.value else old(heap[p].port)
    {
      var host, port := heap[p].host, heap[p].port;
      if conf.host.Some? {
        host := conf.host;
      }
      if conf.port.Some? {
        port := conf.port.value;
      }
      heap := heap[p := heap[p].(valid := true, retry := 0, num := Atoi(conf.key), host := host, port := port)];
    }

    /** The body of the instance loop of GSWConfig_PropListApplicationToApplication. */
    method LoadOneInstance(a: AppPtr, conf: InstanceConf, env: Environment)
      requires a in apps && Owned(heap, a, apps[a].table.slots)
      modifies this`heap, this`apps
      ensures State() == LoadInstance(old(State()), a, conf, env)
    {
      var instance := Lookup(apps[a].table.slots, conf.key);
      var p := instance.GetOr(env.malloc(heap.Keys));
      if instance.None? {
        heap := heap[p := NewInstance(a)];
      } else {
        LookupIsEntry(apps[a].table.slots, conf.key);
      }
      ConfigureInstance(p, conf);
      if instance.None? {
        UpdatedTwice(old(heap), p, NewInstance(a), Configured(NewInstance(a), conf));
        apps := apps[a := apps[a].(table := Add(apps[a].table, conf.key, p))];
      }
    }

    method LoadAllInstances(a: AppPtr, confs: seq<InstanceConf>, env: Environment)
      requires a in apps && Owned(heap, a, apps[a].table.slots)
      modifies this`heap, this`apps
      ensures State() == LoadInstances(old(State()), a, confs, env)
    {
      var i := 0;
      while i < |confs|
        invariant i <= |confs| && a in apps && Owned(heap, a, apps[a].table.slots)
        invariant LoadInstances(State(), a, confs[i..], env) == LoadInstances(old(State()), a, confs, env)
      {
        assert confs[i..][0] == confs[i] && confs[i..][1..] == confs[i + 1..];
        LoadOneInstance(a, confs[i], env);
        i := i + 1;
      }
      assert confs[i..] == [];
    }

    /** GSWApp_InternFreeNotValidInstances: the entry goes, and the record with it unless requests hold it. */
    method FreeInvalid(a: AppPtr, key: string, p: Ptr)
      requires a in apps && p in heap && heap[p].app == a && !heap[p].valid
      requires Distinct(apps[a].table.slots) && Injective(apps[a].table.slots)
      requires exists i :: 0 <= i < |apps[a].table.slots| && apps[a].table.slots[i] == Live(key, p)
      modifies this`heap, this`apps
      ensures State() == WithoutEntry(old(State()), a, key, p)
    {
      apps := apps[a := apps[a].(table := Remove(apps[a].table, key))];
      RemovedIsUnlisted(old(apps)[a].table, key, p, ToDec(heap[p].num));
      var _ := FreeIfNotDone(p);
    }

    /** The loop body of GSWApp_FreeNotValidInstances. */
    method PurgeSlot(a: AppPtr, i: nat, ghost s: State)
      requires a in s.apps && AppSound(s.heap, a, s.apps[a].table) && i < |s.apps[a].table.slots|
      requires State() == PurgedUpTo(s, a, i)
      modifies this`heap, this`apps
      ensures State() == PurgedUpTo(s, a, i + 1)
    {
      PurgeMeets(s, a, i);
      PurgeNext(s, a, i);
      var elem := apps[a].table.slots[i];
      if elem.Live? && !heap[elem.value].valid {
        FreeInvalid(a, elem.key, elem.value);
      }
    }

    /** GSWApp_FreeNotValidInstances: visits every slot once, although entries disappear on the way. */
    method FreeNotValidInstances(a: AppPtr)
      requires Sound(State()) && a in apps
      modifies this`heap, this`apps
      ensures State() == Purge(old(State()), a)
    {
      ghost var s := State();
      assert AppSound(heap, a, apps[a].table);
      PurgeEnds(s, a);
      var count, i := |apps[a].table.slots|, 0;
      while i < count
        invariant i <= count && State() == PurgedUpTo(s, a, i)
      {
        PurgeSlot(a, i, s);
        i := i + 1;
      }
    }

    /** GSWConfig_PropListApplicationToApplication */
    method ReadApplication(a: AppPtr, conf: AppConf, env: Environment)
      requires Sound(State()) && a in apps && Allocates(env)
      modifies this`heap, this`apps
      ensures State() == LoadAppRecord(old(State()), a, conf, env)
    {
      NamedIsSound(State(), a, apps[a].(name := conf.name, switchToKnown := conf.switchToKnown, unavailableUntil := conf.unavailableUntil));
      apps := apps[a := apps[a].(name := conf.name, switchToKnown := conf.switchToKnown, unavailableUntil := conf.unavailableUntil)];
      LoadInstancesSound(State(), a, conf.instances, env);
      LoadAllInstances(a, conf.instances, env);
      FreeNotValidInstances(a);
      apps := apps[a := apps[a].(lastIndex := env.draw(Count(apps[a].table.slots)))];
    }

    /** The body of the application loop of GSWConfig_LoadConfiguration. */
    method LoadApplication(conf: AppConf, env: Environment)
      requires Sound(State()) && Allocates(env)
      modifies this`heap, this`apps, this`registry
      ensures State() == LoadApp(old(State()), conf, env)
    {
      var app := Lookup(registry.slots, conf.name);
      var a := app.GetOr(env.malloc(apps.Keys));
      if app.None? {
        NewAppIsSound(State(), a);
        apps := apps[a := EMPTY_APP];
      } else {
        LookupIsEntry(registry.slots, conf.name);
      }
      ReadApplication(a, conf, env);
      if Count(apps[a].table.slots) == 0 {
        if app.Some? {
          registry := Remove(registry, conf.name);
        }
      } else if app.None? {
        registry := Add(registry, conf.name, a);
      }
    }

    /** GSWConfig_LoadConfiguration when the file has changed. */
    method LoadConfiguration(confs: seq<AppConf>, env: Environment)
      requires Sound(State()) && Allocates(env)
      modifies this`heap, this`apps, this`registry
      ensures State() == Reload(old(State()), confs, env)
    {
      ClearAllSound(State());
      ClearAllInstances();
      ghost var result := LoadApps(State(), confs, env);
      var i := 0;
      while i < |confs|
        invariant i <= |confs| && Sound(State()) && LoadApps(State(), confs[i..], env) == result
      {
        assert confs[i..][0] == confs[i] && confs[i..][1..] == confs[i + 1..];
        LoadAppSound(State(), confs[i], env);
        LoadApplication(confs[i], env);
        i := i + 1;
      }
      assert confs[i..] == [];
    }
  }
}
