/** Round robin: which instance a find picks, and that over many finds everyone gets a turn. */
module FindLaws {
  import opened Wrappers
  import opened CStrings
  import opened SlotTables
  import opened Pool
  import opened Config
  import opened PoolInvariant

  // ---------------------------------------------------------------- the refusal table

  /** Writing through a lookup changes the value of that entry only. */
  lemma {:induction false} LookupAfterSetValue<V>(t: Table<V>, key: string, value: V, k: string)
    ensures FindKey(SetValue(t, key, value).slots, k) == FindKey(t.slots, k)
    ensures Lookup(SetValue(t, key, value).slots, k) ==
            if FindKey(t.slots, key).Some? && FindKey(t.slots, k) == FindKey(t.slots, key) then Some(value) else Lookup(t.slots, k)
  {
    var s, s' := t.slots, SetValue(t, key, value).slots;
    assert |s| == |s'| && forall j :: 0 <= j < |s| ==> Matches(s'[j], k) == Matches(s[j], k);
    match FindKey(s, k)
    case None => NoMatch(s', k);
    case Some(m) => FirstMatch(s', k, m);
  }

  /** The same instances refuse from now on. */
  ghost predicate RefusalsKept(before: Table<Refusal>, after: Table<Refusal>, now: nat) {
    forall name, num, t: nat {:trigger Refuses(after, name, num, t)} :: t >= now ==> Refuses(after, name, num, t) == Refuses(before, name, num, t)
  }

  /** Lifting a refusal that is over changes no later answer. */
  lemma LiftKeepsRefusals(refusals: Table<Refusal>, name: string, num: int, now: nat)
    ensures RefusalsKept(refusals, LiftRefusal(refusals, name, num, now), now)
  {
    var key := RefusalKey(name, num);
    forall other, n, t: nat | t >= now
      ensures Refuses(LiftRefusal(refusals, name, num, now), other, n, t) == Refuses(refusals, other, n, t)
    {
      if Lookup(refusals.slots, key).Some? {
        LookupAfterSetValue(refusals, key, Lookup(refusals.slots, key).value.(refused := false), RefusalKey(other, n));
      }
    }
  }

  // ---------------------------------------------------------------- what a find changes

  function Counted(inst: Instance, picked: bool): Instance {
    if picked then inst.(inFlight := inst.inFlight + 1) else inst
  }

  /** Records are as before except that dead ones whose time is over may be alive again,
      and the picked one is counted. */
  ghost predicate FindEffect(s: State, s': State, picked: Option<Ptr>, now: nat) {
    && SameShape(s, s')
    && (forall q :: q in s.heap ==>
          || s'.heap[q] == Counted(s.heap[q], picked == Some(q))
          || s'.heap[q] == Counted(Revived(s.heap[q], now), picked == Some(q)))
    && RefusalsKept(s.refusals, s'.refusals, now)
  }

  /** None of these changes makes an instance more or less eligible, now or later. */
  lemma EffectKeepsEligibility(s: State, s': State, picked: Option<Ptr>, now: nat, p: Ptr, name: string, hasHandlerKey: bool, t: nat)
    requires FindEffect(s, s', picked, now) && p in s.heap && t >= now
    ensures Eligible(s', p, name, hasHandlerKey, t) == Eligible(s, p, name, hasHandlerKey, t)
  {
    assert Refuses(s'.refusals, name, s.heap[p].num, t) == Refuses(s.refusals, name, s.heap[p].num, t);
  }

  lemma {:induction false} LiftedKeepsRefusals(s: State, tried: seq<Ptr>, name: string, hasHandlerKey: bool, now: nat)
    requires Allocated(s.heap, tried)
    ensures RefusalsKept(s.refusals, Lifted(s, tried, name, hasHandlerKey, now), now)
    decreases |tried|
  {
    if tried != [] {
      var n := |tried| - 1;
      LiftedKeepsRefusals(s, tried[..n], name, hasHandlerKey, now);
      OneLift(s.refusals, Lifted(s, tried[..n], name, hasHandlerKey, now), Lifted(s, tried, name, hasHandlerKey, now), name, s.heap[tried[n]].num, now);
    }
  }

  lemma OneLift(r: Table<Refusal>, before: Table<Refusal>, after: Table<Refusal>, name: string, num: int, now: nat)
    requires RefusalsKept(r, before, now)
    requires after == before || after == LiftRefusal(before, name, num, now)
    ensures RefusalsKept(r, after, now)
  {
    LiftKeepsRefusals(before, name, num, now);
    KeptTrans(r, before, after, now);
  }

  lemma KeptTrans(r: Table<Refusal>, r': Table<Refusal>, r'': Table<Refusal>, now: nat)
    requires RefusalsKept(r, r', now) && (r'' == r' || RefusalsKept(r', r'', now))
    ensures RefusalsKept(r, r'', now)
  {
    forall name, num, t: nat | t >= now ensures Refuses(r'', name, num, t) == Refuses(r, name, num, t) {
      assert Refuses(r', name, num, t) == Refuses(r, name, num, t);
    }
  }

  lemma TurnsEffect(s: State, a: AppPtr, order: seq<Ptr>, n: nat, name: string, hasHandlerKey: bool, now: nat)
    requires a in s.apps && Allocated(s.heap, order) && n <= |order|
    ensures FindEffect(s, AfterTurns(s, a, order, n, name, hasHandlerKey, now), None, now)
  {
    LiftedKeepsRefusals(s, Tried(order, s.apps[a].lastIndex, n), name, hasHandlerKey, now);
  }

  lemma CountEffect(s: State, m: State, p: Ptr, now: nat)
    requires FindEffect(s, m, None, now) && p in m.heap
    ensures FindEffect(s, CountOpen(m, p), Some(p), now)
  {
  }

  /** The effect of a search, whatever it finds. */
  lemma SearchEffect(s: State, a: AppPtr, order: seq<Ptr>, name: string, hasHandlerKey: bool, now: nat)
    requires a in s.apps && Allocated(s.heap, order)
    ensures FindEffect(s, Search(s, a, order, name, hasHandlerKey, now), Pick(s, order, s.apps[a].lastIndex, name, hasHandlerKey, now), now)
  {
    var last := s.apps[a].lastIndex;
    var n := Turns(s, order, last, name, hasHandlerKey, now);
    TurnsEffect(s, a, order, n, name, hasHandlerKey, now);
    if Pick(s, order, last, name, hasHandlerKey, now).Some? {
      CountEffect(s, AfterTurns(s, a, order, n, name, hasHandlerKey, now), Pick(s, order, last, name, hasHandlerKey, now).value, now);
    }
  }

  // ---------------------------------------------------------------- the cyclic order

  lemma ModOfSum(x: nat, y: nat, n: nat)
    requires n > 0
    ensures (x % n + y) % n == (x + y) % n
  {
    ModMultiple(x / n, x % n + y, n);
    assert x + y == n * (x / n) + (x % n + y);
  }

  lemma {:induction false} ModMultiple(q: nat, z: nat, n: nat)
    requires n > 0
    ensures (n * q + z) % n == z % n
  {
    if q > 0 {
      ModMultiple(q - 1, z, n);
      assert n * q + z == (n * (q - 1) + z) + n;
      ModPlusOnce(n * (q - 1) + z, n);
    }
  }

  lemma ModPlusOnce(z: nat, n: nat)
    requires n > 0
    ensures (z + n) % n == z % n
  {
    assert z + n == (z / n + 1) * n + z % n;
    DivModUnique(z + n, n, z / n + 1, z % n);
  }

  lemma DivModUnique(x: nat, n: nat, q: nat, r: nat)
    requires n > 0 && r < n && x == q * n + r
    ensures x % n == r
  {
    var d := x / n - q;
    assert d * n == r - x % n by {
      assert x == (x / n) * n + x % n;
      assert d * n == (x / n) * n - q * n;
    }
    MultipleIsFar(d, n);
  }

  lemma MultipleIsFar(d: int, n: int)
    requires n > 0
    ensures d >= 1 ==> d * n >= n
    ensures d <= -1 ==> d * n <= -n
  {
  }

  lemma ModSmall(z: nat, n: nat)
    requires 0 < n && z < 2 * n
    ensures z % n == if z < n then z else z - n
  {
    if z >= n {
      ModPlusOnce(z - n, n);
    }
  }

  /** Every index lies at exactly one distance below n. */
  lemma CycleCovers(last: nat, i: nat, n: nat) returns (j: nat)
    requires i < n
    ensures j < n && (last + 1 + j) % n == i
  {
    var r := (last + 1) % n;
    j := if i >= r then i - r else i + n - r;
    ModOfSum(last + 1, j, n);
    ModSmall(r + j, n);
  }

  lemma CycleIsInjective(last: nat, j: nat, k: nat, n: nat)
    requires j < n && k < n && (last + 1 + j) % n == (last + 1 + k) % n
    ensures j == k
  {
    var r := (last + 1) % n;
    ModOfSum(last + 1, j, n);
    ModOfSum(last + 1, k, n);
    ModSmall(r + j, n);
    ModSmall(r + k, n);
  }

  // ---------------------------------------------------------------- which instance a find picks

  /** A find succeeds exactly when some instance is eligible, and it picks the first one in cyclic order. */
  lemma PicksFirstEligible(s: State, order: seq<Ptr>, last: nat, name: string, hasHandlerKey: bool, now: nat) returns (k: nat)
    requires Allocated(s.heap, order)
    ensures var r := Pick(s, order, last, name, hasHandlerKey, now);
            && (r.Some? <==> exists i :: 0 <= i < |order| && Eligible(s, order[i], name, hasHandlerKey, now))
            && (r.Some? ==>
                  && k < |order| && r == Some(InCycle(order, last, k))
                  && Eligible(s, InCycle(order, last, k), name, hasHandlerKey, now)
                  && forall j :: 0 <= j < k ==> !Eligible(s, InCycle(order, last, j), name, hasHandlerKey, now))
  {
    k := FirstEligible(s, order, last, 0, name, hasHandlerKey, now);
    if k < |order| {
      assert Eligible(s, order[(last + 1 + k) % |order|], name, hasHandlerKey, now);
    } else {
      forall i | 0 <= i < |order| ensures !Eligible(s, order[i], name, hasHandlerKey, now) {
        var j := CycleCovers(last, i, |order|);
        assert !Eligible(s, InCycle(order, last, j), name, hasHandlerKey, now);
      }
    }
  }

  /** The index ends up on the instance picked, and in range whatever it was before. */
  lemma IndexOnPick(s: State, order: seq<Ptr>, last: nat, name: string, hasHandlerKey: bool, now: nat)
    requires Allocated(s.heap, order) && order != []
    ensures var index := IndexAfter(order, last, Turns(s, order, last, name, hasHandlerKey, now));
            && index < |order|
            && (Pick(s, order, last, name, hasHandlerKey, now).Some? ==> Pick(s, order, last, name, hasHandlerKey, now) == Some(order[index]))
  {
  }

  /** The request carries number and address of the instance. */
  predicate SentTo(req: Request, inst: Instance) {
    req.instance == inst.num && req.host == inst.host && req.port == inst.port
  }

  /** What a client of the load balancer sees of this. */
  lemma FindAppIsPick(s: State, req: Request, now: nat, a: AppPtr)
    requires Sound(s) && !req.holds && Lookup(s.registry.slots, req.name) == Some(a)
    ensures a in s.apps && Allocated(s.heap, Order(s.apps[a].table.slots))
    ensures FindApp(s, req, now).0 == Search(s, a, Order(s.apps[a].table.slots), req.name, req.hasHandlerKey, now)
    ensures var r, picked := FindApp(s, req, now).1, Pick(s, Order(s.apps[a].table.slots), s.apps[a].lastIndex, req.name, req.hasHandlerKey, now);
            if picked.Some? then r.holds && r.target == picked && SentTo(r, s.heap[picked.value]) && r.name == s.apps[a].name else r == req
  {
    LookupIsEntry(s.registry.slots, req.name);
    assert AppSound(s.heap, a, s.apps[a].table);
    OwnedOrder(s.heap, a, s.apps[a].table.slots);
  }

  lemma FindAppEffect(s: State, req: Request, now: nat)
    requires Sound(s) && !req.holds
    ensures var r := FindApp(s, req, now); FindEffect(s, r.0, if r.1.holds then r.1.target else None, now)
  {
    match Lookup(s.registry.slots, req.name)
    case None =>
    case Some(a) =>
      FindAppIsPick(s, req, now, a);
      SearchEffect(s, a, Order(s.apps[a].table.slots), req.name, req.hasHandlerKey, now);
  }

  lemma FindInstanceEffect(s: State, req: Request, now: nat)
    requires Sound(s) && !req.holds
    ensures var r := FindInstance(s, req, now); FindEffect(s, r.0, if r.1.holds then r.1.target else None, now)
  {
    match Lookup(s.registry.slots, req.name)
    case None =>
    case Some(a) =>
      LookupIsEntry(s.registry.slots, req.name);
      if Lookup(s.apps[a].table.slots, ToDec(req.instance)) == None {
        FindAppEffect(s, req, now);
      } else {
        KnownInstanceEffect(s, req, now, a);
      }
  }

  lemma KnownInstanceEffect(s: State, req: Request, now: nat, a: AppPtr)
    requires Sound(s) && !req.holds && Lookup(s.registry.slots, req.name) == Some(a) && a in s.apps
    requires Lookup(s.apps[a].table.slots, ToDec(req.instance)).Some?
    ensures var r := FindInstance(s, req, now); FindEffect(s, r.0, if r.1.holds then r.1.target else None, now)
  {
    assert AppSound(s.heap, a, s.apps[a].table);
    LookupIsEntry(s.apps[a].table.slots, ToDec(req.instance));
    NamedEffect(s, req, now, Lookup(s.apps[a].table.slots, ToDec(req.instance)).value);
  }

  /** Looking at the refusal of one instance, and counting it or not. */
  lemma NamedEffect(s: State, req: Request, now: nat, p: Ptr)
    requires p in s.heap
    ensures FindEffect(s, s, None, now)
    ensures var looked := if req.hasHandlerKey then s else s.(refusals := LiftRefusal(s.refusals, req.name, s.heap[p].num, now));
            FindEffect(s, looked, None, now) && FindEffect(s, CountOpen(looked, p), Some(p), now)
  {
    LiftKeepsRefusals(s.refusals, req.name, s.heap[p].num, now);
  }

  /** A find by number succeeds exactly when the instance is valid and does not refuse the session;
      its retry time is not looked at. Only an unknown number may lead to another instance. */
  lemma NamedFind(s: State, req: Request, now: nat, a: AppPtr)
    requires Sound(s) && !req.holds && Lookup(s.registry.slots, req.name) == Some(a)
    ensures a in s.apps
    ensures var entry, r := Lookup(s.apps[a].table.slots, ToDec(req.instance)), FindInstance(s, req, now);
            if entry.Some? then
              && entry.value in s.heap
              && (r.1.holds <==> s.heap[entry.value].valid &&
                                 (req.hasHandlerKey || !Refuses(s.refusals, req.name, s.heap[entry.value].num, now)))
              && (r.1.holds ==> r.1.target == entry && SentTo(r.1, s.heap[entry.value]))
            else if s.apps[a].switchToKnown then r == FindApp(s, req, now)
            else r == (s, req)
  {
    LookupIsEntry(s.registry.slots, req.name);
    assert AppSound(s.heap, a, s.apps[a].table);
    if Lookup(s.apps[a].table.slots, ToDec(req.instance)).Some? {
      LookupIsEntry(s.apps[a].table.slots, ToDec(req.instance));
    }
  }

  // ---------------------------------------------------------------- fairness

  /** One find on an application, in the state the pool has by then. */
  datatype Find = Find(before: State, last: nat, name: string, hasHandlerKey: bool, now: nat)

  /** Finds on an unchanging list of instances; between two of them anything may happen to the pool
      as long as the list and its index stay as they are. */
  ghost predicate Consecutive(finds: seq<Find>, order: seq<Ptr>) {
    && order != []
    && (forall i :: 0 <= i < |finds| ==> Allocated(finds[i].before.heap, order))
    && (forall i, j :: 0 <= i && j == i + 1 && j < |finds| ==> finds[j].last == NextIndex(finds[i], order))
  }

  ghost function Picked(find: Find, order: seq<Ptr>): Option<Ptr>
    requires Allocated(find.before.heap, order)
  {
    Pick(find.before, order, find.last, find.name, find.hasHandlerKey, find.now)
  }

  ghost function NextIndex(find: Find, order: seq<Ptr>): nat
    requires Allocated(find.before.heap, order)
  {
    IndexAfter(order, find.last, Turns(find.before, order, find.last, find.name, find.hasHandlerKey, find.now))
  }

  ghost predicate EligibleAt(find: Find, p: Ptr) {
    p in find.before.heap && Eligible(find.before, p, find.name, find.hasHandlerKey, find.now)
  }

  ghost predicate AllEligible(finds: seq<Find>, order: seq<Ptr>) {
    forall f, j :: 0 <= f < |finds| && 0 <= j < |order| ==> EligibleAt(finds[f], order[j])
  }

  /** A find that meets an eligible instance at some distance picks there or earlier, and then the
      index has moved on by one more than the distance of the pick. */
  lemma PickWithin(find: Find, order: seq<Ptr>, distance: nat) returns (k: nat)
    requires Allocated(find.before.heap, order) && distance < |order|
    requires EligibleAt(find, InCycle(order, find.last, distance))
    ensures k <= distance && Picked(find, order) == Some(InCycle(order, find.last, k))
    ensures NextIndex(find, order) == (find.last + 1 + k) % |order|
  {
    k := FirstEligible(find.before, order, find.last, 0, find.name, find.hasHandlerKey, find.now);
  }

  lemma NextTurn(first: nat, i: nat, previous: nat, last: nat, n: nat)
    requires n > 0 && last == (previous + 1) % n == (first + i) % n
    ensures (last + 1) % n == (first + 1 + i) % n
  {
    ModOfSum(first + i, 1, n);
  }

  lemma {:induction false} IndexInOrder(finds: seq<Find>, order: seq<Ptr>, i: nat)
    requires Consecutive(finds, order) && i < |finds| && AllEligible(finds, order)
    ensures (finds[i].last + 1) % |order| == (finds[0].last + 1 + i) % |order|
    decreases i
  {
    if i > 0 {
      IndexInOrder(finds, order, i - 1);
      OneTurnEach(finds, order, i);
      NextTurn(finds[0].last, i, finds[i - 1].last, finds[i].last, |order|);
    }
  }

  lemma OneTurnEach(finds: seq<Find>, order: seq<Ptr>, i: nat)
    requires Consecutive(finds, order) && 0 < i < |finds| && AllEligible(finds, order)
    ensures finds[i].last == (finds[i - 1].last + 1) % |order|
  {
    var find := finds[i - 1];
    assert EligibleAt(find, InCycle(order, find.last, 0));
    var k := PickWithin(find, order, 0);
    assert finds[i].last == NextIndex(find, order);
  }

  /** When every instance stays eligible, the i-th find picks the instance at distance i. */
  lemma TurnsInOrder(finds: seq<Find>, order: seq<Ptr>, i: nat)
    requires Consecutive(finds, order) && i < |finds| && AllEligible(finds, order)
    ensures Picked(finds[i], order) == Some(InCycle(order, finds[0].last, i))
  {
    IndexInOrder(finds, order, i);
    var k := PickWithin(finds[i], order, 0);
  }

  lemma InCycleIsInjective(order: seq<Ptr>, last: nat, j: nat, k: nat)
    requires j < |order| && k < |order| && InCycle(order, last, j) == InCycle(order, last, k)
    requires forall k, m :: 0 <= k < m < |order| ==> order[k] != order[m]
    ensures j == k
  {
    CycleIsInjective(last, j, k, |order|);
  }

  /** Any n consecutive finds on n eligible instances pick each of them exactly once. */
  lemma EachExactlyOnce(finds: seq<Find>, order: seq<Ptr>, j: nat) returns (i: nat)
    requires Consecutive(finds, order) && j < |order| == |finds| && AllEligible(finds, order)
    requires forall k, m :: 0 <= k < m < |order| ==> order[k] != order[m]
    ensures i < |finds| && Picked(finds[i], order) == Some(order[j])
    ensures forall f :: 0 <= f < |finds| && Picked(finds[f], order) == Some(order[j]) ==> f == i
  {
    i := CycleCovers(finds[0].last, j, |order|);
    TurnsInOrder(finds, order, i);
    var here := InCycle(order, finds[0].last, i);
    assert here == order[j];
    forall f | 0 <= f < |finds| && Picked(finds[f], order) == Some(order[j]) ensures f == i {
      TurnsInOrder(finds, order, f);
      assert InCycle(order, finds[0].last, f) == here;
      InCycleIsInjective(order, finds[0].last, f, i);
    }
  }

  lemma LaterFinds(finds: seq<Find>, order: seq<Ptr>, j: nat)
    requires Consecutive(finds, order) && |finds| > 1 && j < |order|
    requires forall f :: 0 <= f < |finds| ==> EligibleAt(finds[f], order[j])
    ensures Consecutive(finds[1..], order) && finds[1].last == NextIndex(finds[0], order)
    ensures forall f :: 0 <= f < |finds[1..]| ==> EligibleAt(finds[1..][f], order[j])
  {
    assert forall m :: 0 <= m < |finds[1..]| ==> finds[1..][m] == finds[m + 1];
  }

  lemma ComesNearer(last: nat, next: nat, k: nat, distance: nat, n: nat)
    requires n > 0 && k < distance && next == (last + 1 + k) % n
    ensures (next + 1 + (distance - k - 1)) % n == (last + 1 + distance) % n
  {
    ModOfSum(last + 1 + k, distance - k, n);
  }

  /** A find that picks at distance k leaves the instance nearer by k + 1. */
  lemma NearerByPick(finds: seq<Find>, order: seq<Ptr>, distance: nat, k: nat)
    requires Consecutive(finds, order) && |finds| > 1 && k < distance
    requires NextIndex(finds[0], order) == (finds[0].last + 1 + k) % |order|
    ensures (finds[1].last + 1 + (distance - k - 1)) % |order| == (finds[0].last + 1 + distance) % |order|
  {
    assert finds[1].last == NextIndex(finds[0], order);
    ComesNearer(finds[0].last, finds[1].last, k, distance, |order|);
  }

  /** One instance known to stay eligible is picked before its turn in the cycle is over:
      each find that picks another one brings it nearer. */
  lemma {:induction false} PickedInTime(finds: seq<Find>, order: seq<Ptr>, j: nat, distance: nat) returns (i: nat)
    requires Consecutive(finds, order) && distance < |finds| && distance < |order| && j < |order|
    requires forall f :: 0 <= f < |finds| ==> EligibleAt(finds[f], order[j])
    requires (finds[0].last + 1 + distance) % |order| == j
    ensures i <= distance && Picked(finds[i], order) == Some(order[j])
    decreases distance
  {
    assert EligibleAt(finds[0], InCycle(order, finds[0].last, distance));
    var k := PickWithin(finds[0], order, distance);
    if k == distance {
      i := 0;
    } else {
      LaterFinds(finds, order, j);
      NearerByPick(finds, order, distance, k);
      var i' := PickedInTime(finds[1..], order, j, distance - k - 1);
      assert finds[1..][i'] == finds[i' + 1];
      i := i' + 1;
    }
  }

  lemma PickedWithinACycle(finds: seq<Find>, order: seq<Ptr>, j: nat) returns (i: nat)
    requires Consecutive(finds, order) && j < |order| == |finds|
    requires forall f :: 0 <= f < |finds| ==> EligibleAt(finds[f], order[j])
    ensures i < |finds| && Picked(finds[i], order) == Some(order[j])
  {
    var distance := CycleCovers(finds[0].last, j, |order|);
    i := PickedInTime(finds, order, j, distance);
  }
}
