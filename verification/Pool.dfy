/**
 The pool of applications and instances, and the atomic operations of the load balancer.

 Memory is explicit: an instance record lives in `heap` under its address from GSWAppInstance_New
 until GSWAppInstance_Free removes it. A use of a freed record would be a lookup outside the map,
 and an entry or a request that still names a freed address is visible as dangling.
 */
module Pool {
  import opened Wrappers
  import opened CStrings
  import opened SlotTables

  const APP_CONNECT_RETRY_DELAY: nat := 3
  const REFUSAL_DELAY: nat := 10
  const REFUSAL_NAME_MAX: nat := 45

  type Ptr = nat
  type AppPtr = nat

  /** GSWAppInstance */
  datatype Instance = Instance(
    app: AppPtr, num: CInt, host: Option<string>, port: CInt,
    retry: nat,            // timeNextRetryTime; 0 means alive
    inFlight: int,           // uOpenedRequestsNb
    handled: nat,          // uHandledRequestsNb
    notResponding: nat,    // uNotRespondingRequestsNb
    valid: bool)           // fValid

  /** GSWApp */
  datatype App = App(name: string, table: Table<Ptr>, lastIndex: nat, switchToKnown: bool, unavailableUntil: nat)

  /** GSWAppInfo */
  datatype Refusal = Refusal(refused: bool, until: nat)

  datatype State = State(
    heap: map<Ptr, Instance>,
    apps: map<AppPtr, App>,       // never deallocated here
    registry: Table<AppPtr>,      // g_pAppDict
    refusals: Table<Refusal>)     // _gswAppInfoDict

  /** GSWAppRequest; holds says that a find has counted this request on its target. */
  datatype Request = Request(name: string, instance: CInt, hasHandlerKey: bool,
                             host: Option<string>, port: CInt, target: Option<Ptr>, holds: bool)

  // ---------------------------------------------------------------- sound references

  /** No two live entries share a value. */
  ghost predicate Injective<V>(slots: seq<Slot<V>>) {
    forall i, j :: 0 <= i < j < |slots| && slots[i].Live? && slots[j].Live? ==> slots[i].value != slots[j].value
  }

  /** Every live entry of an application's dictionary is an allocated instance of that application. */
  ghost predicate Owned(heap: map<Ptr, Instance>, a: AppPtr, slots: seq<Slot<Ptr>>) {
    forall i :: 0 <= i < |slots| && slots[i].Live? ==> slots[i].value in heap && heap[slots[i].value].app == a
  }

  ghost predicate AppSound(heap: map<Ptr, Instance>, a: AppPtr, t: Table<Ptr>) {
    Fits(t) && Distinct(t.slots) && Injective(t.slots) && Owned(heap, a, t.slots)
  }

  ghost predicate RegistrySound(registry: Table<AppPtr>, apps: set<AppPtr>) {
    && Fits(registry) && Distinct(registry.slots) && Injective(registry.slots)
    && (forall i :: 0 <= i < |registry.slots| && registry.slots[i].Live? ==> registry.slots[i].value in apps)
  }

  /** Nothing refers to memory that has been freed. */
  ghost predicate Sound(s: State) {
    && (forall a :: a in s.apps ==> AppSound(s.heap, a, s.apps[a].table))
    && RegistrySound(s.registry, s.apps.Keys)
    && (forall p :: p in s.heap ==> s.heap[p].app in s.apps)
  }

  lemma LookupIsEntry<V>(slots: seq<Slot<V>>, key: string)
    requires Lookup(slots, key).Some?
    ensures exists i :: 0 <= i < |slots| && slots[i].Live? && slots[i].value == Lookup(slots, key).value && SameKey(slots[i].key, key)
  {
    var i := FindKey(slots, key).value;
    assert Matches(slots[i], key);
  }

  // ---------------------------------------------------------------- the refusal table

  /** GSWAppInfo_MakeDictKeyName: at most 45 characters of the name, then the number. */
  function RefusalKey(name: string, num: int): string {
    (if |name| > REFUSAL_NAME_MAX then name[..REFUSAL_NAME_MAX] else name) + ToDec(num)
  }

  /** A change made through the pointer a lookup returned. */
  function SetValue<V>(t: Table<V>, key: string, value: V): Table<V> {
    match FindKey(t.slots, key)
    case None => t
    case Some(i) => t.(slots := t.slots[i := Live(t.slots[i].key, value)])
  }

  /** The instance refuses new sessions and its time is not over yet. */
  predicate Refuses(refusals: Table<Refusal>, name: string, num: int, now: nat) {
    match Lookup(refusals.slots, RefusalKey(name, num))
    case None => false
    case Some(info) => info.refused && now <= info.until
  }

  /** A refusal whose time is over is lifted by the find that meets it. */
  function LiftRefusal(refusals: Table<Refusal>, name: string, num: int, now: nat): Table<Refusal> {
    var key := RefusalKey(name, num);
    match Lookup(refusals.slots, key)
    case None => refusals
    case Some(info) => if info.refused && now > info.until then SetValue(refusals, key, info.(refused := false)) else refusals
  }

  /** GSWAppInfo_Set */
  function SetRefused(s: State, name: string, num: int, isRefused: bool, now: nat): State {
    var key, info := RefusalKey(name, num), Refusal(isRefused, now + REFUSAL_DELAY);
    s.(refusals := if Lookup(s.refusals.slots, key).Some? then SetValue(s.refusals, key, info) else Add(s.refusals, key, info))
  }

  // ---------------------------------------------------------------- finding an instance

  /** An instance marked dead comes back once its retry time has passed. */
  function Revived(inst: Instance, now: nat): Instance {
    if inst.retry != 0 && inst.retry < now then inst.(retry := 0) else inst
  }

  /** Whether a find at this time may pick the instance. */
  predicate Eligible(s: State, p: Ptr, name: string, hasHandlerKey: bool, now: nat)
    requires p in s.heap
  {
    && s.heap[p].valid
    && (s.heap[p].retry == 0 || s.heap[p].retry < now)
    && (hasHandlerKey || !Refuses(s.refusals, name, s.heap[p].num, now))
  }

  // ---------------------------------------------------------------- round robin

  ghost predicate Allocated(heap: map<Ptr, Instance>, order: seq<Ptr>) {
    forall j :: 0 <= j < |order| ==> order[j] in heap
  }

  /** The instances of an application are allocated and its own. */
  lemma OwnedOrder(heap: map<Ptr, Instance>, a: AppPtr, slots: seq<Slot<Ptr>>)
    requires Owned(heap, a, slots)
    ensures Allocated(heap, Order(slots))
    ensures forall j :: 0 <= j < |Order(slots)| ==> heap[Order(slots)[j]].app == a
  {
    forall j | 0 <= j < |Order(slots)| ensures Order(slots)[j] in heap && heap[Order(slots)[j]].app == a {
      var i := SlotOfEntry(slots, j);
    }
  }

  /** The instance at distance j after the last one tried, in slot order and around the end. */
  function InCycle(order: seq<Ptr>, lastIndex: nat, j: nat): Ptr
    requires order != []
  {
    order[(lastIndex + 1 + j) % |order|]
  }

  /** The distance of the first eligible instance, at least j, or the number of instances. */
  function FirstEligible(s: State, order: seq<Ptr>, lastIndex: nat, j: nat, name: string, hasHandlerKey: bool, now: nat): (k: nat)
    requires Allocated(s.heap, order) && j <= |order|
    ensures j <= k <= |order|
    ensures k < |order| ==> Eligible(s, InCycle(order, lastIndex, k), name, hasHandlerKey, now)
    ensures forall i :: j <= i < k ==> !Eligible(s, InCycle(order, lastIndex, i), name, hasHandlerKey, now)
    decreases |order| - j
  {
    if j == |order| || Eligible(s, InCycle(order, lastIndex, j), name, hasHandlerKey, now) then j
    else FirstEligible(s, order, lastIndex, j + 1, name, hasHandlerKey, now)
  }

  /** How many turns the search loop takes: up to the first eligible instance, or through all of them. */
  function Turns(s: State, order: seq<Ptr>, lastIndex: nat, name: string, hasHandlerKey: bool, now: nat): (n: nat)
    requires Allocated(s.heap, order)
    ensures n <= |order|
  {
    var k := FirstEligible(s, order, lastIndex, 0, name, hasHandlerKey, now);
    if k < |order| then k + 1 else k
  }

  /** The instance the search ends on. */
  function Pick(s: State, order: seq<Ptr>, lastIndex: nat, name: string, hasHandlerKey: bool, now: nat): (p: Option<Ptr>)
    requires Allocated(s.heap, order)
    ensures p.Some? ==> p.value in s.heap
  {
    var k := FirstEligible(s, order, lastIndex, 0, name, hasHandlerKey, now);
    if k < |order| then Some(InCycle(order, lastIndex, k)) else None
  }

  /** Where the index is after n turns. */
  function IndexAfter(order: seq<Ptr>, lastIndex: nat, n: nat): nat
    requires n <= |order|
  {
    if n == 0 then lastIndex else (lastIndex + n) % |order|
  }

  /** The instances tried in the first n turns. */
  function Tried(order: seq<Ptr>, lastIndex: nat, n: nat): (tried: seq<Ptr>)
    requires n <= |order|
    ensures |tried| == n
    ensures forall j :: 0 <= j < n ==> tried[j] == InCycle(order, lastIndex, j) && tried[j] in order
  {
    seq(n, j requires 0 <= j < n => InCycle(order, lastIndex, j))
  }

  /** The refusals whose time is over are lifted for the live, valid instances tried. */
  function Lifted(s: State, tried: seq<Ptr>, name: string, hasHandlerKey: bool, now: nat): Table<Refusal>
    requires Allocated(s.heap, tried)
  {
    if tried == [] then s.refusals
    else
      var n := |tried| - 1;
      var before := Lifted(s, tried[..n], name, hasHandlerKey, now);
      var inst := Revived(s.heap[tried[n]], now);
      if inst.retry == 0 && inst.valid && !hasHandlerKey then LiftRefusal(before, name, inst.num, now) else before
  }

  /** The instances tried come back if their retry time has passed. */
  function RevivedAmong(heap: map<Ptr, Instance>, tried: seq<Ptr>, now: nat): map<Ptr, Instance> {
    map p | p in heap :: if p in tried then Revived(heap[p], now) else heap[p]
  }

  /** The pool after n turns of the search loop. */
  function AfterTurns(s: State, a: AppPtr, order: seq<Ptr>, n: nat, name: string, hasHandlerKey: bool, now: nat): State
    requires a in s.apps && Allocated(s.heap, order) && n <= |order|
  {
    var last := s.apps[a].lastIndex;
    var tried := Tried(order, last, n);
    s.(heap := RevivedAmong(s.heap, tried, now),
       refusals := Lifted(s, tried, name, hasHandlerKey, now),
       apps := s.apps[a := s.apps[a].(lastIndex := IndexAfter(order, last, n))])
  }

  /** uOpenedRequestsNb++ */
  function CountOpen(s: State, p: Ptr): State
    requires p in s.heap
  {
    s.(heap := s.heap[p := s.heap[p].(inFlight := s.heap[p].inFlight + 1)])
  }

  /** The whole search; the instance picked is counted. */
  function Search(s: State, a: AppPtr, order: seq<Ptr>, name: string, hasHandlerKey: bool, now: nat): (r: State)
    requires a in s.apps && Allocated(s.heap, order)
    ensures r.heap.Keys == s.heap.Keys && r.apps.Keys == s.apps.Keys
  {
    var last := s.apps[a].lastIndex;
    var after := AfterTurns(s, a, order, Turns(s, order, last, name, hasHandlerKey, now), name, hasHandlerKey, now);
    match Pick(s, order, last, name, hasHandlerKey, now)
    case None => after
    case Some(p) => CountOpen(after, p)
  }

  /** GSWLoadBalancing_FindApp, after the configuration has been looked at. */
  function FindApp(s: State, req: Request, now: nat): (r: (State, Request))
    requires Sound(s)
    ensures r.1.holds && !req.holds ==> r.1.target.Some? && r.1.target.value in s.heap
  {
    match Lookup(s.registry.slots, req.name)
    case None => (s, req)
    case Some(a) =>
      LookupIsEntry(s.registry.slots, req.name);
      OwnedOrder(s.heap, a, s.apps[a].table.slots);
      var order := Order(s.apps[a].table.slots);
      var found := Search(s, a, order, req.name, req.hasHandlerKey, now);
      match Pick(s, order, s.apps[a].lastIndex, req.name, req.hasHandlerKey, now)
      case None => (found, req)
      case Some(p) =>
        (found, req.(name := s.apps[a].name, instance := s.heap[p].num, host := s.heap[p].host, port := s.heap[p].port,
                       target := Some(p), holds := true))
  }

  /** The instance with the number asked for, unless it is invalid or refuses; its retry time is not looked at. */
  function FindKnown(s: State, req: Request, p: Ptr, now: nat): (State, Request)
    requires p in s.heap
  {
    var inst := s.heap[p];
    if !inst.valid then (s, req)
    else
      var looked := if req.hasHandlerKey then s else s.(refusals := LiftRefusal(s.refusals, req.name, inst.num, now));
      if !req.hasHandlerKey && Refuses(s.refusals, req.name, inst.num, now) then (looked, req)
      else (CountOpen(looked, p),
            req.(instance := inst.num, host := inst.host, port := inst.port, target := Some(p), holds := true))
  }

  /** GSWLoadBalancing_FindInstance */
  function FindInstance(s: State, req: Request, now: nat): (r: (State, Request))
    requires Sound(s)
    ensures r.1.holds && !req.holds ==> r.1.target.Some? && r.1.target.value in s.heap
  {
    match Lookup(s.registry.slots, req.name)
    case None => (s, req)
    case Some(a) =>
      LookupIsEntry(s.registry.slots, req.name);
      match Lookup(s.apps[a].table.slots, ToDec(req.instance))
      case None => if s.apps[a].switchToKnown then FindApp(s, req, now) else (s, req)
      case Some(p) =>
        LookupIsEntry(s.apps[a].table.slots, ToDec(req.instance));
        FindKnown(s, req, p, now)
  }

  // ---------------------------------------------------------------- letting go

  /** GSWAppInstance_Free: unlinks the record if the entry for its number is itself, then frees it. */
  function Free(s: State, p: Ptr): State
    requires p in s.heap && s.heap[p].app in s.apps
  {
    var a, key := s.heap[p].app, ToDec(s.heap[p].num);
    var t := s.apps[a].table;
    s.(heap := s.heap - {p},
       apps := if Lookup(t.slots, key) == Some(p) then s.apps[a := s.apps[a].(table := Remove(t, key))] else s.apps)
  }

  /** GSWAppInstance_FreeIFND */
  function FreeIfIdle(s: State, p: Ptr): State
    requires p in s.heap && s.heap[p].app in s.apps
  {
    if s.heap[p].inFlight == 0 then Free(s, p) else s
  }

  function Update(s: State, p: Ptr, inst: Instance): State {
    s.(heap := s.heap[p := inst])
  }

  /** The record is updated; an instance no longer configured goes with its last request. */
  function LetGo(s: State, p: Ptr, inst: Instance): State
    requires p in s.heap && inst.app in s.apps
  {
    if inst.valid then Update(s, p, inst) else FreeIfIdle(Update(s, p, inst), p)
  }

  /** GSWLoadBalancing_MarkNotRespondingApp */
  function Mark(s: State, p: Ptr, now: nat): State
    requires p in s.heap && s.heap[p].app in s.apps
  {
    var inst := s.heap[p].(inFlight := s.heap[p].inFlight - 1, notResponding := s.heap[p].notResponding + 1,
                           retry := now + APP_CONNECT_RETRY_DELAY);
    LetGo(s, p, inst)
  }

  /** GSWLoadBalancing_StartAppRequest */
  function Start(s: State, p: Ptr): State
    requires p in s.heap
  {
    Update(s, p, s.heap[p].(retry := 0))
  }

  /** GSWLoadBalancing_StopAppRequest */
  function Stop(s: State, p: Ptr): State
    requires p in s.heap && s.heap[p].app in s.apps
  {
    var inst := s.heap[p].(inFlight := s.heap[p].inFlight - 1, handled := s.heap[p].handled + 1);
    LetGo(s, p, inst)
  }
}
