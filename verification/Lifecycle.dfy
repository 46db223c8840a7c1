/**
 Whole runs of the load balancer: any interleaving of reloads, finds, starts, stops and marks by any
 number of requests, each find being followed by exactly one stop or mark.
 */
module Lifecycle {
  import opened Wrappers
  import opened CStrings
  import opened SlotTables
  import opened Pool
  import opened Config
  import opened PoolInvariant
  import opened FindLaws
  import opened World
  import opened ReloadInvariant

  datatype Action =
    | Arrive(r: nat, name: string, instance: CInt, hasHandlerKey: bool)
    | Depart(r: nat)
    | Load(confs: seq<AppConf>, env: Environment)
    | FindAny(r: nat)
    | FindNamed(r: nat)
    | Connected(r: nat)
    | Finished(r: nat)
    | NotResponding(r: nat)
    | Refused(name: string, num: CInt)
    | Tick(seconds: nat)

  /** The discipline of the client: who may do what. */
  ghost predicate Protocol(w: World, a: Action) {
    match a
    case Arrive(r, _, _, _) => r !in w.reqs
    case Depart(r) => Waiting(w, r)
    case Load(_, env) => Allocates(env)
    case FindAny(r) => Waiting(w, r)
    case FindNamed(r) => Waiting(w, r)
    case Connected(r) => Holding(w, r)
    case Finished(r) => Holding(w, r)
    case NotResponding(r) => Holding(w, r)
    case Refused(_, _) => true
    case Tick(_) => true
  }

  /** The instance the request holds can be dereferenced. */
  ghost predicate HoldsLive(w: World, r: nat) {
    Holding(w, r) && w.reqs[r].target.Some? && w.reqs[r].target.value in w.pool.heap
  }

  /** The action touches allocated memory only. */
  ghost predicate MemorySafe(w: World, a: Action) {
    && Sound(w.pool)
    && (a.Connected? || a.Finished? || a.NotResponding? ==> HoldsLive(w, a.r))
  }

  ghost predicate CanonicalAction(a: Action) {
    a.Load? ==> CanonicalConf(a.confs)
  }

  ghost function WithRequest(w: World, r: nat, result: (State, Request)): World {
    w.(pool := result.0, reqs := w.reqs[r := result.1])
  }

  ghost function Step(w: World, a: Action): World
    requires Protocol(w, a) && MemorySafe(w, a)
  {
    match a
    case Arrive(r, name, instance, hasKey) => w.(reqs := w.reqs[r := Request(name, instance, hasKey, None, 0, None, false)])
    case Depart(r) => w.(reqs := w.reqs - {r})
    case Load(confs, env) => w.(pool := Reload(w.pool, confs, env))
    case FindAny(r) => WithRequest(w, r, FindApp(w.pool, w.reqs[r], w.clock))
    case FindNamed(r) => WithRequest(w, r, FindInstance(w.pool, w.reqs[r], w.clock))
    case Connected(r) => w.(pool := Start(w.pool, w.reqs[r].target.value))
    case Finished(r) => WithRequest(w, r, (Stop(w.pool, w.reqs[r].target.value), w.reqs[r].(target := None, holds := false)))
    case NotResponding(r) =>
      // the request keeps its pointer but no longer holds the instance
      WithRequest(w, r, (Mark(w.pool, w.reqs[r].target.value, w.clock), w.reqs[r].(holds := false)))
    case Refused(name, num) => w.(pool := SetRefused(w.pool, name, num, true, w.clock))
    case Tick(seconds) => w.(clock := w.clock + seconds)
  }

  /** What the request of a find holds after it. */
  ghost function Outcome(w: World, a: Action): Option<Ptr>
    requires Protocol(w, a) && MemorySafe(w, a) && (a.FindAny? || a.FindNamed?)
  {
    var req := Step(w, a).reqs[a.r];
    if req.holds then req.target else None
  }

  // ---------------------------------------------------------------- runs

  /** A run ends in a fault (None) if one of its steps would touch freed memory. */
  ghost function Run(w: World, actions: seq<Action>): Option<World>
    requires Disciplined(w, actions)
    decreases |actions|
  {
    if actions == [] then Some(w)
    else if !MemorySafe(w, actions[0]) then None
    else Run(Step(w, actions[0]), actions[1..])
  }

  ghost predicate Disciplined(w: World, actions: seq<Action>)
    decreases |actions|
  {
    actions == [] ||
    (Protocol(w, actions[0]) && (MemorySafe(w, actions[0]) ==> Disciplined(Step(w, actions[0]), actions[1..])))
  }

  ghost predicate CanonicalRun(actions: seq<Action>) {
    forall i :: 0 <= i < |actions| ==> CanonicalAction(actions[i])
  }

  const EMPTY_WORLD := World(State(map[], map[], Table([], 16), Table([], 50)), map[], 0)

  lemma EmptyWorldInv()
    ensures Inv(EMPTY_WORLD)
  {
  }

  // ---------------------------------------------------------------- every step keeps the invariant

  lemma InvIsMemorySafe(w: World, a: Action)
    requires Inv(w) && Protocol(w, a)
    ensures MemorySafe(w, a)
  {
  }

  lemma ArrivalKeepsInv(w: World, r: nat, req: Request)
    requires Inv(w) && r !in w.reqs && !req.holds
    ensures Inv(w.(reqs := w.reqs[r := req]))
  {
    HeldAfterArrival(w.pool.heap, w.reqs, r, req);
  }

  lemma HeldAfterArrival(heap: map<Ptr, Instance>, reqs: map<nat, Request>, r: nat, req: Request)
    requires Held(heap, reqs) && r !in reqs && !req.holds
    ensures Held(heap, reqs[r := req])
  {
    assert forall p :: p in heap ==> Holders(reqs[r := req], p) == Holders(reqs, p);
  }

  lemma DepartureKeepsInv(w: World, r: nat)
    requires Inv(w) && Waiting(w, r)
    ensures Inv(w.(reqs := w.reqs - {r}))
  {
    HeldAfterDeparture(w.pool.heap, w.reqs, r);
  }

  lemma HeldAfterDeparture(heap: map<Ptr, Instance>, reqs: map<nat, Request>, r: nat)
    requires Held(heap, reqs) && r in reqs && !reqs[r].holds
    ensures Held(heap, reqs - {r})
  {
    assert forall p :: p in heap ==> Holders(reqs - {r}, p) == Holders(reqs, p);
  }

  lemma StartKeepsPool(s: State, p: Ptr)
    requires PoolInv(s, {}, {}) && p in s.heap
    ensures PoolInv(Start(s, p), {}, {})
  {
    assert forall q :: q in s.heap ==> Linked(s, q) || Start(s, p).heap[q].inFlight > 0;
    ShapeKeepsInv(s, Start(s, p), {});
  }

  lemma StartKeepsHeld(s: State, p: Ptr, reqs: map<nat, Request>)
    requires Held(s.heap, reqs) && p in s.heap
    ensures Held(Start(s, p).heap, reqs)
  {
    SameCountsKeepHeld(s.heap, Start(s, p).heap, reqs);
  }

  lemma StartKeepsInv(w: World, p: Ptr)
    requires Inv(w) && p in w.pool.heap
    ensures Inv(w.(pool := Start(w.pool, p)))
  {
    StartKeepsPool(w.pool, p);
    StartKeepsHeld(w.pool, p, w.reqs);
  }

  lemma RefusalKeepsInv(w: World, refusals: Table<Refusal>)
    requires Inv(w)
    ensures Inv(w.(pool := w.pool.(refusals := refusals)))
  {
    ShapeKeepsInv(w.pool, w.pool.(refusals := refusals), {});
  }

  lemma FindStepKeepsInv(w: World, a: Action)
    requires Inv(w) && Protocol(w, a) && (a.FindAny? || a.FindNamed?) && MemorySafe(w, a)
    ensures Inv(Step(w, a))
  {
    if a.FindAny? {
      FindAppCountsOne(w.pool, w.reqs[a.r], w.clock);
      FindKeepsInv(w, a.r, FindApp(w.pool, w.reqs[a.r], w.clock).0, FindApp(w.pool, w.reqs[a.r], w.clock).1);
    } else {
      FindInstanceCountsOne(w.pool, w.reqs[a.r], w.clock);
      FindKeepsInv(w, a.r, FindInstance(w.pool, w.reqs[a.r], w.clock).0, FindInstance(w.pool, w.reqs[a.r], w.clock).1);
    }
  }

  /** The record of the instance a request holds, as its stop or mark leaves it. */
  ghost function Released(w: World, a: Action): Instance
    requires (a.Finished? || a.NotResponding?) && HoldsLive(w, a.r)
  {
    var inst := w.pool.heap[w.reqs[a.r].target.value];
    if a.Finished? then inst.(inFlight := inst.inFlight - 1, handled := inst.handled + 1)
    else inst.(inFlight := inst.inFlight - 1, notResponding := inst.notResponding + 1, retry := w.clock + APP_CONNECT_RETRY_DELAY)
  }

  lemma ReleaseStep(w: World, a: Action)
    requires (a.Finished? || a.NotResponding?) && HoldsLive(w, a.r) && Sound(w.pool)
    ensures var req := w.reqs[a.r].(target := if a.Finished? then None else w.reqs[a.r].target, holds := false);
            Step(w, a) == w.(pool := LetGo(w.pool, w.reqs[a.r].target.value, Released(w, a)), reqs := w.reqs[a.r := req])
  {
  }

  lemma ReleaseStepKeepsInv(w: World, a: Action)
    requires Inv(w) && (a.Finished? || a.NotResponding?) && HoldsLive(w, a.r)
    ensures Inv(Step(w, a))
  {
    ReleaseStep(w, a);
    ReleaseKeepsInv(w, a.r, Released(w, a), w.reqs[a.r].(target := if a.Finished? then None else w.reqs[a.r].target, holds := false));
  }

  lemma LoadStepKeepsInv(w: World, a: Action)
    requires Inv(w) && Protocol(w, a) && a.Load? && CanonicalAction(a) && MemorySafe(w, a)
    ensures Inv(Step(w, a))
  {
    ReloadKeepsInv(w.pool, a.confs, a.env, w.reqs);
  }

  lemma OtherStepKeepsInv(w: World, a: Action)
    requires Inv(w) && Protocol(w, a) && MemorySafe(w, a)
    requires a.Arrive? || a.Depart? || a.Connected? || a.Refused? || a.Tick?
    ensures Inv(Step(w, a))
  {
    match a
    case Arrive(r, name, instance, hasKey) => ArrivalKeepsInv(w, r, Request(name, instance, hasKey, None, 0, None, false));
    case Depart(r) => DepartureKeepsInv(w, r);
    case Connected(r) => StartKeepsInv(w, w.reqs[r].target.value);
    case Refused(name, num) => RefusalKeepsInv(w, SetRefused(w.pool, name, num, true, w.clock).refusals);
    case Tick(seconds) =>
  }

  lemma StepKeepsInv(w: World, a: Action)
    requires Inv(w) && Protocol(w, a) && CanonicalAction(a)
    ensures MemorySafe(w, a) && Inv(Step(w, a))
  {
    InvIsMemorySafe(w, a);
    if a.FindAny? || a.FindNamed? {
      FindStepKeepsInv(w, a);
    } else if a.Finished? || a.NotResponding? {
      ReleaseStepKeepsInv(w, a);
    } else if a.Load? {
      LoadStepKeepsInv(w, a);
    } else {
      OtherStepKeepsInv(w, a);
    }
  }

  /** No run from a good state ever touches a freed instance record, and the invariant holds at its end. */
  lemma {:induction false} RunIsSafe(w: World, actions: seq<Action>)
    requires Inv(w) && Disciplined(w, actions) && CanonicalRun(actions)
    ensures Run(w, actions).Some? && Inv(Run(w, actions).value)
    decreases |actions|
  {
    if actions != [] {
      assert CanonicalAction(actions[0]);
      StepKeepsInv(w, actions[0]);
      RunIsSafe(Step(w, actions[0]), actions[1..]);
    }
  }

  // ---------------------------------------------------------------- what the invariant means

  /** The count of an instance is the number of requests that hold it, so it never underflows. */
  lemma CountIsHolders(w: World, p: Ptr)
    requires Inv(w) && p in w.pool.heap
    ensures w.pool.heap[p].inFlight == |Holders(w.reqs, p)| >= 0
    ensures w.pool.heap[p].inFlight > 0 <==> exists r :: Holding(w, r) && w.reqs[r].target == Some(p)
  {
    if w.pool.heap[p].inFlight > 0 {
      var r :| r in Holders(w.reqs, p);
      assert Holding(w, r);
    }
    if r :| Holding(w, r) && w.reqs[r].target == Some(p) {
      assert r in Holders(w.reqs, p);
    }
  }

  ghost predicate MentionedIn(slots: seq<Slot<Ptr>>, p: Ptr) {
    exists i :: 0 <= i < |slots| && slots[i].Live? && slots[i].value == p
  }

  /** A step frees an instance only when no request holds it any more, and nothing refers to it afterwards. */
  lemma FreedIsForgotten(w: World, a: Action, p: Ptr)
    requires Inv(w) && Protocol(w, a) && CanonicalAction(a) && MemorySafe(w, a)
    requires p in w.pool.heap && p !in Step(w, a).pool.heap
    ensures var w' := Step(w, a);
            && (forall r :: Holding(w', r) ==> w'.reqs[r].target != Some(p))
            && (forall b :: b in w'.pool.apps ==> !MentionedIn(w'.pool.apps[b].table.slots, p))
  {
    StepKeepsInv(w, a);
    var w' := Step(w, a);
    forall b | b in w'.pool.apps ensures !MentionedIn(w'.pool.apps[b].table.slots, p) {
      assert AppSound(w'.pool.heap, b, w'.pool.apps[b].table);
    }
  }

  /** Every instance in memory can still be reached: through its dictionary or through a request. */
  lemma NothingLeaks(w: World, p: Ptr)
    requires Inv(w) && p in w.pool.heap
    ensures Linked(w.pool, p) || exists r :: Holding(w, r) && w.reqs[r].target == Some(p)
  {
    CountIsHolders(w, p);
  }

  /** What slot i of an application's dictionary holds, if there is such a slot. */
  ghost function SlotAt(s: State, b: AppPtr, i: nat): Option<Slot<Ptr>> {
    if b in s.apps && i < |s.apps[b].table.slots| then Some(s.apps[b].table.slots[i]) else None
  }

  ghost function Without(slot: Slot<Ptr>, p: Ptr): Slot<Ptr> {
    if slot.Live? && slot.value == p then Empty else slot
  }

  /**
   The last request to let go of an instance that is no longer configured frees it. Every other
   entry keeps its slot, in particular a new instance under the same number; if the entry is the
   instance itself, it is emptied.
   */
  lemma LastRelease(w: World, r: nat, a: Action, p: Ptr, b: AppPtr, i: nat)
    requires Inv(w) && HoldsLive(w, r) && w.reqs[r].target == Some(p)
    requires a == Finished(r) || a == NotResponding(r)
    requires !w.pool.heap[p].valid && w.pool.heap[p].inFlight == 1
    requires b in w.pool.apps && i < |w.pool.apps[b].table.slots|
    ensures var s, s' := w.pool, Step(w, a).pool;
            && s'.heap.Keys == s.heap.Keys - {p}
            && SlotAt(s', b, i) == Some(Without(s.apps[b].table.slots[i], p))
  {
    LastReleaseIsFree(w, a, p);
    FreeEmptiesOwnSlot(w.pool, p, b, i);
  }

  lemma LastReleaseIsFree(w: World, a: Action, p: Ptr)
    requires Inv(w) && (a.Finished? || a.NotResponding?) && HoldsLive(w, a.r) && w.reqs[a.r].target == Some(p)
    requires !w.pool.heap[p].valid && w.pool.heap[p].inFlight == 1
    ensures Step(w, a).pool == Free(w.pool, p)
  {
    ReleaseStep(w, a);
    assert w.pool.heap[p := Released(w, a)] - {p} == w.pool.heap - {p};
  }

  lemma FreeEmptiesOwnSlot(s: State, p: Ptr, b: AppPtr, i: nat)
    requires Sound(s) && Filed(s) && p in s.heap && b in s.apps && i < |s.apps[b].table.slots|
    ensures SlotAt(Free(s, p), b, i) == Some(Without(s.apps[b].table.slots[i], p))
  {
    var t := s.apps[s.heap[p].app].table;
    assert AppSound(s.heap, s.heap[p].app, t) && AppSound(s.heap, b, s.apps[b].table);
    var slot := s.apps[b].table.slots[i];
    if slot.Live? && slot.value == p {
      EntryIsLinked(s, b, i);
      assert Keyed(s.heap, t.slots);
      DistinctFind(t.slots, i, ToDec(s.heap[p].num));
    }
  }
}
