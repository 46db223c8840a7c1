/** Fairness of whole runs: the round-robin finds on one application, whatever else happens between them. */
module RunFairness {
  import opened Wrappers
  import opened CStrings
  import opened SlotTables
  import opened Pool
  import opened Config
  import opened PoolInvariant
  import opened FindLaws
  import opened World
  import opened Lifecycle
  import opened Backoff

  // ---------------------------------------------------------------- the finds of a run

  /** The application whose instances the action goes round, if it does; a find by an unknown number may fall back to it. */
  ghost function Searched(w: World, a: Action): Option<AppPtr>
    requires Protocol(w, a)
  {
    if !a.FindAny? && !a.FindNamed? then None
    else match Lookup(w.pool.registry.slots, w.reqs[a.r].name)
      case None => None
      case Some(b) =>
        if a.FindAny? || (b in w.pool.apps && Lookup(w.pool.apps[b].table.slots, ToDec(w.reqs[a.r].instance)).None? &&
                          w.pool.apps[b].switchToKnown)
        then Some(b) else None
  }

  /** The search in terms of the pool as the action meets it. */
  ghost function FindOf(w: World, a: Action, app: AppPtr): Find
    requires Protocol(w, a) && (a.FindAny? || a.FindNamed?) && app in w.pool.apps
  {
    Find(w.pool, w.pool.apps[app].lastIndex, w.reqs[a.r].name, w.reqs[a.r].hasHandlerKey, w.clock)
  }

  /** The searches of a run on one application, in order. */
  ghost function Finds(w: World, actions: seq<Action>, app: AppPtr): seq<Find>
    requires Disciplined(w, actions)
    decreases |actions|
  {
    if actions == [] || !MemorySafe(w, actions[0]) then []
    else
      var rest := Finds(Step(w, actions[0]), actions[1..], app);
      if Searched(w, actions[0]) == Some(app) && app in w.pool.apps then [FindOf(w, actions[0], app)] + rest else rest
  }

  /** And which instance each of them has given to its request. */
  ghost function Outcomes(w: World, actions: seq<Action>, app: AppPtr): seq<Option<Ptr>>
    requires Disciplined(w, actions)
    decreases |actions|
  {
    if actions == [] || !MemorySafe(w, actions[0]) then []
    else
      var rest := Outcomes(Step(w, actions[0]), actions[1..], app);
      if Searched(w, actions[0]) == Some(app) && app in w.pool.apps then [Outcome(w, actions[0])] + rest else rest
  }

  // ---------------------------------------------------------------- one step

  ghost function OrderOf(s: State, app: AppPtr): seq<Ptr>
    requires app in s.apps
  {
    Order(s.apps[app].table.slots)
  }

  /** Every instance of the application is in the configuration as last read. */
  ghost predicate AllConfigured(s: State, app: AppPtr) {
    && app in s.apps
    && forall i :: 0 <= i < |s.apps[app].table.slots| && s.apps[app].table.slots[i].Live? ==>
         s.apps[app].table.slots[i].value in s.heap && s.heap[s.apps[app].table.slots[i].value].valid
  }

  /** The application still has the same instances, all of them configured. */
  ghost predicate SameInstances(s: State, s': State, app: AppPtr) {
    && app in s.apps && app in s'.apps
    && s'.apps[app].table == s.apps[app].table
    && AllConfigured(s', app)
  }

  lemma RegisteredApp(s: State, name: string, app: AppPtr)
    requires Sound(s) && Lookup(s.registry.slots, name) == Some(app)
    ensures app in s.apps && Allocated(s.heap, OrderOf(s, app))
  {
    LookupIsEntry(s.registry.slots, name);
    assert AppSound(s.heap, app, s.apps[app].table);
    OwnedOrder(s.heap, app, s.apps[app].table.slots);
  }

  /** A find that goes round the instances is the search on them, and its request gets the pick. */
  lemma SearchStep(w: World, a: Action, b: AppPtr)
    requires Inv(w) && Protocol(w, a) && MemorySafe(w, a) && Searched(w, a) == Some(b)
    ensures b in w.pool.apps && Allocated(w.pool.heap, OrderOf(w.pool, b))
    ensures Step(w, a).pool == Search(w.pool, b, OrderOf(w.pool, b), w.reqs[a.r].name, w.reqs[a.r].hasHandlerKey, w.clock)
    ensures Outcome(w, a) == Picked(FindOf(w, a, b), OrderOf(w.pool, b))
  {
    var req := w.reqs[a.r];
    RegisteredApp(w.pool, req.name, b);
    FindAppIsPick(w.pool, req, w.clock, b);
    if a.FindNamed? {
      NamedFind(w.pool, req, w.clock, b);
    }
  }

  lemma SearchMovesIndex(s: State, b: AppPtr, find: Find, app: AppPtr)
    requires b in s.apps && app in s.apps && Allocated(s.heap, OrderOf(s, b))
    requires find.before == s && find.last == s.apps[b].lastIndex
    ensures var s' := Search(s, b, OrderOf(s, b), find.name, find.hasHandlerKey, find.now);
            && app in s'.apps && s'.apps[app].table == s.apps[app].table
            && s'.apps[app].lastIndex == if app == b then NextIndex(find, OrderOf(s, b)) else s.apps[app].lastIndex
  {
  }

  /** A find by number that stays with its instance moves no index. */
  lemma NamedKeepsApps(s: State, req: Request, now: nat, b: AppPtr)
    requires Sound(s) && Lookup(s.registry.slots, req.name) == Some(b) && b in s.apps
    requires Lookup(s.apps[b].table.slots, ToDec(req.instance)).Some? || !s.apps[b].switchToKnown
    ensures FindInstance(s, req, now).0.apps == s.apps
  {
  }

  lemma OtherFindKeepsApps(w: World, a: Action)
    requires Inv(w) && Protocol(w, a) && MemorySafe(w, a) && (a.FindAny? || a.FindNamed?) && Searched(w, a).None?
    ensures Step(w, a).pool.apps == w.pool.apps
  {
    var req := w.reqs[a.r];
    match Lookup(w.pool.registry.slots, req.name)
    case None =>
    case Some(b) =>
      RegisteredApp(w.pool, req.name, b);
      NamedKeepsApps(w.pool, req, w.clock, b);
  }

  lemma EffectKeepsConfigured(s: State, s': State, picked: Option<Ptr>, now: nat, app: AppPtr)
    requires FindEffect(s, s', picked, now) && AllConfigured(s, app)
    ensures SameInstances(s, s', app)
  {
  }

  lemma FindKeepsInstances(w: World, a: Action, app: AppPtr)
    requires Inv(w) && Protocol(w, a) && MemorySafe(w, a) && (a.FindAny? || a.FindNamed?) && AllConfigured(w.pool, app)
    ensures SameInstances(w.pool, Step(w, a).pool, app)
    ensures Searched(w, a) == Some(app) ==>
              Step(w, a).pool.apps[app].lastIndex == NextIndexOf(w, a, app)
    ensures Searched(w, a) != Some(app) ==> Step(w, a).pool.apps[app].lastIndex == w.pool.apps[app].lastIndex
  {
    FindStepEffect(w, a);
    EffectKeepsConfigured(w.pool, Step(w, a).pool, Outcome(w, a), w.clock, app);
    match Searched(w, a)
    case None => OtherFindKeepsApps(w, a);
    case Some(b) =>
      SearchStep(w, a, b);
      SearchMovesIndex(w.pool, b, FindOf(w, a, b), app);
  }

  /** Where the index of the application is after a search on it. */
  ghost function NextIndexOf(w: World, a: Action, app: AppPtr): nat
    requires Inv(w) && Protocol(w, a) && MemorySafe(w, a) && Searched(w, a) == Some(app)
  {
    SearchStep(w, a, app);
    NextIndex(FindOf(w, a, app), OrderOf(w.pool, app))
  }

  /** Letting go of an instance takes none of the configured ones away. */
  lemma LetGoKeepsInstances(s: State, p: Ptr, inst: Instance, app: AppPtr)
    requires Sound(s) && AllConfigured(s, app) && p in s.heap && inst.app == s.heap[p].app && inst.valid == s.heap[p].valid
    ensures SameInstances(s, LetGo(s, p, inst), app) && LetGo(s, p, inst).apps[app].lastIndex == s.apps[app].lastIndex
  {
    var t := s.apps[inst.app].table;
    if !inst.valid && Lookup(t.slots, ToDec(inst.num)) == Some(p) {
      LookupIsEntry(t.slots, ToDec(inst.num));
    }
  }

  lemma ReleaseKeepsInstances(w: World, a: Action, app: AppPtr)
    requires Inv(w) && Protocol(w, a) && MemorySafe(w, a) && (a.Finished? || a.NotResponding?) && AllConfigured(w.pool, app)
    ensures SameInstances(w.pool, Step(w, a).pool, app)
    ensures Step(w, a).pool.apps[app].lastIndex == w.pool.apps[app].lastIndex
  {
    ReleaseStep(w, a);
    LetGoKeepsInstances(w.pool, w.reqs[a.r].target.value, Released(w, a), app);
  }

  lemma OtherStepKeepsInstances(w: World, a: Action, app: AppPtr)
    requires Inv(w) && Protocol(w, a) && MemorySafe(w, a) && AllConfigured(w.pool, app)
    requires a.Arrive? || a.Depart? || a.Connected? || a.Refused? || a.Tick?
    ensures SameInstances(w.pool, Step(w, a).pool, app)
    ensures Step(w, a).pool.apps[app].lastIndex == w.pool.apps[app].lastIndex
  {
  }

  /** Without a reload the instances stay, and only a search on the application moves its index. */
  lemma StepKeepsInstances(w: World, a: Action, app: AppPtr)
    requires Inv(w) && Protocol(w, a) && MemorySafe(w, a) && !a.Load? && AllConfigured(w.pool, app)
    ensures SameInstances(w.pool, Step(w, a).pool, app)
    ensures Step(w, a).pool.apps[app].lastIndex ==
              if Searched(w, a) == Some(app) then NextIndexOf(w, a, app) else w.pool.apps[app].lastIndex
  {
    if a.FindAny? || a.FindNamed? {
      FindKeepsInstances(w, a, app);
    } else if a.Finished? || a.NotResponding? {
      ReleaseKeepsInstances(w, a, app);
    } else {
      OtherStepKeepsInstances(w, a, app);
    }
  }

  // ---------------------------------------------------------------- runs

  ghost predicate NoReload(actions: seq<Action>) {
    forall i :: 0 <= i < |actions| ==> !actions[i].Load?
  }

  /** The finds go round one list of instances, each from where the one before has stopped, and the outcomes are the picks. */
  ghost predicate GoRound(finds: seq<Find>, outcomes: seq<Option<Ptr>>, order: seq<Ptr>, last: nat) {
    if finds == [] then outcomes == []
    else
      && outcomes != [] && finds[0].last == last && Allocated(finds[0].before.heap, order)
      && outcomes[0] == Picked(finds[0], order)
      && GoRound(finds[1..], outcomes[1..], order, NextIndex(finds[0], order))
  }

  lemma {:induction false} RoundAt(finds: seq<Find>, outcomes: seq<Option<Ptr>>, order: seq<Ptr>, last: nat, i: nat)
    requires GoRound(finds, outcomes, order, last) && i < |finds|
    ensures |outcomes| == |finds| && Allocated(finds[i].before.heap, order) && outcomes[i] == Picked(finds[i], order)
    ensures i + 1 < |finds| ==> finds[i + 1].last == NextIndex(finds[i], order)
    decreases i
  {
    if i > 0 {
      RoundAt(finds[1..], outcomes[1..], order, NextIndex(finds[0], order), i - 1);
    } else {
      SameNumber(finds, outcomes, order, last);
    }
  }

  lemma {:induction false} SameNumber(finds: seq<Find>, outcomes: seq<Option<Ptr>>, order: seq<Ptr>, last: nat)
    requires GoRound(finds, outcomes, order, last)
    ensures |outcomes| == |finds|
  {
    if finds != [] {
      SameNumber(finds[1..], outcomes[1..], order, NextIndex(finds[0], order));
    }
  }

  /** So they are consecutive, and the results of the run are what these finds pick. */
  lemma {:induction false} RoundIsConsecutive(finds: seq<Find>, outcomes: seq<Option<Ptr>>, order: seq<Ptr>, last: nat)
    requires GoRound(finds, outcomes, order, last) && order != []
    ensures Consecutive(finds, order) && |outcomes| == |finds|
    ensures forall i :: 0 <= i < |finds| ==> outcomes[i] == Picked(finds[i], order)
  {
    SameNumber(finds, outcomes, order, last);
    forall i | 0 <= i < |finds| ensures Allocated(finds[i].before.heap, order) && outcomes[i] == Picked(finds[i], order) {
      RoundAt(finds, outcomes, order, last, i);
    }
    forall i, j | 0 <= i && j == i + 1 && j < |finds| ensures finds[j].last == NextIndex(finds[i], order) {
      RoundAt(finds, outcomes, order, last, i);
    }
  }

  /** All the finds of a run on one application go round its instances, whatever happens between them short of a reload. */
  lemma {:induction false} RunGoesRound(w: World, actions: seq<Action>, app: AppPtr)
    requires Inv(w) && Disciplined(w, actions) && NoReload(actions) && AllConfigured(w.pool, app)
    ensures GoRound(Finds(w, actions, app), Outcomes(w, actions, app), OrderOf(w.pool, app), w.pool.apps[app].lastIndex)
    decreases |actions|
  {
    if actions != [] {
      var a, w' := actions[0], Step(w, actions[0]);
      StepKeepsInv(w, a);
      StepKeepsInstances(w, a, app);
      RunGoesRound(w', actions[1..], app);
      if Searched(w, a) == Some(app) {
        SearchStep(w, a, app);
        assert Finds(w, actions, app)[1..] == Finds(w', actions[1..], app);
        assert Outcomes(w, actions, app)[1..] == Outcomes(w', actions[1..], app);
      }
    }
  }

  lemma DistinctOrder(slots: seq<Slot<Ptr>>)
    requires Injective(slots)
    ensures forall j, k :: 0 <= j < k < |Order(slots)| ==> Order(slots)[j] != Order(slots)[k]
  {
    forall j, k | 0 <= j < k < |Order(slots)| ensures Order(slots)[j] != Order(slots)[k] {
      var i := SlotOfEntry(slots, j);
      var m := SlotOfEntry(slots, k);
      assert i != m;
    }
  }

  /**
   In any run without a reload: when the finds on an application are as many as it has instances, and
   each meets all of them eligible, every instance has gone to exactly one of them.
   */
  lemma EachGetsOne(w: World, actions: seq<Action>, app: AppPtr, j: nat) returns (i: nat)
    requires Inv(w) && Disciplined(w, actions) && NoReload(actions) && AllConfigured(w.pool, app)
    requires var finds, order := Finds(w, actions, app), OrderOf(w.pool, app);
             j < |order| == |finds| && AllEligible(finds, order)
    ensures var outcomes, p := Outcomes(w, actions, app), OrderOf(w.pool, app)[j];
            && i < |outcomes| == |OrderOf(w.pool, app)| && outcomes[i] == Some(p)
            && forall f :: 0 <= f < |outcomes| && outcomes[f] == Some(p) ==> f == i
  {
    assert AppSound(w.pool.heap, app, w.pool.apps[app].table);
    RunGoesRound(w, actions, app);
    RoundIsConsecutive(Finds(w, actions, app), Outcomes(w, actions, app), OrderOf(w.pool, app), w.pool.apps[app].lastIndex);
    DistinctOrder(w.pool.apps[app].table.slots);
    i := EachExactlyOnce(Finds(w, actions, app), OrderOf(w.pool, app), j);
  }

  /** An instance that as many finds as there are instances all meet eligible has gone to one of them, whatever the others are like. */
  lemma NoneWaitsLonger(w: World, actions: seq<Action>, app: AppPtr, j: nat) returns (i: nat)
    requires Inv(w) && Disciplined(w, actions) && NoReload(actions) && AllConfigured(w.pool, app)
    requires var finds, order := Finds(w, actions, app), OrderOf(w.pool, app);
             j < |order| == |finds| && forall f :: 0 <= f < |finds| ==> EligibleAt(finds[f], order[j])
    ensures i < |Outcomes(w, actions, app)| && Outcomes(w, actions, app)[i] == Some(OrderOf(w.pool, app)[j])
  {
    RunGoesRound(w, actions, app);
    RoundIsConsecutive(Finds(w, actions, app), Outcomes(w, actions, app), OrderOf(w.pool, app), w.pool.apps[app].lastIndex);
    i := PickedWithinACycle(Finds(w, actions, app), OrderOf(w.pool, app), j);
  }
}
