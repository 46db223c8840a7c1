/** Instances that do not respond are left alone for a while, and so are instances that refuse new sessions. */
module Backoff {
  import opened Wrappers
  import opened CStrings
  import opened SlotTables
  import opened Pool
  import opened Config
  import opened PoolInvariant
  import opened FindLaws
  import opened World
  import opened ReloadInvariant
  import opened Lifecycle

  // ---------------------------------------------------------------- after a mark

  /** The instance at p, if still there, is not to be retried before the given time. */
  ghost predicate Resting(s: State, p: Ptr, until: nat) {
    p in s.heap ==> s.heap[p].retry >= until
  }

  /** Neither a reload nor a successful connection to p. */
  ghost predicate LeavesAlone(w: World, a: Action, p: Ptr) {
    && !a.Load?
    && (a.Connected? ==> a.r in w.reqs && w.reqs[a.r].target != Some(p))
  }

  lemma FindKeepsResting(s: State, s': State, picked: Option<Ptr>, now: nat, p: Ptr, until: nat)
    requires FindEffect(s, s', picked, now) && Resting(s, p, until) && now <= until
    ensures Resting(s', p, until)
  {
  }

  lemma AnyFindKeepsResting(w: World, a: Action, p: Ptr, until: nat)
    requires Inv(w) && Protocol(w, a) && MemorySafe(w, a) && (a.FindAny? || a.FindNamed?)
    requires Resting(w.pool, p, until) && w.clock <= until
    ensures Resting(Step(w, a).pool, p, until)
  {
    FindStepEffect(w, a);
    FindKeepsResting(w.pool, Step(w, a).pool, Outcome(w, a), w.clock, p, until);
  }

  /** What any find changes in the pool. */
  lemma FindStepEffect(w: World, a: Action)
    requires Inv(w) && Protocol(w, a) && MemorySafe(w, a) && (a.FindAny? || a.FindNamed?)
    ensures a.r in Step(w, a).reqs
    ensures FindEffect(w.pool, Step(w, a).pool, Outcome(w, a), w.clock)
  {
    if a.FindAny? {
      FindAppEffect(w.pool, w.reqs[a.r], w.clock);
    } else {
      FindInstanceEffect(w.pool, w.reqs[a.r], w.clock);
    }
  }

  lemma StepKeepsResting(w: World, a: Action, p: Ptr, marked: nat)
    requires Inv(w) && Protocol(w, a) && MemorySafe(w, a) && LeavesAlone(w, a, p)
    requires marked <= w.clock <= marked + APP_CONNECT_RETRY_DELAY
    requires Resting(w.pool, p, marked + APP_CONNECT_RETRY_DELAY)
    ensures Resting(Step(w, a).pool, p, marked + APP_CONNECT_RETRY_DELAY)
  {
    if a.FindAny? || a.FindNamed? {
      AnyFindKeepsResting(w, a, p, marked + APP_CONNECT_RETRY_DELAY);
    } else if a.Finished? || a.NotResponding? {
      ReleaseStep(w, a);
      LetGoHeap(w.pool, w.reqs[a.r].target.value, Released(w, a));
    }
  }

  /** No action of the run from w reloads the configuration or connects to p. */
  ghost predicate RunLeavesAlone(w: World, actions: seq<Action>, p: Ptr)
    requires Disciplined(w, actions)
    decreases |actions|
  {
    actions == [] || !MemorySafe(w, actions[0]) ||
    (LeavesAlone(w, actions[0], p) && RunLeavesAlone(Step(w, actions[0]), actions[1..], p))
  }

  lemma {:induction false} ClockNeverGoesBack(w: World, actions: seq<Action>)
    requires Disciplined(w, actions) && Run(w, actions).Some?
    ensures w.clock <= Run(w, actions).value.clock
    decreases |actions|
  {
    if actions != [] {
      ClockNeverGoesBack(Step(w, actions[0]), actions[1..]);
    }
  }

  lemma {:induction false} RunKeepsResting(w: World, actions: seq<Action>, p: Ptr, marked: nat)
    requires Inv(w) && Disciplined(w, actions) && CanonicalRun(actions) && RunLeavesAlone(w, actions, p)
    requires marked <= w.clock && Run(w, actions).Some? && Run(w, actions).value.clock <= marked + APP_CONNECT_RETRY_DELAY
    requires Resting(w.pool, p, marked + APP_CONNECT_RETRY_DELAY)
    ensures Inv(Run(w, actions).value) && Resting(Run(w, actions).value.pool, p, marked + APP_CONNECT_RETRY_DELAY)
    decreases |actions|
  {
    if actions != [] {
      assert CanonicalAction(actions[0]);
      ClockNeverGoesBack(w, actions);
      StepKeepsInv(w, actions[0]);
      StepKeepsResting(w, actions[0], p, marked);
      ClockNeverGoesBack(Step(w, actions[0]), actions[1..]);
      RunKeepsResting(Step(w, actions[0]), actions[1..], p, marked);
    }
  }

  /** A round-robin find does not pick an instance that is resting. */
  lemma RestingIsNotPicked(s: State, req: Request, now: nat, p: Ptr, until: nat)
    requires Sound(s) && !req.holds && Resting(s, p, until) && 0 < until && now <= until
    ensures FindApp(s, req, now).1.holds ==> FindApp(s, req, now).1.target != Some(p)
  {
    match Lookup(s.registry.slots, req.name)
    case None =>
    case Some(a) =>
      FindAppIsPick(s, req, now, a);
      var k := PicksFirstEligible(s, Order(s.apps[a].table.slots), s.apps[a].lastIndex, req.name, req.hasHandlerKey, now);
  }

  /**
   Whatever happens after a mark, short of a reload and of a connection to the instance: no find picks
   the instance before its retry delay is over.
   */
  lemma {:induction false} BacksOff(w: World, r: nat, actions: seq<Action>, req: Request)
    requires Inv(w) && Holding(w, r)
    requires var marked := Step(w, NotResponding(r));
             && Disciplined(marked, actions) && CanonicalRun(actions) && RunLeavesAlone(marked, actions, w.reqs[r].target.value)
             && Run(marked, actions).Some? && Run(marked, actions).value.clock <= w.clock + APP_CONNECT_RETRY_DELAY
    requires !req.holds
    ensures var w' := Run(Step(w, NotResponding(r)), actions).value;
            && Sound(w'.pool)
            && (FindApp(w'.pool, req, w'.clock).1.holds ==> FindApp(w'.pool, req, w'.clock).1.target != w.reqs[r].target)
  {
    var p := w.reqs[r].target.value;
    StepKeepsInv(w, NotResponding(r));
    var marked := Step(w, NotResponding(r));
    ReleaseStep(w, NotResponding(r));
    LetGoHeap(w.pool, p, Released(w, NotResponding(r)));
    RunKeepsResting(marked, actions, p, w.clock);
    var w' := Run(marked, actions).value;
    RestingIsNotPicked(w'.pool, req, w'.clock, p, w.clock + APP_CONNECT_RETRY_DELAY);
  }

  // ---------------------------------------------------------------- after a refusal

  /** Spelling an application in another case does not change which refusal is meant. */
  lemma SameNameSameKey(name: string, other: string, num: int)
    requires SameKey(name, other)
    ensures SameKey(RefusalKey(name, num), RefusalKey(other, num))
  {
    var a, b := RefusalKey(name, num), RefusalKey(other, num);
    forall i | 0 <= i < |a| ensures Fold(a)[i] == Fold(b)[i] {
      if i < |name| {
        assert Fold(name)[i] == Fold(other)[i];
      }
    }
  }

  lemma SameKeySameLookup<V>(slots: seq<Slot<V>>, k: string, k': string)
    requires SameKey(k, k')
    ensures Lookup(slots, k) == Lookup(slots, k')
  {
    match FindKey(slots, k)
    case None => NoMatch(slots, k');
    case Some(i) => FirstMatch(slots, k', i);
  }

  /** Refusing again only prolongs a refusal, whichever instance it is about. */
  lemma RefusingKeepsRefusals(s: State, name: string, num: int, other: string, n: int, now: nat, t: nat)
    requires Refuses(s.refusals, name, num, t) && t <= now + REFUSAL_DELAY
    ensures Refuses(SetRefused(s, other, n, true, now).refusals, name, num, t)
  {
    var key, k := RefusalKey(other, n), RefusalKey(name, num);
    var info := Refusal(true, now + REFUSAL_DELAY);
    if Lookup(s.refusals.slots, key).Some? {
      LookupAfterSetValue(s.refusals, key, info, k);
    } else {
      LookupAfterAdd(s.refusals, key, info, k);
      if SameKey(key, k) {
        SameKeySameLookup(s.refusals.slots, key, k);
      }
    }
  }

  lemma {:induction false} LoadAppsKeepRefusals(s: State, confs: seq<AppConf>, env: Environment)
    requires Sound(s) && Allocates(env)
    ensures LoadApps(s, confs, env).refusals == s.refusals
    decreases |confs|
  {
    if confs != [] {
      LoadAppSound(s, confs[0], env);
      LoadAppKeepsRefusals(s, confs[0], env);
      LoadAppsKeepRefusals(LoadApp(s, confs[0], env), confs[1..], env);
    }
  }

  lemma LoadAppKeepsRefusals(s: State, conf: AppConf, env: Environment)
    requires Sound(s) && Allocates(env)
    ensures LoadApp(s, conf, env).refusals == s.refusals
  {
    match Lookup(s.registry.slots, conf.name)
    case Some(a) =>
      LookupIsEntry(s.registry.slots, conf.name);
      RecordKeepsRefusals(s, a, conf, env);
    case None =>
      var a := env.malloc(s.apps.Keys);
      RecordKeepsRefusals(s.(apps := s.apps[a := EMPTY_APP]), a, conf, env);
  }

  lemma RecordKeepsRefusals(s: State, a: AppPtr, conf: AppConf, env: Environment)
    requires a in s.apps && Owned(s.heap, a, s.apps[a].table.slots)
    ensures LoadAppRecord(s, a, conf, env).refusals == s.refusals
  {
    LoadInstancesFrame(s.(apps := s.apps[a := s.apps[a].(name := conf.name, switchToKnown := conf.switchToKnown,
                                                          unavailableUntil := conf.unavailableUntil)]), a, conf.instances, env);
  }

  lemma StepKeepsRefusing(w: World, a: Action, name: string, num: int, refused: nat)
    requires Inv(w) && Protocol(w, a) && MemorySafe(w, a)
    requires refused <= w.clock <= refused + REFUSAL_DELAY
    requires Refuses(w.pool.refusals, name, num, refused + REFUSAL_DELAY)
    ensures Refuses(Step(w, a).pool.refusals, name, num, refused + REFUSAL_DELAY)
  {
    if a.FindAny? || a.FindNamed? {
      FindStepEffect(w, a);
    } else if a.Refused? {
      RefusingKeepsRefusals(w.pool, name, num, a.name, a.num, w.clock, refused + REFUSAL_DELAY);
    } else if a.Load? {
      ClearAllSound(w.pool);
      LoadAppsKeepRefusals(ClearAll(w.pool), a.confs, a.env);
    } else if a.Finished? || a.NotResponding? {
      ReleaseStep(w, a);
    }
  }

  lemma {:induction false} RunKeepsRefusing(w: World, actions: seq<Action>, name: string, num: int, refused: nat)
    requires Inv(w) && Disciplined(w, actions) && CanonicalRun(actions)
    requires refused <= w.clock && Run(w, actions).Some? && Run(w, actions).value.clock <= refused + REFUSAL_DELAY
    requires Refuses(w.pool.refusals, name, num, refused + REFUSAL_DELAY)
    ensures Inv(Run(w, actions).value) && Refuses(Run(w, actions).value.pool.refusals, name, num, refused + REFUSAL_DELAY)
    decreases |actions|
  {
    if actions != [] {
      assert CanonicalAction(actions[0]);
      ClockNeverGoesBack(w, actions);
      StepKeepsInv(w, actions[0]);
      StepKeepsRefusing(w, actions[0], name, num, refused);
      ClockNeverGoesBack(Step(w, actions[0]), actions[1..]);
      RunKeepsRefusing(Step(w, actions[0]), actions[1..], name, num, refused);
    }
  }

  /** A round-robin find gives no new session to an instance that is refusing. */
  lemma RefusingIsNotFound(s: State, req: Request, now: nat, num: int)
    requires Sound(s) && !req.holds && !req.hasHandlerKey && Refuses(s.refusals, req.name, num, now)
    ensures FindApp(s, req, now).1.holds ==> FindApp(s, req, now).1.instance != num
  {
    match Lookup(s.registry.slots, req.name)
    case None =>
    case Some(a) =>
      FindAppIsPick(s, req, now, a);
      var k := PicksFirstEligible(s, Order(s.apps[a].table.slots), s.apps[a].lastIndex, req.name, req.hasHandlerKey, now);
  }

  /** Nor does a find by number. */
  lemma RefusingIsNotNamed(s: State, req: Request, now: nat, num: int)
    requires Sound(s) && !req.holds && !req.hasHandlerKey && Refuses(s.refusals, req.name, num, now)
    ensures FindInstance(s, req, now).1.holds ==> FindInstance(s, req, now).1.instance != num
  {
    RefusingIsNotFound(s, req, now, num);
    if Lookup(s.registry.slots, req.name).Some? {
      NamedFind(s, req, now, Lookup(s.registry.slots, req.name).value);
    }
  }

  /** Neither kind of find gives a new session to an instance that is refusing. */
  lemma RefusingIsNotPicked(s: State, req: Request, now: nat, name: string, num: int)
    requires Sound(s) && !req.holds && !req.hasHandlerKey && SameKey(req.name, name) && Refuses(s.refusals, name, num, now)
    ensures FindApp(s, req, now).1.holds ==> FindApp(s, req, now).1.instance != num
    ensures FindInstance(s, req, now).1.holds ==> FindInstance(s, req, now).1.instance != num
  {
    SameNameSameKey(req.name, name, num);
    SameKeySameLookup(s.refusals.slots, RefusalKey(req.name, num), RefusalKey(name, num));
    RefusingIsNotFound(s, req, now, num);
    RefusingIsNotNamed(s, req, now, num);
  }

  /** For ten seconds after a refusal no run, reloads included, lets a find pick the instance for a new session. */
  lemma {:induction false} RefusalIsRespected(w: World, name: string, num: CInt, actions: seq<Action>, req: Request)
    requires Inv(w)
    requires var refused := Step(w, Refused(name, num));
             && Disciplined(refused, actions) && CanonicalRun(actions)
             && Run(refused, actions).Some? && Run(refused, actions).value.clock <= w.clock + REFUSAL_DELAY
    requires !req.holds && !req.hasHandlerKey && SameKey(req.name, name)
    ensures var w' := Run(Step(w, Refused(name, num)), actions).value;
            && Sound(w'.pool)
            && (FindApp(w'.pool, req, w'.clock).1.holds ==> FindApp(w'.pool, req, w'.clock).1.instance != num)
            && (FindInstance(w'.pool, req, w'.clock).1.holds ==> FindInstance(w'.pool, req, w'.clock).1.instance != num)
  {
    StepKeepsInv(w, Refused(name, num));
    var refused := Step(w, Refused(name, num));
    var key, info := RefusalKey(name, num), Refusal(true, w.clock + REFUSAL_DELAY);
    if Lookup(w.pool.refusals.slots, key).Some? {
      LookupAfterSetValue(w.pool.refusals, key, info, key);
    } else {
      LookupAfterAdd(w.pool.refusals, key, info, key);
    }
    RunKeepsRefusing(refused, actions, name, num, w.clock);
    var w' := Run(refused, actions).value;
    ClockNeverGoesBack(refused, actions);
    RefusingIsNotPicked(w'.pool, req, w'.clock, name, num);
  }
}
