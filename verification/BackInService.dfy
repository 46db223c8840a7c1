/** Marks and refusals do not last: when their time is over the instance may serve again. */
module BackInService {
  import opened Wrappers
  import opened CStrings
  import opened SlotTables
  import opened Pool
  import opened Config
  import opened PoolInvariant
  import opened FindLaws
  import opened FindMeaning
  import opened World
  import opened ReloadInvariant
  import opened Lifecycle
  import opened Backoff
  import opened RefusalKeys
  import opened RunFairness

  // ---------------------------------------------------------------- a mark ends

  /** The configured instance at p is alive, or will be once the given time is past. */
  ghost predicate BackAfter(s: State, p: Ptr, until: nat) {
    p in s.heap && s.heap[p].valid && s.heap[p].retry <= until
  }

  /** Neither a reload nor a failed connection to p. */
  ghost predicate Spares(w: World, a: Action, p: Ptr) {
    && !a.Load?
    && (a.NotResponding? ==> a.r in w.reqs && w.reqs[a.r].target != Some(p))
  }

  ghost predicate RunSpares(w: World, actions: seq<Action>, p: Ptr)
    requires Disciplined(w, actions)
    decreases |actions|
  {
    actions == [] || !MemorySafe(w, actions[0]) ||
    (Spares(w, actions[0], p) && RunSpares(Step(w, actions[0]), actions[1..], p))
  }

  lemma FindKeepsBack(s: State, s': State, picked: Option<Ptr>, now: nat, p: Ptr, until: nat)
    requires FindEffect(s, s', picked, now) && BackAfter(s, p, until)
    ensures BackAfter(s', p, until)
  {
  }

  lemma ReleaseKeepsBack(w: World, a: Action, p: Ptr, until: nat)
    requires Inv(w) && Protocol(w, a) && MemorySafe(w, a) && (a.Finished? || a.NotResponding?)
    requires Spares(w, a, p) && BackAfter(w.pool, p, until)
    ensures BackAfter(Step(w, a).pool, p, until)
  {
    ReleaseStep(w, a);
    LetGoHeap(w.pool, w.reqs[a.r].target.value, Released(w, a));
  }

  lemma StepKeepsBack(w: World, a: Action, p: Ptr, until: nat)
    requires Inv(w) && Protocol(w, a) && MemorySafe(w, a) && Spares(w, a, p) && BackAfter(w.pool, p, until)
    ensures BackAfter(Step(w, a).pool, p, until)
  {
    if a.FindAny? || a.FindNamed? {
      FindStepEffect(w, a);
      FindKeepsBack(w.pool, Step(w, a).pool, Outcome(w, a), w.clock, p, until);
    } else if a.Finished? || a.NotResponding? {
      ReleaseKeepsBack(w, a, p, until);
    } else {
      OtherKeepsBack(w, a, p, until);
    }
  }

  lemma OtherKeepsBack(w: World, a: Action, p: Ptr, until: nat)
    requires Inv(w) && Protocol(w, a) && MemorySafe(w, a) && BackAfter(w.pool, p, until)
    requires a.Arrive? || a.Depart? || a.Connected? || a.Refused? || a.Tick?
    ensures BackAfter(Step(w, a).pool, p, until)
  {
  }

  lemma {:induction false} RunKeepsBack(w: World, actions: seq<Action>, p: Ptr, until: nat)
    requires Inv(w) && Disciplined(w, actions) && RunSpares(w, actions, p) && Run(w, actions).Some? && BackAfter(w.pool, p, until)
    ensures Inv(Run(w, actions).value) && BackAfter(Run(w, actions).value.pool, p, until)
    decreases |actions|
  {
    if actions != [] {
      StepKeepsInv(w, actions[0]);
      StepKeepsBack(w, actions[0], p, until);
      RunKeepsBack(Step(w, actions[0]), actions[1..], p, until);
    }
  }

  /**
   More than three seconds after a failed connection the instance may serve again, if it is still
   configured and no other connection to it has failed: any request of a session, and a new session
   unless the instance refuses.
   */
  lemma {:induction false} MarkIsOver(w: World, r: nat, actions: seq<Action>, name: string, hasHandlerKey: bool)
    requires Inv(w) && Holding(w, r) && HoldsLive(w, r) && w.pool.heap[w.reqs[r].target.value].valid
    requires var marked := Step(w, NotResponding(r));
             && Disciplined(marked, actions) && RunSpares(marked, actions, w.reqs[r].target.value)
             && Run(marked, actions).Some? && Run(marked, actions).value.clock > w.clock + 3
    ensures var w', p := Run(Step(w, NotResponding(r)), actions).value, w.reqs[r].target.value;
            && p in w'.pool.heap
            && (MayServe(w'.pool, p, name, hasHandlerKey, w'.clock) <==>
                  hasHandlerKey || !InForce(w'.pool.refusals, name, w'.pool.heap[p].num, w'.clock))
  {
    var p := w.reqs[r].target.value;
    StepKeepsInv(w, NotResponding(r));
    ReleaseStep(w, NotResponding(r));
    LetGoHeap(w.pool, p, Released(w, NotResponding(r)));
    RunKeepsBack(Step(w, NotResponding(r)), actions, p, w.clock + 3);
  }

  // ---------------------------------------------------------------- a refusal ends

  /** From the given time on, and not before now, no refusal of the instance is in force. */
  ghost predicate OverFrom(refusals: Table<Refusal>, name: string, num: int, from: nat, now: nat) {
    forall t: nat :: t >= from && t >= now ==> !Refuses(refusals, name, num, t)
  }

  lemma StepKeepsOver(w: World, a: Action, name: string, num: CInt, from: nat)
    requires Inv(w) && Protocol(w, a) && MemorySafe(w, a) && OverFrom(w.pool.refusals, name, num, from, w.clock)
    requires a.Refused? ==> !SameKey(RefusalKey(a.name, a.num), RefusalKey(name, num))
    ensures OverFrom(Step(w, a).pool.refusals, name, num, from, Step(w, a).clock)
  {
    if a.FindAny? || a.FindNamed? {
      FindStepEffect(w, a);
    } else if a.Refused? {
      forall t: nat | t >= from && t >= w.clock ensures !Refuses(Step(w, a).pool.refusals, name, num, t) {
        OtherKeyUntouched(w.pool, a.name, a.num, name, num, true, w.clock, t);
      }
    } else {
      QuietStepKeepsRefusals(w, a);
    }
  }

  lemma QuietStepKeepsRefusals(w: World, a: Action)
    requires Inv(w) && Protocol(w, a) && MemorySafe(w, a) && !a.FindAny? && !a.FindNamed? && !a.Refused?
    ensures Step(w, a).pool.refusals == w.pool.refusals && Step(w, a).clock >= w.clock
  {
    if a.Load? {
      ClearAllSound(w.pool);
      LoadAppsKeepRefusals(ClearAll(w.pool), a.confs, a.env);
    } else if a.Finished? || a.NotResponding? {
      ReleaseStep(w, a);
    }
  }

  /** No refusal is noted under the key of the instance. */
  ghost predicate NotRefusedAgain(actions: seq<Action>, name: string, num: int) {
    forall i :: 0 <= i < |actions| && actions[i].Refused? ==> !SameKey(RefusalKey(actions[i].name, actions[i].num), RefusalKey(name, num))
  }

  lemma {:induction false} RunKeepsOver(w: World, actions: seq<Action>, name: string, num: CInt, from: nat)
    requires Inv(w) && Disciplined(w, actions) && CanonicalRun(actions) && NotRefusedAgain(actions, name, num) && Run(w, actions).Some?
    requires OverFrom(w.pool.refusals, name, num, from, w.clock)
    ensures OverFrom(Run(w, actions).value.pool.refusals, name, num, from, Run(w, actions).value.clock)
    decreases |actions|
  {
    if actions != [] {
      assert CanonicalAction(actions[0]);
      StepKeepsInv(w, actions[0]);
      StepKeepsOver(w, actions[0], name, num, from);
      RunKeepsOver(Step(w, actions[0]), actions[1..], name, num, from);
    }
  }

  lemma RefusedUntil(s: State, name: string, num: CInt, now: nat)
    ensures OverFrom(SetRefused(s, name, num, true, now).refusals, name, num, now + 11, now)
  {
    var key, info := RefusalKey(name, num), Refusal(true, now + 10);
    if Lookup(s.refusals.slots, key).Some? {
      LookupAfterSetValue(s.refusals, key, info, key);
    } else {
      LookupAfterAdd(s.refusals, key, info, key);
    }
  }

  /** More than ten seconds after a refusal it is over, whatever has happened since short of another one under its key. */
  lemma {:induction false} RefusalIsOver(w: World, name: string, num: CInt, actions: seq<Action>)
    requires Inv(w)
    requires var refused := Step(w, Refused(name, num));
             && Disciplined(refused, actions) && CanonicalRun(actions) && NotRefusedAgain(actions, name, num)
             && Run(refused, actions).Some? && Run(refused, actions).value.clock > w.clock + 10
    ensures var w' := Run(Step(w, Refused(name, num)), actions).value; !InForce(w'.pool.refusals, name, num, w'.clock)
  {
    StepKeepsInv(w, Refused(name, num));
    RefusedUntil(w.pool, name, num, w.clock);
    RunKeepsOver(Step(w, Refused(name, num)), actions, name, num, w.clock + 11);
    var w' := Run(Step(w, Refused(name, num)), actions).value;
    assert !Refuses(w'.pool.refusals, name, num, w'.clock);
  }
}
