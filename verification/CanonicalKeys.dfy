/**
 Why instance keys must be canonical decimals. GSWAppInstance_Free unlinks by the printed number, so
 an instance filed under another spelling of it stays in the dictionary when it is freed.
 */
module CanonicalKeys {
  import opened Wrappers
  import opened CStrings
  import opened SlotTables
  import opened Pool
  import opened Config
  import opened PoolInvariant
  import opened FindLaws
  import opened World
  import opened Lifecycle

  lemma FreshExists(used: set<nat>) returns (n: nat)
    ensures forall m :: m in used ==> m < n
  {
    n := 0;
    var rest := used;
    while rest != {}
      invariant rest <= used
      invariant forall m :: m in used && m !in rest ==> m < n
      decreases rest
    {
      var m :| m in rest;
      rest := rest - {m};
      n := if m < n then n else m + 1;
    }
  }

  ghost function Unused(used: set<nat>): (n: nat)
    ensures n !in used
  {
    assert exists n: nat :: n !in used by {
      var n := FreshExists(used);
      assert n !in used;
    }
    var n: nat :| n !in used;
    n
  }

  ghost const ENV := Environment(used => Unused(used), count => 0)

  function OneInstance(key: string): seq<AppConf> {
    [AppConf("app", [InstanceConf(key, None, None)], true, 0)]
  }

  /** Configure, pick, drop the application from the file, finish the request, read the file again. */
  ghost function DropWhileHeld(key: string): seq<Action> {
    [Load(OneInstance(key), ENV)] + ([Arrive(0, "app", 0, true)] + ([FindAny(0)] + LAST_STEPS))
  }

  ghost const LAST_STEPS: seq<Action> := [Load([], ENV), Finished(0), Load([], ENV)]

  ghost function TheInstance(key: string, inFlight: int, handled: nat, valid: bool): Instance {
    Instance(Unused({}), Atoi(key), None, 0, 0, inFlight, handled, 0, valid)
  }

  /** The pool with this one application, whose only entry is the instance at the address given. */
  ghost function ThePool(key: string, heap: map<Ptr, Instance>): State {
    State(heap, map[Unused({}) := App("app", Table([Live(key, Unused({}))], 16), 0, true, 0)],
          Table([Live("app", Unused({}))], 16), Table([], 50))
  }

  ghost function With(key: string, inFlight: int, valid: bool): State {
    ThePool(key, map[Unused({}) := TheInstance(key, inFlight, 0, valid)])
  }

  lemma OneEntry<V>(key: string, value: V)
    ensures Entries([Live(key, value)]) == [(key, value)] && Order([Live(key, value)]) == [value] && Values([Live(key, value)]) == {value}
    ensures forall k :: Lookup([Live(key, value)], k) == if SameKey(key, k) then Some(value) else None
  {
    var slots := [Live(key, value)];
    assert Entries(slots[1..]) == [];
    assert slots[0].value in Values(slots);
    forall k ensures Lookup(slots, k) == if SameKey(key, k) then Some(value) else None {
      if SameKey(key, k) {
        FirstMatch(slots, k, 0);
      } else {
        NoMatch(slots, k);
      }
    }
  }

  lemma WithIsSound(key: string, inFlight: int, valid: bool)
    ensures Sound(With(key, inFlight, valid))
  {
    var s, p := With(key, inFlight, valid), Unused({});
    assert AppSound(s.heap, p, s.apps[p].table);
    assert RegistrySound(s.registry, s.apps.Keys);
  }

  // ---------------------------------------------------------------- step by step

  lemma RecordOfFirstLoad(key: string, s: State)
    requires s == EMPTY_WORLD.pool.(apps := map[Unused({}) := EMPTY_APP])
    ensures LoadAppRecord(s, Unused({}), OneInstance(key)[0], ENV) == With(key, 0, true).(registry := s.registry)
  {
    var a, conf := Unused({}), OneInstance(key)[0];
    var named := s.(apps := s.apps[a := App("app", Table([], 0), 0, true, 0)]);
    assert named.heap.Keys == {};
    var loaded := LoadInstance(named, a, conf.instances[0], ENV);
    assert loaded.apps[a].table == Table([Live(key, Unused({}))], 16);
    assert LoadInstances(named, a, conf.instances, ENV) == loaded by {
      assert conf.instances[1..] == [];
    }
    NothingToPurge(key, loaded);
    OneEntry(key, Unused({}));
  }

  lemma NothingToPurge(key: string, s: State)
    requires s.heap == With(key, 0, true).heap && s.apps == With(key, 0, true).apps
    ensures Purge(s, Unused({})) == s
  {
    var a := Unused({});
    var purged := Purge(s, a);
    assert purged.apps[a].table.slots == s.apps[a].table.slots;
    assert purged.heap == s.heap && purged.apps == s.apps;
  }

  lemma FirstLoadApp(key: string)
    ensures Sound(EMPTY_WORLD.pool) && LoadApp(EMPTY_WORLD.pool, OneInstance(key)[0], ENV) == With(key, 0, true)
  {
    var s := EMPTY_WORLD.pool;
    assert s.apps.Keys == {};
    RecordOfFirstLoad(key, s.(apps := s.apps[Unused({}) := EMPTY_APP]));
    OneEntry(key, Unused({}));
  }

  lemma FirstLoad(key: string)
    ensures Sound(EMPTY_WORLD.pool) && Allocates(ENV)
    ensures Reload(EMPTY_WORLD.pool, OneInstance(key), ENV) == With(key, 0, true)
  {
    assert ClearAll(EMPTY_WORLD.pool).heap == EMPTY_WORLD.pool.heap;
    LoadsOnlyApp(key);
  }

  lemma LoadsOnlyApp(key: string)
    ensures Sound(EMPTY_WORLD.pool) && Allocates(ENV)
    ensures LoadApps(EMPTY_WORLD.pool, OneInstance(key), ENV) == With(key, 0, true)
  {
    var s, confs := EMPTY_WORLD.pool, OneInstance(key);
    FirstLoadApp(key);
    LoadAppSound(s, confs[0], ENV);
    assert confs[1..] == [];
  }

  ghost const WAITING := Request("app", 0, true, None, 0, None, false)

  lemma SearchFindsIt(key: string)
    ensures var s, p := With(key, 0, true), Unused({});
            Allocated(s.heap, [p]) && Pick(s, [p], 0, "app", true, 0) == Some(p) && Search(s, p, [p], "app", true, 0) == With(key, 1, true)
  {
    var s, p := With(key, 0, true), Unused({});
    FirstIsEligible(key);
    OneTurn(key);
    assert CountOpen(s, p).heap == With(key, 1, true).heap;
  }

  lemma FirstIsEligible(key: string)
    ensures var s, p := With(key, 0, true), Unused({});
            Allocated(s.heap, [p]) && FirstEligible(s, [p], 0, 0, "app", true, 0) == 0 && InCycle([p], 0, 0) == p
  {
    assert InCycle([Unused({})], 0, 0) == Unused({});
  }

  lemma NothingLifted(key: string)
    ensures var s, p := With(key, 0, true), Unused({}); Allocated(s.heap, [p]) && Lifted(s, [p], "app", true, 0) == s.refusals
  {
    assert [Unused({})][..0] == [];
  }

  lemma OneTurn(key: string)
    ensures var s, p := With(key, 0, true), Unused({}); Allocated(s.heap, [p]) && AfterTurns(s, p, [p], 1, "app", true, 0) == s
  {
    var s, p := With(key, 0, true), Unused({});
    assert Tried([p], 0, 1) == [p];
    NothingLifted(key);
    var after := AfterTurns(s, p, [p], 1, "app", true, 0);
    assert after.heap == s.heap && after.apps == s.apps;
  }

  lemma FindsIt(key: string)
    ensures Sound(With(key, 0, true))
    ensures FindApp(With(key, 0, true), WAITING, 0).0 == With(key, 1, true)
    ensures FindApp(With(key, 0, true), WAITING, 0).1.holds && FindApp(With(key, 0, true), WAITING, 0).1.target == Some(Unused({}))
  {
    WithIsSound(key, 0, true);
    OneEntry("app", Unused({}));
    OneEntry(key, Unused({}));
    SearchFindsIt(key);
    FindAppIsPick(With(key, 0, true), WAITING, 0, Unused({}));
  }

  lemma ClearsIt(key: string)
    ensures Sound(With(key, 1, true)) && Reload(With(key, 1, true), [], ENV) == With(key, 1, false)
  {
    var s, p := With(key, 1, true), Unused({});
    WithIsSound(key, 1, true);
    ClearAllSound(s);
    OneEntry("app", p);
    OneEntry(key, p);
    assert Listed(s, p);
    assert ClearAll(s).heap == With(key, 1, false).heap;
  }

  /** The last request lets go, the record is freed, and its entry stays behind. */
  lemma LeavesEntryBehind(key: string)
    requires !Canonical(key)
    ensures Stop(With(key, 1, false), Unused({})) == ThePool(key, map[]) && !Sound(ThePool(key, map[]))
  {
    var p := Unused({});
    OneEntry(key, p);
    if SameKey(key, ToDec(Atoi(key))) {
      SameKeyAsPrinted(key, Atoi(key));
    }
    assert Stop(With(key, 1, false), p).heap == map[];
    var slots := ThePool(key, map[]).apps[p].table.slots;
    assert slots[0].Live? && slots[0].value !in ThePool(key, map[]).heap;
    assert !Owned(map[], p, slots);
  }

  // ---------------------------------------------------------------- the run

  lemma {:induction false} RunStep(w: World, a: Action, rest: seq<Action>)
    requires Protocol(w, a) && MemorySafe(w, a) && Disciplined(Step(w, a), rest)
    ensures Disciplined(w, [a] + rest) && Run(w, [a] + rest) == Run(Step(w, a), rest)
  {
    assert ([a] + rest)[1..] == rest;
  }

  lemma {:induction false} RunFaults(w: World, a: Action)
    requires Protocol(w, a) && !MemorySafe(w, a)
    ensures Disciplined(w, [a]) && Run(w, [a]) == None
  {
  }

  /** Once the only instance is held, dropping it and letting go of it leaves a dangling entry. */
  lemma {:induction false} DroppedWhileHeldFaults(key: string, w: World)
    requires !Canonical(key) && w.pool == With(key, 1, true)
    requires w.reqs.Keys == {0} && w.reqs[0].holds && w.reqs[0].target == Some(Unused({}))
    ensures Disciplined(w, LAST_STEPS) && Run(w, LAST_STEPS) == None
  {
    ClearsIt(key);
    LeavesEntryBehind(key);
    WithIsSound(key, 1, false);
    var w4 := w.(pool := With(key, 1, false));
    var w5 := WithRequest(w4, 0, (ThePool(key, map[]), w4.reqs[0].(target := None, holds := false)));
    RunFaults(w5, Load([], ENV));
    RunStep(w4, Finished(0), [Load([], ENV)]);
    RunStep(w, Load([], ENV), [Finished(0), Load([], ENV)]);
  }

  /** Its only instance is found for the first request. */
  lemma {:induction false} FoundThenFaults(key: string, w: World)
    requires !Canonical(key) && w == World(With(key, 0, true), map[0 := WAITING], 0)
    ensures Disciplined(w, [FindAny(0)] + LAST_STEPS) && Run(w, [FindAny(0)] + LAST_STEPS) == None
  {
    FindsIt(key);
    DroppedWhileHeldFaults(key, WithRequest(w, 0, FindApp(w.pool, WAITING, 0)));
    RunStep(w, FindAny(0), LAST_STEPS);
  }

  /** For every key that is not canonical there is a run, within the protocol, that touches freed memory. */
  lemma NotCanonicalFaults(key: string)
    requires !Canonical(key)
    ensures Disciplined(EMPTY_WORLD, DropWhileHeld(key)) && Run(EMPTY_WORLD, DropWhileHeld(key)) == None
  {
    var rest := [Arrive(0, "app", 0, true)] + ([FindAny(0)] + LAST_STEPS);
    FirstStep(key);
    ArrivesThenFaults(key);
    RunStep(EMPTY_WORLD, Load(OneInstance(key), ENV), rest);
  }

  lemma FirstStep(key: string)
    ensures var a := Load(OneInstance(key), ENV);
            Protocol(EMPTY_WORLD, a) && MemorySafe(EMPTY_WORLD, a) && Step(EMPTY_WORLD, a) == EMPTY_WORLD.(pool := With(key, 0, true))
  {
    FirstLoad(key);
  }

  lemma ArrivesThenFaults(key: string)
    requires !Canonical(key)
    ensures var w, rest := EMPTY_WORLD.(pool := With(key, 0, true)), [Arrive(0, "app", 0, true)] + ([FindAny(0)] + LAST_STEPS);
            Disciplined(w, rest) && Run(w, rest) == None
  {
    WithIsSound(key, 0, true);
    var w := EMPTY_WORLD.(pool := With(key, 0, true));
    FoundThenFaults(key, w.(reqs := map[0 := WAITING]));
    RunStep(w, Arrive(0, "app", 0, true), [FindAny(0)] + LAST_STEPS);
  }

  /** Every configuration of the run uses this one instance key. */
  ghost predicate OnlyKey(actions: seq<Action>, key: string) {
    forall n, i, j :: 0 <= n < |actions| && actions[n].Load? && 0 <= i < |actions[n].confs| && 0 <= j < |actions[n].confs[i].instances| ==>
      actions[n].confs[i].instances[j].key == key
  }

  lemma {:induction false} CanonicalIsSafe(key: string, actions: seq<Action>)
    requires Canonical(key) && Disciplined(EMPTY_WORLD, actions) && OnlyKey(actions, key)
    ensures Run(EMPTY_WORLD, actions).Some?
  {
    EmptyWorldInv();
    forall n | 0 <= n < |actions| ensures CanonicalAction(actions[n]) {
      OneCanonicalAction(actions, key, n);
    }
    RunIsSafe(EMPTY_WORLD, actions);
  }

  lemma OneCanonicalAction(actions: seq<Action>, key: string, n: nat)
    requires Canonical(key) && OnlyKey(actions, key) && n < |actions|
    ensures CanonicalAction(actions[n])
  {
  }

  lemma OnlyThatKey(key: string)
    ensures OnlyKey(DropWhileHeld(key), key)
  {
  }

  ghost predicate AlwaysSafe(key: string) {
    forall actions :: Disciplined(EMPTY_WORLD, actions) && OnlyKey(actions, key) ==> Run(EMPTY_WORLD, actions).Some?
  }

  /** The canonical keys are the printed ints: no leading zeros, no sign but a minus, nothing beyond an int. */
  lemma CanonicalIsPrinted(key: string)
    ensures Canonical(key) <==> exists n: CInt :: key == ToDec(n)
  {
    if n: CInt :| key == ToDec(n) {
      AtoiOfPrinted(n, []);
      assert ToDec(n) + [] == key;
    }
  }

  /** A number that is no int is cut down to another one, whose spelling differs. */
  lemma BeyondIntIsNotCanonical(n: int)
    requires n < -0x8000_0000 || n > INT_MAX
    ensures !Canonical(ToDec(n))
  {
    if Canonical(ToDec(n)) {
      PrintedIsInjective(Atoi(ToDec(n)), n);
    }
  }

  /** The runs that configure instances under one key are all free of faults exactly when the key is canonical. */
  lemma SafeIffCanonical(key: string)
    ensures Canonical(key) <==> AlwaysSafe(key)
    ensures AlwaysSafe(key) <==> exists n: CInt :: key == ToDec(n)
  {
    CanonicalIsPrinted(key);
    if Canonical(key) {
      forall actions | Disciplined(EMPTY_WORLD, actions) && OnlyKey(actions, key) ensures Run(EMPTY_WORLD, actions).Some? {
        CanonicalIsSafe(key, actions);
      }
    } else {
      NotCanonicalFaults(key);
      OnlyThatKey(key);
    }
  }
}
