/** Reading a configuration keeps the pool invariant, for canonical instance keys. */
module ReloadInvariant {
  import opened Wrappers
  import opened CStrings
  import opened SlotTables
  import opened Pool
  import opened Config
  import opened PoolInvariant

  /** What the invariant says beyond sound references. */
  ghost predicate Linkage(s: State, loading: set<AppPtr>) {
    Filed(s) && Accounted(s, {}) && Registered(s, loading)
  }

  // ---------------------------------------------------------------- one instance

  /** A configured key finds the instance with that number, so configuring it keeps its number. */
  lemma CanonicalKeyIsNumber(s: State, a: AppPtr, key: string)
    requires Sound(s) && Filed(s) && a in s.apps && Canonical(key)
    requires Lookup(s.apps[a].table.slots, key).Some?
    ensures var p := Lookup(s.apps[a].table.slots, key).value;
            p in s.heap && s.heap[p].app == a && s.heap[p].num == Atoi(key) && Linked(s, p)
  {
    var slots := s.apps[a].table.slots;
    var i := FindKey(slots, key).value;
    assert AppSound(s.heap, a, s.apps[a].table) && Keyed(s.heap, slots);
    EntryIsLinked(s, a, i);
    var num := s.heap[slots[i].value].num;
    SameKeyAsPrinted(key, num);
    AtoiOfPrinted(num, []);
    assert ToDec(num) + [] == key;
  }

  lemma ConfigureKeeps(s: State, a: AppPtr, conf: InstanceConf, p: Ptr)
    requires Sound(s) && Linkage(s, {a}) && a in s.apps && Canonical(conf.key)
    requires Lookup(s.apps[a].table.slots, conf.key) == Some(p)
    ensures p in s.heap && Linkage(Update(s, p, Configured(s.heap[p], conf)), {a})
  {
    CanonicalKeyIsNumber(s, a, conf.key);
    SameNumberKeepsLinkage(s, a, p, Configured(s.heap[p], conf));
  }

  lemma SameNumberKeepsLinkage(s: State, a: AppPtr, p: Ptr, inst: Instance)
    requires Linkage(s, {a}) && Linked(s, p) && inst.app == s.heap[p].app && inst.num == s.heap[p].num
    ensures Linkage(Update(s, p, inst), {a})
  {
    SameNumberKeepsFiled(s, p, inst);
    var r := Update(s, p, inst);
    forall q | q in r.heap ensures Linked(s, q) ==> Linked(r, q) {
    }
  }

  lemma SameNumberKeepsFiled(s: State, p: Ptr, inst: Instance)
    requires Filed(s) && p in s.heap && inst.num == s.heap[p].num
    ensures Filed(Update(s, p, inst))
  {
    var r := Update(s, p, inst);
    forall b | b in r.apps ensures Keyed(r.heap, r.apps[b].table.slots) {
      assert Keyed(s.heap, s.apps[b].table.slots);
    }
  }

  /** The pool once an instance has been created for a key that was not there. */
  function Created(s: State, a: AppPtr, conf: InstanceConf, p: Ptr): State
    requires a in s.apps
  {
    s.(heap := s.heap[p := Configured(NewInstance(a), conf)],
       apps := s.apps[a := s.apps[a].(table := Add(s.apps[a].table, conf.key, p))])
  }

  lemma CreateKeeps(s: State, a: AppPtr, conf: InstanceConf, p: Ptr)
    requires Sound(s) && Linkage(s, {a}) && a in s.apps && Canonical(conf.key)
    requires Lookup(s.apps[a].table.slots, conf.key) == None && p !in s.heap
    ensures Linkage(Created(s, a, conf, p), {a})
  {
    CreatedIsFiled(s, a, conf, p);
    CreatedIsAccounted(s, a, conf, p);
  }

  lemma CreatedIsFiled(s: State, a: AppPtr, conf: InstanceConf, p: Ptr)
    requires Sound(s) && Filed(s) && a in s.apps && Canonical(conf.key) && p !in s.heap
    ensures Filed(Created(s, a, conf, p))
  {
    var r := Created(s, a, conf, p);
    forall b | b in r.apps ensures Keyed(r.heap, r.apps[b].table.slots) {
      CreatedIsKeyed(s, a, conf, p, b);
    }
  }

  lemma CreatedIsAccounted(s: State, a: AppPtr, conf: InstanceConf, p: Ptr)
    requires Accounted(s, {}) && a in s.apps && Canonical(conf.key)
    requires Lookup(s.apps[a].table.slots, conf.key) == None && p !in s.heap
    ensures Accounted(Created(s, a, conf, p), {})
  {
    var r := Created(s, a, conf, p);
    forall q | q in r.heap ensures q == p || Linked(s, q) ==> Linked(r, q) {
      if q == p || Linked(s, q) {
        CreatedIsLinked(s, a, conf, p, q);
      }
    }
  }

  lemma CreatedIsKeyed(s: State, a: AppPtr, conf: InstanceConf, p: Ptr, b: AppPtr)
    requires Sound(s) && Filed(s) && a in s.apps && b in s.apps && Canonical(conf.key) && p !in s.heap
    ensures Keyed(s.heap[p := Configured(NewInstance(a), conf)],
                  if b == a then Add(s.apps[a].table, conf.key, p).slots else s.apps[b].table.slots)
  {
    AddIsLocal(s.apps[a].table, conf.key, p);
    assert Keyed(s.heap, s.apps[b].table.slots) && AppSound(s.heap, b, s.apps[b].table);
  }

  lemma CreatedIsLinked(s: State, a: AppPtr, conf: InstanceConf, p: Ptr, q: Ptr)
    requires a in s.apps && Canonical(conf.key) && Lookup(s.apps[a].table.slots, conf.key) == None && p !in s.heap
    requires q == p || Linked(s, q)
    ensures Linked(Created(s, a, conf, p), q)
  {
    var num := if q == p then Atoi(conf.key) else s.heap[q].num;
    if q == p || s.heap[q].app == a {
      LookupAfterAdd(s.apps[a].table, conf.key, p, ToDec(num));
      if q != p && SameKey(conf.key, ToDec(num)) {
        SameKeyAsPrinted(conf.key, num);
      }
    }
  }

  lemma LoadInstanceKeeps(s: State, a: AppPtr, conf: InstanceConf, env: Environment, reqs: map<nat, Request>)
    requires Sound(s) && Linkage(s, {a}) && Held(s.heap, reqs) && a in s.apps && Canonical(conf.key) && Allocates(env)
    ensures Linkage(LoadInstance(s, a, conf, env), {a}) && Held(LoadInstance(s, a, conf, env).heap, reqs)
  {
    match Lookup(s.apps[a].table.slots, conf.key)
    case Some(p) =>
      ConfigureKeeps(s, a, conf, p);
    case None =>
      var p := env.malloc(s.heap.Keys);
      CreateKeeps(s, a, conf, p);
      CreatedIsUnheld(s.heap, reqs, p, Configured(NewInstance(a), conf));
  }

  lemma CreatedIsUnheld(heap: map<Ptr, Instance>, reqs: map<nat, Request>, p: Ptr, inst: Instance)
    requires Held(heap, reqs) && p !in heap && inst.inFlight == 0
    ensures Held(heap[p := inst], reqs)
  {
    assert Holders(reqs, p) == {};
  }

  lemma {:induction false} LoadInstancesKeep(s: State, a: AppPtr, confs: seq<InstanceConf>, env: Environment, reqs: map<nat, Request>)
    requires Sound(s) && Linkage(s, {a}) && Held(s.heap, reqs) && a in s.apps && Allocates(env)
    requires forall i :: 0 <= i < |confs| ==> Canonical(confs[i].key)
    ensures Linkage(LoadInstances(s, a, confs, env), {a}) && Held(LoadInstances(s, a, confs, env).heap, reqs)
    decreases |confs|
  {
    if confs != [] {
      assert Canonical(confs[0].key);
      LoadInstanceSound(s, a, confs[0], env);
      LoadInstanceKeeps(s, a, confs[0], env, reqs);
      LoadInstancesKeep(LoadInstance(s, a, confs[0], env), a, confs[1..], env, reqs);
    }
  }

  // ---------------------------------------------------------------- purge

  /** Lookup after a purge: the valid entries are found as before, the others are gone. */
  lemma LookupAfterPurge(heap: map<Ptr, Instance>, a: AppPtr, t: Table<Ptr>, key: string)
    requires AppSound(heap, a, t)
    ensures Lookup(PurgedSlots(heap, t.slots), key) ==
            match Lookup(t.slots, key) case None => None case Some(p) => if p in heap && heap[p].valid then Some(p) else None
  {
    var slots, slots' := t.slots, PurgedSlots(heap, t.slots);
    match FindKey(slots, key)
    case None => NoMatch(slots', key);
    case Some(i) =>
      assert Matches(slots[i], key);
      if heap[slots[i].value].valid {
        FirstMatch(slots', key, i);
      } else {
        NoMatch(slots', key);
      }
  }

  lemma PurgedRecord(s: State, a: AppPtr, q: Ptr)
    requires Sound(s) && Filed(s) && Accounted(s, {}) && a in s.apps
    requires q in Purge(s, a).heap && s.heap[q].inFlight >= 0
    ensures s.heap[q].valid ==> Linked(Purge(s, a), q)
    ensures Linked(Purge(s, a), q) || s.heap[q].inFlight > 0
  {
    if s.heap[q].app == a {
      assert AppSound(s.heap, a, s.apps[a].table);
      LookupAfterPurge(s.heap, a, s.apps[a].table, ToDec(s.heap[q].num));
      if Linked(s, q) {
        var i := LinkedHasEntry(s, q);
      }
    } else {
      assert Linked(s, q) ==> Linked(Purge(s, a), q);
    }
  }

  lemma PurgeKeepsHeld(s: State, a: AppPtr, reqs: map<nat, Request>)
    requires Sound(s) && Held(s.heap, reqs) && a in s.apps
    ensures Held(Purge(s, a).heap, reqs)
  {
    forall x | x in reqs && reqs[x].holds ensures reqs[x].target.value in Purge(s, a).heap {
      assert x in Holders(reqs, reqs[x].target.value);
    }
  }

  lemma PurgeKeepsFiled(s: State, a: AppPtr)
    requires Sound(s) && Filed(s) && a in s.apps
    ensures Filed(Purge(s, a))
  {
    var r := Purge(s, a);
    assert AppSound(s.heap, a, s.apps[a].table);
    forall b | b in r.apps ensures Keyed(r.heap, r.apps[b].table.slots) {
      assert Keyed(s.heap, s.apps[b].table.slots);
    }
  }

  lemma PurgeKeeps(s: State, a: AppPtr, reqs: map<nat, Request>)
    requires Sound(s) && Linkage(s, {a}) && Held(s.heap, reqs) && a in s.apps
    ensures Linkage(Purge(s, a), {a}) && Held(Purge(s, a).heap, reqs)
  {
    var r := Purge(s, a);
    PurgeKeepsHeld(s, a, reqs);
    PurgeKeepsFiled(s, a);
    forall q | q in r.heap ensures r.heap[q].valid ==> Linked(r, q) ensures Linked(r, q) || r.heap[q].inFlight > 0 {
      PurgedRecord(s, a, q);
    }
  }

  // ---------------------------------------------------------------- one application

  lemma RecordFieldsKeep(s: State, a: AppPtr, app: App, loading: set<AppPtr>)
    requires Linkage(s, loading) && a in s.apps && app.table == s.apps[a].table
    ensures Linkage(s.(apps := s.apps[a := app]), loading)
  {
    var r := s.(apps := s.apps[a := app]);
    forall b | b in r.apps ensures Keyed(r.heap, r.apps[b].table.slots) {
      assert Keyed(s.heap, s.apps[b].table.slots);
    }
    assert forall q :: q in s.heap ==> Linked(s, q) == Linked(r, q);
  }

  lemma LoadAppRecordKeeps(s: State, a: AppPtr, conf: AppConf, env: Environment, reqs: map<nat, Request>)
    requires Sound(s) && Linkage(s, {a}) && Held(s.heap, reqs) && a in s.apps && Allocates(env)
    requires forall i :: 0 <= i < |conf.instances| ==> Canonical(conf.instances[i].key)
    ensures Linkage(LoadAppRecord(s, a, conf, env), {a}) && Held(LoadAppRecord(s, a, conf, env).heap, reqs)
  {
    var app := s.apps[a].(name := conf.name, switchToKnown := conf.switchToKnown, unavailableUntil := conf.unavailableUntil);
    var named := s.(apps := s.apps[a := app]);
    RecordFieldsKeep(s, a, app, {a});
    assert Sound(named) by {
      forall b | b in s.apps ensures AppSound(s.heap, b, named.apps[b].table) {
        assert AppSound(s.heap, b, s.apps[b].table);
      }
    }
    LoadInstancesKeep(named, a, conf.instances, env, reqs);
    LoadInstancesSound(named, a, conf.instances, env);
    var loaded := LoadInstances(named, a, conf.instances, env);
    PurgeKeeps(loaded, a, reqs);
    var purged := Purge(loaded, a);
    RecordFieldsKeep(purged, a, purged.apps[a].(lastIndex := env.draw(Count(purged.apps[a].table.slots))), {a});
  }

  lemma StillRegistered(s: State, a: AppPtr, registry: Table<AppPtr>)
    requires Linkage(s, {a}) && a in s.apps
    requires forall b :: b in s.apps && b != a && b in Values(s.registry.slots) ==> b in Values(registry.slots)
    requires Count(s.apps[a].table.slots) == 0 || a in Values(registry.slots)
    ensures Linkage(s.(registry := registry), {})
  {
    var r := s.(registry := registry);
    assert forall q :: q in s.heap ==> Linked(s, q) == Linked(r, q);
  }

  lemma NewAppKeeps(s: State, a: AppPtr)
    requires Sound(s) && Linkage(s, {}) && a !in s.apps
    ensures Sound(s.(apps := s.apps[a := EMPTY_APP])) && Linkage(s.(apps := s.apps[a := EMPTY_APP]), {a})
  {
    NewAppIsSound(s, a);
    NewAppKeepsLinkage(s, a);
  }

  lemma NewAppKeepsLinkage(s: State, a: AppPtr)
    requires Sound(s) && Linkage(s, {}) && a !in s.apps
    ensures Linkage(s.(apps := s.apps[a := EMPTY_APP]), {a})
  {
    var r := s.(apps := s.apps[a := EMPTY_APP]);
    forall b | b in r.apps ensures Keyed(r.heap, r.apps[b].table.slots) {
      assert b != a ==> Keyed(s.heap, s.apps[b].table.slots);
    }
    assert forall q :: q in s.heap ==> Linked(s, q) == Linked(r, q);
  }

  lemma ReloadedAppKeeps(s: State, conf: AppConf, env: Environment, reqs: map<nat, Request>, a: AppPtr)
    requires Sound(s) && Linkage(s, {}) && Held(s.heap, reqs) && Allocates(env)
    requires forall i :: 0 <= i < |conf.instances| ==> Canonical(conf.instances[i].key)
    requires Lookup(s.registry.slots, conf.name) == Some(a)
    ensures Linkage(LoadApp(s, conf, env), {}) && Held(LoadApp(s, conf, env).heap, reqs)
  {
    LookupIsEntry(s.registry.slots, conf.name);
    LoadAppRecordKeeps(s, a, conf, env, reqs);
    LoadAppRecordSound(s, a, conf, env);
    var loaded := LoadAppRecord(s, a, conf, env);
    RemovedValues(s.registry.slots, conf.name);
    StillRegistered(loaded, a, if Count(loaded.apps[a].table.slots) == 0 then Remove(s.registry, conf.name) else s.registry);
  }

  lemma AddedAppKeeps(s: State, conf: AppConf, env: Environment, reqs: map<nat, Request>)
    requires Sound(s) && Linkage(s, {}) && Held(s.heap, reqs) && Allocates(env)
    requires forall i :: 0 <= i < |conf.instances| ==> Canonical(conf.instances[i].key)
    requires Lookup(s.registry.slots, conf.name) == None
    ensures Linkage(LoadApp(s, conf, env), {}) && Held(LoadApp(s, conf, env).heap, reqs)
  {
    var a := env.malloc(s.apps.Keys);
    var s0 := s.(apps := s.apps[a := EMPTY_APP]);
    NewAppKeeps(s, a);
    LoadAppRecordKeeps(s0, a, conf, env, reqs);
    LoadAppRecordSound(s0, a, conf, env);
    var loaded := LoadAppRecord(s0, a, conf, env);
    AddedValues(s.registry, conf.name, a);
    StillRegistered(loaded, a, if Count(loaded.apps[a].table.slots) == 0 then s.registry else Add(s.registry, conf.name, a));
  }

  lemma AddedValues(t: Table<AppPtr>, key: string, value: AppPtr)
    ensures Values(Add(t, key, value).slots) == Values(t.slots) + {value}
  {
    var slots, slots' := t.slots, Add(t, key, value).slots;
    AddIsLocal(t, key, value);
    forall v | v in Values(slots) ensures v in Values(slots') {
      var j :| 0 <= j < |slots| && slots[j].Live? && slots[j].value == v;
      assert slots'[j] == slots[j];
    }
    assert slots'[AddSlot(t)].value in Values(slots');
  }

  lemma LoadAppKeeps(s: State, conf: AppConf, env: Environment, reqs: map<nat, Request>)
    requires Sound(s) && Linkage(s, {}) && Held(s.heap, reqs) && Allocates(env)
    requires forall i :: 0 <= i < |conf.instances| ==> Canonical(conf.instances[i].key)
    ensures Linkage(LoadApp(s, conf, env), {}) && Held(LoadApp(s, conf, env).heap, reqs)
  {
    match Lookup(s.registry.slots, conf.name)
    case Some(a) => ReloadedAppKeeps(s, conf, env, reqs, a);
    case None => AddedAppKeeps(s, conf, env, reqs);
  }

  lemma {:induction false} RemovedValues(slots: seq<Slot<AppPtr>>, key: string)
    requires FindKey(slots, key).Some?
    ensures var i := FindKey(slots, key).value;
            forall v :: v in Values(slots) && v != slots[i].value ==> v in Values(slots[i := Empty])
  {
    var i := FindKey(slots, key).value;
    forall v | v in Values(slots) && v != slots[i].value ensures v in Values(slots[i := Empty]) {
      var j :| 0 <= j < |slots| && slots[j].Live? && slots[j].value == v;
      assert slots[i := Empty][j] == slots[j];
    }
  }

  // ---------------------------------------------------------------- the whole file

  lemma {:induction false} LoadAppsKeep(s: State, confs: seq<AppConf>, env: Environment, reqs: map<nat, Request>)
    requires Sound(s) && Linkage(s, {}) && Held(s.heap, reqs) && Allocates(env) && CanonicalConf(confs)
    ensures Linkage(LoadApps(s, confs, env), {}) && Held(LoadApps(s, confs, env).heap, reqs)
    decreases |confs|
  {
    if confs != [] {
      LoadAppSound(s, confs[0], env);
      LoadAppKeeps(s, confs[0], env, reqs);
      LoadAppsKeep(LoadApp(s, confs[0], env), confs[1..], env, reqs);
    }
  }

  lemma ClearAllKeeps(s: State, reqs: map<nat, Request>)
    requires PoolInv(s, {}, {}) && Held(s.heap, reqs)
    ensures PoolInv(ClearAll(s), {}, {}) && Held(ClearAll(s).heap, reqs)
  {
    ClearingKeepsRecords(s);
    ShapeKeepsInv(s, ClearAll(s), {});
    SameCountsKeepHeld(s.heap, ClearAll(s).heap, reqs);
  }

  lemma ClearingKeepsRecords(s: State)
    ensures SameShape(s, ClearAll(s))
    ensures forall p :: p in s.heap ==> ClearAll(s).heap[p].inFlight == s.heap[p].inFlight
  {
  }

  lemma ReloadKeepsInv(s: State, confs: seq<AppConf>, env: Environment, reqs: map<nat, Request>)
    requires PoolInv(s, {}, {}) && Held(s.heap, reqs) && Allocates(env) && CanonicalConf(confs)
    ensures PoolInv(Reload(s, confs, env), {}, {}) && Held(Reload(s, confs, env).heap, reqs)
  {
    ClearAllKeeps(s, reqs);
    ClearAllSound(s);
    LoadAppsKeep(ClearAll(s), confs, env, reqs);
  }
}
