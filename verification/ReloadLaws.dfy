/** A reload replaces the set of instances of every configured application, and nothing else. */
module ReloadLaws {
  import opened Wrappers
  import opened CStrings
  import opened SlotTables
  import opened Pool
  import opened Config
  import opened PoolInvariant
  import opened ReloadInvariant

  function EntryFor(s: State, a: AppPtr, key: string): Option<Ptr>
    requires a in s.apps
  {
    Lookup(s.apps[a].table.slots, key)
  }

  /** The record an instance of application a starts from when it is configured. */
  ghost function Basis(s: State, a: AppPtr, key: string): Instance
    requires a in s.apps
  {
    match EntryFor(s, a, key)
    case Some(p) => if p in s.heap then s.heap[p] else NewInstance(a)
    case None => NewInstance(a)
  }

  /** The entry for a configured key: an existing instance keeps its address and its counts. */
  ghost predicate InstanceLoaded(s: State, s': State, a: AppPtr, conf: InstanceConf)
    requires a in s.apps && a in s'.apps
  {
    var entry := EntryFor(s', a, conf.key);
    && entry.Some? && entry.value in s'.heap
    && s'.heap[entry.value] == Configured(Basis(s, a, conf.key), conf)
    && (EntryFor(s, a, conf.key).Some? ==> entry == EntryFor(s, a, conf.key))
  }

  ghost predicate EntryKept(s: State, s': State, a: AppPtr, key: string)
    requires a in s.apps && a in s'.apps
  {
    && EntryFor(s', a, key) == EntryFor(s, a, key)
    && (EntryFor(s, a, key).Some? ==>
          var p := EntryFor(s, a, key).value; p in s.heap && p in s'.heap && s'.heap[p] == s.heap[p])
  }

  ghost predicate DistinctKeys(confs: seq<InstanceConf>) {
    forall i, j :: 0 <= i < j < |confs| ==> !SameKey(confs[i].key, confs[j].key)
  }

  // ---------------------------------------------------------------- the instance loop

  lemma LoadsItsKey(s: State, a: AppPtr, conf: InstanceConf, env: Environment)
    requires Sound(s) && a in s.apps && Allocates(env)
    ensures InstanceLoaded(s, LoadInstance(s, a, conf, env), a, conf)
  {
    var slots := s.apps[a].table.slots;
    assert AppSound(s.heap, a, s.apps[a].table);
    match Lookup(slots, conf.key)
    case Some(p) => LookupIsEntry(slots, conf.key);
    case None => LookupAfterAdd(s.apps[a].table, conf.key, env.malloc(s.heap.Keys), conf.key);
  }

  lemma KeepsOtherKeys(s: State, a: AppPtr, conf: InstanceConf, env: Environment, key: string)
    requires Sound(s) && a in s.apps && Allocates(env) && !SameKey(conf.key, key)
    ensures EntryKept(s, LoadInstance(s, a, conf, env), a, key)
  {
    var t := s.apps[a].table;
    assert AppSound(s.heap, a, t);
    if Lookup(t.slots, key).Some? {
      LookupIsEntry(t.slots, key);
    }
    if Lookup(t.slots, conf.key).Some? {
      DifferentKeysDifferentEntries(t.slots, conf.key, key);
    } else {
      LookupAfterAdd(t, conf.key, env.malloc(s.heap.Keys), key);
    }
  }

  lemma DifferentKeysDifferentEntries<V>(slots: seq<Slot<V>>, key: string, other: string)
    requires Injective(slots) && !SameKey(key, other) && Lookup(slots, key).Some?
    ensures Lookup(slots, other) != Lookup(slots, key)
  {
    assert Matches(slots[FindKey(slots, key).value], key);
    if FindKey(slots, other).Some? {
      assert Matches(slots[FindKey(slots, other).value], other);
    }
  }

  lemma KeptTwice(s: State, m: State, s': State, a: AppPtr, key: string)
    requires a in s.apps && a in m.apps && a in s'.apps && EntryKept(s, m, a, key) && EntryKept(m, s', a, key)
    ensures EntryKept(s, s', a, key)
  {
  }

  lemma LoadedThenKept(s: State, m: State, s': State, a: AppPtr, conf: InstanceConf)
    requires a in s.apps && a in m.apps && a in s'.apps
    requires InstanceLoaded(s, m, a, conf) && EntryKept(m, s', a, conf.key)
    ensures InstanceLoaded(s, s', a, conf)
  {
  }

  lemma KeptThenLoaded(s: State, m: State, s': State, a: AppPtr, conf: InstanceConf)
    requires a in s.apps && a in m.apps && a in s'.apps
    requires EntryKept(s, m, a, conf.key) && InstanceLoaded(m, s', a, conf)
    ensures InstanceLoaded(s, s', a, conf)
  {
  }

  lemma {:induction false} UnconfiguredKeyKept(s: State, a: AppPtr, confs: seq<InstanceConf>, env: Environment, key: string)
    requires Sound(s) && a in s.apps && Allocates(env)
    requires forall i :: 0 <= i < |confs| ==> !SameKey(confs[i].key, key)
    ensures EntryKept(s, LoadInstances(s, a, confs, env), a, key)
    decreases |confs|
  {
    if confs == [] {
      if EntryFor(s, a, key).Some? {
        assert AppSound(s.heap, a, s.apps[a].table);
        LookupIsEntry(s.apps[a].table.slots, key);
      }
    } else {
      var m := LoadInstance(s, a, confs[0], env);
      LoadInstanceSound(s, a, confs[0], env);
      KeepsOtherKeys(s, a, confs[0], env, key);
      UnconfiguredKeyKept(m, a, confs[1..], env, key);
      KeptTwice(s, m, LoadInstances(m, a, confs[1..], env), a, key);
    }
  }

  lemma {:induction false} FirstKeyLoaded(s: State, a: AppPtr, conf: InstanceConf, rest: seq<InstanceConf>, env: Environment)
    requires Sound(s) && a in s.apps && Allocates(env)
    requires forall j :: 0 <= j < |rest| ==> !SameKey(conf.key, rest[j].key)
    ensures Sound(LoadInstance(s, a, conf, env))
    ensures InstanceLoaded(s, LoadInstances(LoadInstance(s, a, conf, env), a, rest, env), a, conf)
  {
    var m := LoadInstance(s, a, conf, env);
    LoadInstanceSound(s, a, conf, env);
    LoadsItsKey(s, a, conf, env);
    UnconfiguredKeyKept(m, a, rest, env, conf.key);
    LoadedThenKept(s, m, LoadInstances(m, a, rest, env), a, conf);
  }

  lemma {:induction false} ConfiguredKeyLoaded(s: State, a: AppPtr, confs: seq<InstanceConf>, env: Environment, i: nat)
    requires Sound(s) && a in s.apps && Allocates(env) && DistinctKeys(confs) && i < |confs|
    ensures InstanceLoaded(s, LoadInstances(s, a, confs, env), a, confs[i])
    decreases |confs|
  {
    var m, rest := LoadInstance(s, a, confs[0], env), confs[1..];
    LoadInstanceSound(s, a, confs[0], env);
    assert forall j :: 0 <= j < |rest| ==> rest[j] == confs[j + 1];
    if i == 0 {
      FirstKeyLoaded(s, a, confs[0], rest, env);
    } else {
      ConfiguredKeyLoaded(m, a, rest, env, i - 1);
      KeepsOtherKeys(s, a, confs[0], env, confs[i].key);
      KeptThenLoaded(s, m, LoadInstances(m, a, rest, env), a, confs[i]);
    }
  }

  // ---------------------------------------------------------------- the application record

  /** Nothing of this application is valid before its instances are read. */
  ghost predicate AllInvalid(s: State, a: AppPtr)
    requires a in s.apps
  {
    forall p :: p in s.heap && s.heap[p].app == a ==> !s.heap[p].valid
  }

  ghost predicate RecordLoaded(s: State, s': State, a: AppPtr, conf: AppConf)
    requires a in s.apps && a in s'.apps
  {
    && (forall i :: 0 <= i < |conf.instances| ==> InstanceLoaded(s, s', a, conf.instances[i]))
    && (forall key :: EntryFor(s', a, key).Some? ==> exists i :: 0 <= i < |conf.instances| && SameKey(conf.instances[i].key, key))
    && (Count(s'.apps[a].table.slots) == 0 <==> conf.instances == [])
    && s'.apps[a].name == conf.name && s'.apps[a].switchToKnown == conf.switchToKnown && s'.apps[a].unavailableUntil == conf.unavailableUntil
  }

  lemma PurgeKeepsLoaded(s: State, loaded: State, a: AppPtr, conf: InstanceConf)
    requires Sound(loaded) && a in s.apps && a in loaded.apps && InstanceLoaded(s, loaded, a, conf)
    ensures InstanceLoaded(s, Purge(loaded, a), a, conf)
  {
    assert AppSound(loaded.heap, a, loaded.apps[a].table);
    LookupAfterPurge(loaded.heap, a, loaded.apps[a].table, conf.key);
  }

  lemma PurgeDropsKept(s: State, loaded: State, a: AppPtr, key: string)
    requires Sound(s) && Sound(loaded) && a in s.apps && a in loaded.apps && EntryKept(s, loaded, a, key) && AllInvalid(s, a)
    ensures EntryFor(Purge(loaded, a), a, key) == None
  {
    assert AppSound(loaded.heap, a, loaded.apps[a].table) && AppSound(s.heap, a, s.apps[a].table);
    LookupAfterPurge(loaded.heap, a, loaded.apps[a].table, key);
    if EntryFor(s, a, key).Some? {
      LookupIsEntry(s.apps[a].table.slots, key);
    }
  }

  lemma NotEmptyMeansFound(slots: seq<Slot<Ptr>>) returns (key: string)
    requires Count(slots) > 0
    ensures Lookup(slots, key).Some?
  {
    var i := SlotOfEntry(slots, 0);
    key := slots[i].key;
    assert Matches(slots[i], key);
  }

  lemma FoundMeansNotEmpty(slots: seq<Slot<Ptr>>, key: string)
    requires Lookup(slots, key).Some?
    ensures Count(slots) > 0
  {
    var j := EntryOfSlot(slots, FindKey(slots, key).value);
  }

  function Named(s: State, a: AppPtr, conf: AppConf): State
    requires a in s.apps
  {
    s.(apps := s.apps[a := s.apps[a].(name := conf.name, switchToKnown := conf.switchToKnown, unavailableUntil := conf.unavailableUntil)])
  }

  /** The parts of LoadAppRecord, with sound references all the way. */
  lemma RecordSteps(s: State, a: AppPtr, conf: AppConf, env: Environment) returns (loaded: State, purged: State)
    requires Sound(s) && a in s.apps && Allocates(env)
    ensures Sound(Named(s, a, conf)) && Sound(loaded) && a in loaded.apps
    ensures loaded == LoadInstances(Named(s, a, conf), a, conf.instances, env) && purged == Purge(loaded, a)
    ensures var s' := LoadAppRecord(s, a, conf, env);
            && s'.heap == purged.heap && s'.apps[a].table == purged.apps[a].table && s'.apps[a].name == loaded.apps[a].name
            && s'.apps[a].switchToKnown == loaded.apps[a].switchToKnown && s'.apps[a].unavailableUntil == loaded.apps[a].unavailableUntil
  {
    NamedIsSound(s, a, Named(s, a, conf).apps[a]);
    loaded := LoadInstances(Named(s, a, conf), a, conf.instances, env);
    LoadInstancesSound(Named(s, a, conf), a, conf.instances, env);
    purged := Purge(loaded, a);
  }

  lemma RecordLoadsInstance(s: State, a: AppPtr, conf: AppConf, env: Environment, i: nat)
    requires Sound(s) && a in s.apps && Allocates(env) && DistinctKeys(conf.instances) && i < |conf.instances|
    ensures InstanceLoaded(s, LoadAppRecord(s, a, conf, env), a, conf.instances[i])
  {
    var loaded, purged := RecordSteps(s, a, conf, env);
    var named := Named(s, a, conf);
    ConfiguredKeyLoaded(named, a, conf.instances, env, i);
    PurgeKeepsLoaded(named, loaded, a, conf.instances[i]);
    SameView(named, s, purged, LoadAppRecord(s, a, conf, env), a, conf.instances[i]);
  }

  lemma SameView(s: State, t: State, s': State, t': State, a: AppPtr, conf: InstanceConf)
    requires a in s.apps && a in t.apps && a in s'.apps && a in t'.apps
    requires s.heap == t.heap && s.apps[a].table == t.apps[a].table && s'.heap == t'.heap && s'.apps[a].table == t'.apps[a].table
    requires InstanceLoaded(s, s', a, conf)
    ensures InstanceLoaded(t, t', a, conf)
  {
    assert EntryFor(t', a, conf.key) == EntryFor(s', a, conf.key) && EntryFor(t, a, conf.key) == EntryFor(s, a, conf.key);
    assert Basis(t, a, conf.key) == Basis(s, a, conf.key);
  }

  lemma RecordDropsOthers(s: State, a: AppPtr, conf: AppConf, env: Environment, key: string)
    requires Sound(s) && a in s.apps && Allocates(env) && AllInvalid(s, a)
    requires forall i :: 0 <= i < |conf.instances| ==> !SameKey(conf.instances[i].key, key)
    ensures EntryFor(LoadAppRecord(s, a, conf, env), a, key) == None
  {
    var loaded, purged := RecordSteps(s, a, conf, env);
    UnconfiguredKeyKept(Named(s, a, conf), a, conf.instances, env, key);
    PurgeDropsKept(Named(s, a, conf), loaded, a, key);
  }

  lemma RecordFindsOnly(s: State, a: AppPtr, conf: AppConf, env: Environment, key: string)
    requires Sound(s) && a in s.apps && Allocates(env) && AllInvalid(s, a) && DistinctKeys(conf.instances)
    requires EntryFor(LoadAppRecord(s, a, conf, env), a, key).Some?
    ensures exists i :: 0 <= i < |conf.instances| && SameKey(conf.instances[i].key, key)
  {
    if forall i :: 0 <= i < |conf.instances| ==> !SameKey(conf.instances[i].key, key) {
      RecordDropsOthers(s, a, conf, env, key);
    }
  }

  lemma RecordIsEmptyIff(s: State, a: AppPtr, conf: AppConf, env: Environment)
    requires Sound(s) && a in s.apps && Allocates(env) && AllInvalid(s, a) && DistinctKeys(conf.instances)
    ensures Count(LoadAppRecord(s, a, conf, env).apps[a].table.slots) == 0 <==> conf.instances == []
  {
    var slots := LoadAppRecord(s, a, conf, env).apps[a].table.slots;
    if conf.instances != [] {
      RecordLoadsInstance(s, a, conf, env, 0);
      FoundMeansNotEmpty(slots, conf.instances[0].key);
    } else if Count(slots) > 0 {
      var key := NotEmptyMeansFound(slots);
      RecordDropsOthers(s, a, conf, env, key);
    }
  }

  lemma RecordKeepsFields(s: State, a: AppPtr, conf: AppConf, env: Environment)
    requires Sound(s) && a in s.apps && Allocates(env)
    ensures var app := LoadAppRecord(s, a, conf, env).apps[a];
            app.name == conf.name && app.switchToKnown == conf.switchToKnown && app.unavailableUntil == conf.unavailableUntil
  {
    LoadInstancesName(Named(s, a, conf), a, conf.instances, env);
  }

  lemma RecordIsLoaded(s: State, a: AppPtr, conf: AppConf, env: Environment)
    requires Sound(s) && a in s.apps && Allocates(env) && AllInvalid(s, a) && DistinctKeys(conf.instances)
    ensures RecordLoaded(s, LoadAppRecord(s, a, conf, env), a, conf)
  {
    var s' := LoadAppRecord(s, a, conf, env);
    forall i | 0 <= i < |conf.instances| ensures InstanceLoaded(s, s', a, conf.instances[i]) {
      RecordLoadsInstance(s, a, conf, env, i);
    }
    forall key | EntryFor(s', a, key).Some? ensures exists i :: 0 <= i < |conf.instances| && SameKey(conf.instances[i].key, key) {
      RecordFindsOnly(s, a, conf, env, key);
    }
    RecordIsEmptyIff(s, a, conf, env);
    RecordKeepsFields(s, a, conf, env);
  }

  lemma {:induction false} LoadInstancesName(s: State, a: AppPtr, confs: seq<InstanceConf>, env: Environment)
    requires a in s.apps && Owned(s.heap, a, s.apps[a].table.slots)
    ensures var app, app' := s.apps[a], LoadInstances(s, a, confs, env).apps[a];
            app'.name == app.name && app'.switchToKnown == app.switchToKnown && app'.unavailableUntil == app.unavailableUntil
    decreases |confs|
  {
    if confs != [] {
      LoadInstancesName(LoadInstance(s, a, confs[0], env), a, confs[1..], env);
    }
  }

  // ---------------------------------------------------------------- other applications

  /** The records of the instances of application b are untouched, and there are no new ones. */
  ghost predicate RecordsKept(s: State, s': State, b: AppPtr) {
    && (forall p :: p in s.heap && s.heap[p].app == b ==> p in s'.heap && s'.heap[p] == s.heap[p])
    && (forall p :: p in s'.heap && s'.heap[p].app == b ==> p in s.heap && s.heap[p].app == b)
  }

  lemma LoadInstanceKeepsOthers(s: State, a: AppPtr, conf: InstanceConf, env: Environment, b: AppPtr)
    requires Sound(s) && a in s.apps && Allocates(env) && b != a
    ensures RecordsKept(s, LoadInstance(s, a, conf, env), b)
  {
    assert AppSound(s.heap, a, s.apps[a].table);
    if Lookup(s.apps[a].table.slots, conf.key).Some? {
      LookupIsEntry(s.apps[a].table.slots, conf.key);
    }
  }

  lemma RecordsKeptTwice(s: State, m: State, s': State, b: AppPtr)
    requires RecordsKept(s, m, b) && RecordsKept(m, s', b)
    ensures RecordsKept(s, s', b)
  {
  }

  lemma {:induction false} LoadInstancesKeepOthers(s: State, a: AppPtr, confs: seq<InstanceConf>, env: Environment, b: AppPtr)
    requires Sound(s) && a in s.apps && Allocates(env) && b != a
    ensures RecordsKept(s, LoadInstances(s, a, confs, env), b)
    decreases |confs|
  {
    if confs != [] {
      var m := LoadInstance(s, a, confs[0], env);
      LoadInstanceSound(s, a, confs[0], env);
      LoadInstanceKeepsOthers(s, a, confs[0], env, b);
      LoadInstancesKeepOthers(m, a, confs[1..], env, b);
      RecordsKeptTwice(s, m, LoadInstances(m, a, confs[1..], env), b);
    }
  }

  lemma RecordKeepsOthers(s: State, a: AppPtr, conf: AppConf, env: Environment, b: AppPtr)
    requires Sound(s) && a in s.apps && Allocates(env) && b != a
    ensures RecordsKept(s, LoadAppRecord(s, a, conf, env), b)
    ensures b in s.apps ==> LoadAppRecord(s, a, conf, env).apps[b] == s.apps[b]
  {
    var app := s.apps[a].(name := conf.name, switchToKnown := conf.switchToKnown, unavailableUntil := conf.unavailableUntil);
    var named := s.(apps := s.apps[a := app]);
    NamedIsSound(s, a, app);
    LoadInstancesKeepOthers(named, a, conf.instances, env, b);
    LoadInstancesFrame(named, a, conf.instances, env);
    LoadInstancesSound(named, a, conf.instances, env);
    var loaded := LoadInstances(named, a, conf.instances, env);
    assert AppSound(loaded.heap, a, loaded.apps[a].table);
  }

  /** What a registered name stands for has not changed. */
  ghost predicate AppKept(s: State, s': State, name: string) {
    var entry := Lookup(s.registry.slots, name);
    && Lookup(s'.registry.slots, name) == entry
    && (entry.Some? ==> entry.value in s.apps && entry.value in s'.apps && s'.apps[entry.value] == s.apps[entry.value]
                        && RecordsKept(s, s', entry.value))
  }

  lemma KnownAppKeepsOthers(s: State, conf: AppConf, env: Environment, name: string, a: AppPtr)
    requires Sound(s) && Allocates(env) && !SameKey(conf.name, name) && Lookup(s.registry.slots, conf.name) == Some(a)
    ensures AppKept(s, LoadApp(s, conf, env), name)
  {
    LookupIsEntry(s.registry.slots, conf.name);
    LoadAppRecordSound(s, a, conf, env);
    LookupAfterRemove(s.registry, conf.name, name);
    var entry := Lookup(s.registry.slots, name);
    if entry.Some? {
      LookupIsEntry(s.registry.slots, name);
      DifferentKeysDifferentEntries(s.registry.slots, conf.name, name);
      RecordKeepsOthers(s, a, conf, env, entry.value);
    }
  }

  lemma NewAppKeepsOthers(s: State, conf: AppConf, env: Environment, name: string)
    requires Sound(s) && Allocates(env) && !SameKey(conf.name, name) && Lookup(s.registry.slots, conf.name) == None
    ensures AppKept(s, LoadApp(s, conf, env), name)
  {
    var a := env.malloc(s.apps.Keys);
    var s0 := s.(apps := s.apps[a := EMPTY_APP]);
    NewAppIsSound(s, a);
    LoadAppRecordSound(s0, a, conf, env);
    LookupAfterAdd(s.registry, conf.name, a, name);
    var entry := Lookup(s.registry.slots, name);
    if entry.Some? {
      LookupIsEntry(s.registry.slots, name);
      RecordKeepsOthers(s0, a, conf, env, entry.value);
    }
  }

  lemma OtherAppsKept(s: State, conf: AppConf, env: Environment, name: string)
    requires Sound(s) && Allocates(env) && !SameKey(conf.name, name)
    ensures AppKept(s, LoadApp(s, conf, env), name)
  {
    match Lookup(s.registry.slots, conf.name)
    case Some(a) => KnownAppKeepsOthers(s, conf, env, name, a);
    case None => NewAppKeepsOthers(s, conf, env, name);
  }

  // ---------------------------------------------------------------- one application of the file

  /** After its turn in the application loop the configured set is exactly what can be found. */
  ghost predicate AppLoaded(s: State, s': State, conf: AppConf) {
    match Lookup(s'.registry.slots, conf.name)
    case None => conf.instances == []
    case Some(a) =>
      && conf.instances != [] && a in s'.apps
      && (match Lookup(s.registry.slots, conf.name)
          case Some(b) => b == a && a in s.apps && RecordLoaded(s, s', a, conf)
          case None => RecordLoaded(s.(apps := s.apps[a := EMPTY_APP]), s', a, conf))
  }

  lemma RegistryDoesNotMatter(s: State, s': State, a: AppPtr, conf: AppConf, registry: Table<AppPtr>)
    requires a in s.apps && a in s'.apps && RecordLoaded(s, s', a, conf)
    ensures RecordLoaded(s, s'.(registry := registry), a, conf)
  {
    var t := s'.(registry := registry);
    forall i | 0 <= i < |conf.instances| ensures InstanceLoaded(s, t, a, conf.instances[i]) {
      SameView(s, s, s', t, a, conf.instances[i]);
    }
    assert forall key :: EntryFor(t, a, key) == EntryFor(s', a, key);
  }

  lemma LoadsKnownApp(s: State, conf: AppConf, env: Environment, a: AppPtr)
    requires Sound(s) && Allocates(env) && DistinctKeys(conf.instances)
    requires Lookup(s.registry.slots, conf.name) == Some(a) && a in s.apps && AllInvalid(s, a)
    ensures AppLoaded(s, LoadApp(s, conf, env), conf)
  {
    RecordIsLoaded(s, a, conf, env);
    LoadAppRecordSound(s, a, conf, env);
    LookupAfterRemove(s.registry, conf.name, conf.name);
  }

  lemma LoadsNewApp(s: State, conf: AppConf, env: Environment)
    requires Sound(s) && Allocates(env) && DistinctKeys(conf.instances)
    requires Lookup(s.registry.slots, conf.name) == None
    ensures AppLoaded(s, LoadApp(s, conf, env), conf)
  {
    var a := env.malloc(s.apps.Keys);
    var s0 := s.(apps := s.apps[a := EMPTY_APP]);
    NewAppIsSound(s, a);
    RecordIsLoaded(s0, a, conf, env);
    LoadAppRecordSound(s0, a, conf, env);
    LookupAfterAdd(s.registry, conf.name, a, conf.name);
    var loaded := LoadAppRecord(s0, a, conf, env);
    RegistryDoesNotMatter(s0, loaded, a, conf, LoadApp(s, conf, env).registry);
    assert conf.instances != [] ==> LoadApp(s, conf, env) == loaded.(registry := LoadApp(s, conf, env).registry);
  }

  // ---------------------------------------------------------------- the whole file

  lemma LoadedThenAppKept(s: State, m: State, s': State, conf: AppConf)
    requires Sound(m) && AppLoaded(s, m, conf) && AppKept(m, s', conf.name)
    ensures AppLoaded(s, s', conf)
  {
    if Lookup(m.registry.slots, conf.name).Some? {
      var a := Lookup(m.registry.slots, conf.name).value;
      var basis := if Lookup(s.registry.slots, conf.name).Some? then s else s.(apps := s.apps[a := EMPTY_APP]);
      assert RecordLoaded(basis, m, a, conf);
      forall i | 0 <= i < |conf.instances| ensures InstanceLoaded(basis, s', a, conf.instances[i]) {
        assert InstanceLoaded(basis, m, a, conf.instances[i]);
        assert AppSound(m.heap, a, m.apps[a].table);
        LookupIsEntry(m.apps[a].table.slots, conf.instances[i].key);
      }
      assert forall key :: EntryFor(s', a, key) == EntryFor(m, a, key);
    }
  }

  /** Only the entries and records of the application matter for where a reload starts from. */
  lemma SameBasis(s: State, t: State, s': State, a: AppPtr, conf: AppConf)
    requires a in s.apps && a in t.apps && a in s'.apps && RecordLoaded(s, s', a, conf)
    requires forall key :: EntryFor(t, a, key) == EntryFor(s, a, key)
    requires forall key, c :: Configured(Basis(t, a, key), c) == Configured(Basis(s, a, key), c)
    ensures RecordLoaded(t, s', a, conf)
  {
    forall i | 0 <= i < |conf.instances| ensures InstanceLoaded(t, s', a, conf.instances[i]) {
      assert InstanceLoaded(s, s', a, conf.instances[i]);
    }
  }

  /** What a name stood for before, seen from a later state in which it has not changed. */
  lemma AppKeptThenLoaded(s: State, m: State, s': State, conf: AppConf)
    requires Sound(s) && AppKept(s, m, conf.name) && AppLoaded(m, s', conf)
    ensures AppLoaded(s, s', conf)
  {
    if Lookup(s'.registry.slots, conf.name).Some? {
      var a := Lookup(s'.registry.slots, conf.name).value;
      if Lookup(s.registry.slots, conf.name).Some? {
        forall key ensures Basis(s, a, key) == Basis(m, a, key) {
          assert AppSound(s.heap, a, s.apps[a].table);
          if EntryFor(s, a, key).Some? {
            LookupIsEntry(s.apps[a].table.slots, key);
          }
        }
        SameBasis(m, s, s', a, conf);
      } else {
        SameBasis(m.(apps := m.apps[a := EMPTY_APP]), s.(apps := s.apps[a := EMPTY_APP]), s', a, conf);
      }
    }
  }

  lemma KeptAppTwice(s: State, m: State, s': State, name: string)
    requires AppKept(s, m, name) && AppKept(m, s', name)
    ensures AppKept(s, s', name)
  {
  }

  /** A name that is not configured keeps its application as it is. */
  lemma {:induction false} UnconfiguredAppKept(s: State, confs: seq<AppConf>, env: Environment, name: string)
    requires Sound(s) && Allocates(env)
    requires forall j :: 0 <= j < |confs| ==> !SameKey(confs[j].name, name)
    ensures AppKept(s, LoadApps(s, confs, env), name)
    decreases |confs|
  {
    if confs == [] {
      if Lookup(s.registry.slots, name).Some? {
        LookupIsEntry(s.registry.slots, name);
      }
    } else {
      LoadAppSound(s, confs[0], env);
      OtherAppsKept(s, confs[0], env, name);
      UnconfiguredAppKept(LoadApp(s, confs[0], env), confs[1..], env, name);
      KeptAppTwice(s, LoadApp(s, confs[0], env), LoadApps(LoadApp(s, confs[0], env), confs[1..], env), name);
    }
  }

  ghost predicate DistinctNames(confs: seq<AppConf>) {
    forall i, j :: 0 <= i < j < |confs| ==> !SameKey(confs[i].name, confs[j].name)
  }

  /** If the name is registered, none of its instances is valid. */
  ghost predicate NameInvalid(s: State, name: string) {
    var entry := Lookup(s.registry.slots, name);
    entry.Some? ==> entry.value in s.apps && forall p :: p in s.heap && s.heap[p].app == entry.value ==> !s.heap[p].valid
  }

  lemma NameStaysInvalid(s: State, m: State, name: string)
    requires NameInvalid(s, name) && AppKept(s, m, name)
    ensures NameInvalid(m, name)
  {
  }

  lemma LoadsItsApp(s: State, conf: AppConf, env: Environment)
    requires Sound(s) && Allocates(env) && DistinctKeys(conf.instances) && NameInvalid(s, conf.name)
    ensures AppLoaded(s, LoadApp(s, conf, env), conf)
  {
    match Lookup(s.registry.slots, conf.name)
    case Some(a) => LoadsKnownApp(s, conf, env, a);
    case None => LoadsNewApp(s, conf, env);
  }

  /** Application j of the file is ready to be loaded. */
  ghost predicate ReadyAt(s: State, confs: seq<AppConf>, env: Environment, j: nat)
    requires j < |confs|
  {
    forall i {:trigger Look(i)} :: Look(i) ==>
      && Sound(s) && Allocates(env)
      && DistinctNames(confs) && DistinctKeys(confs[j].instances) && NameInvalid(s, confs[j].name)
  }

  /** Application j of the file is loaded. */
  ghost predicate LoadedAt(s: State, confs: seq<AppConf>, env: Environment, j: nat)
    requires j < |confs|
  {
    forall i {:trigger Look(i)} :: Look(i) ==> Sound(s) && Allocates(env) && AppLoaded(s, LoadApps(s, confs, env), confs[j])
  }

  ghost function AfterFirst(s: State, confs: seq<AppConf>, env: Environment): State
    requires confs != []
  {
    if Sound(s) && Allocates(env) then LoadApp(s, confs[0], env) else s
  }

  lemma OtherNameStaysInvalid(s: State, conf: AppConf, env: Environment, name: string)
    requires Sound(s) && Allocates(env) && !SameKey(conf.name, name) && NameInvalid(s, name)
    ensures NameInvalid(LoadApp(s, conf, env), name)
  {
    OtherAppsKept(s, conf, env, name);
    NameStaysInvalid(s, LoadApp(s, conf, env), name);
  }

  lemma RestIsDistinct(confs: seq<AppConf>)
    requires DistinctNames(confs) && confs != []
    ensures DistinctNames(confs[1..])
    ensures forall i :: 0 <= i < |confs[1..]| ==> !SameKey(confs[0].name, confs[1..][i].name)
  {
    assert forall i :: 0 <= i < |confs[1..]| ==> confs[1..][i] == confs[i + 1];
  }

  lemma FirstAppLoaded(s: State, confs: seq<AppConf>, env: Environment)
    requires confs != [] && ReadyAt(s, confs, env, 0)
    ensures LoadedAt(s, confs, env, 0)
  {
    assert Look(0);
    var m := LoadApp(s, confs[0], env);
    LoadAppSound(s, confs[0], env);
    RestIsDistinct(confs);
    LoadsItsApp(s, confs[0], env);
    UnconfiguredAppKept(m, confs[1..], env, confs[0].name);
    LoadedThenAppKept(s, m, LoadApps(m, confs[1..], env), confs[0]);
  }

  lemma StillReady(s: State, confs: seq<AppConf>, env: Environment, j: nat)
    requires 0 < j < |confs| && ReadyAt(s, confs, env, j)
    ensures ReadyAt(AfterFirst(s, confs, env), confs[1..], env, j - 1)
  {
    assert Look(0);
    LoadAppSound(s, confs[0], env);
    RestIsDistinct(confs);
    OtherNameStaysInvalid(s, confs[0], env, confs[j].name);
  }

  lemma LaterAppLoaded(s: State, confs: seq<AppConf>, env: Environment, j: nat)
    requires 0 < j < |confs| && ReadyAt(s, confs, env, j)
    requires LoadedAt(AfterFirst(s, confs, env), confs[1..], env, j - 1)
    ensures LoadedAt(s, confs, env, j)
  {
    assert Look(0);
    var m := LoadApp(s, confs[0], env);
    OtherAppsKept(s, confs[0], env, confs[j].name);
    AppKeptThenLoaded(s, m, LoadApps(m, confs[1..], env), confs[j]);
  }

  lemma {:induction false} ConfiguredAppLoaded(s: State, confs: seq<AppConf>, env: Environment, j: nat)
    requires j < |confs| && ReadyAt(s, confs, env, j)
    ensures LoadedAt(s, confs, env, j)
    decreases |confs|
  {
    if j == 0 {
      FirstAppLoaded(s, confs, env);
    } else {
      StillReady(s, confs, env, j);
      ConfiguredAppLoaded(AfterFirst(s, confs, env), confs[1..], env, j - 1);
      LaterAppLoaded(s, confs, env, j);
    }
  }

  /**
   A reload replaces the set of instances of each configured application: what can be found afterwards
   is exactly what is configured, all of it valid and alive; an instance that was there before keeps its
   address, its open count and its handled count, and takes host and port from the file where given.
   An application configured without instances is no longer registered.
   */
  lemma ReloadReplacesSet(s: State, confs: seq<AppConf>, env: Environment, j: nat)
    requires PoolInv(s, {}, {}) && Allocates(env) && DistinctNames(confs) && j < |confs| && DistinctKeys(confs[j].instances)
    ensures AppLoaded(s, Reload(s, confs, env), confs[j])
  {
    ClearAllSound(s);
    NothingValidWhenCleared(s);
    if Lookup(s.registry.slots, confs[j].name).Some? {
      LookupIsEntry(s.registry.slots, confs[j].name);
    }
    assert Look(0);
    ConfiguredAppLoaded(ClearAll(s), confs, env, j);
    SeenFromBeforeClearing(s, LoadApps(ClearAll(s), confs, env), confs[j]);
  }

  lemma SurvivorLoaded(s: State, s': State, conf: AppConf, i: nat, a: AppPtr, p: Ptr)
    requires Sound(s) && AppLoaded(s, s', conf) && Lookup(s.registry.slots, conf.name) == Some(a) && a in s.apps
    requires i < |conf.instances| && EntryFor(s, a, conf.instances[i].key) == Some(p)
    ensures Lookup(s'.registry.slots, conf.name) == Some(a) && a in s'.apps && EntryFor(s', a, conf.instances[i].key) == Some(p)
    ensures p in s.heap && p in s'.heap && s'.heap[p] == Configured(s.heap[p], conf.instances[i])
  {
    assert AppSound(s.heap, a, s.apps[a].table);
    LookupIsEntry(s.apps[a].table.slots, conf.instances[i].key);
    assert InstanceLoaded(s, s', a, conf.instances[i]);
  }

  /** The same for one instance that stays configured: only validity, retry time and address data change. */
  lemma SurvivorKeepsCounts(s: State, confs: seq<AppConf>, env: Environment, j: nat, i: nat, a: AppPtr, p: Ptr)
    requires PoolInv(s, {}, {}) && Allocates(env) && DistinctNames(confs) && j < |confs| && DistinctKeys(confs[j].instances)
    requires Lookup(s.registry.slots, confs[j].name) == Some(a) && a in s.apps
    requires i < |confs[j].instances| && EntryFor(s, a, confs[j].instances[i].key) == Some(p)
    ensures var s' := Reload(s, confs, env);
            && Lookup(s'.registry.slots, confs[j].name) == Some(a) && a in s'.apps
            && EntryFor(s', a, confs[j].instances[i].key) == Some(p)
            && p in s.heap && p in s'.heap && s'.heap[p].valid && s'.heap[p].retry == 0
            && s'.heap[p].inFlight == s.heap[p].inFlight && s'.heap[p].handled == s.heap[p].handled
  {
    ReloadReplacesSet(s, confs, env, j);
    SurvivorLoaded(s, Reload(s, confs, env), confs[j], i, a, p);
  }

  // ---------------------------------------------------------------- field by field

  /** The instance a name and a key stand for, if they do. */
  ghost function Found(s: State, name: string, key: string): Option<Ptr> {
    match Lookup(s.registry.slots, name)
    case None => None
    case Some(a) => if a in s.apps then Lookup(s.apps[a].table.slots, key) else None
  }

  /** The record as a reload leaves it: the address in the file, and where it has none, the one there was before. */
  ghost predicate TakesAddress(before: Option<Instance>, after: Instance, conf: InstanceConf) {
    && after.valid && after.retry == 0
    && (forall n: CInt :: conf.key == ToDec(n) ==> after.num == n)
    && (match conf.host case Some(h) => after.host == Some(h)
                        case None => after.host == if before.Some? then before.value.host else None)
    && (match conf.port case Some(n) => after.port == n
                        case None => after.port == if before.Some? then before.value.port else 0)
    && (match before
        case Some(inst) => after.inFlight == inst.inFlight && after.handled == inst.handled && after.notResponding == inst.notResponding
        case None => after.inFlight == 0 && after.handled == 0 && after.notResponding == 0)
  }

  lemma ConfiguredTakesAddress(inst: Instance, conf: InstanceConf)
    ensures TakesAddress(Some(inst), Configured(inst, conf), conf)
  {
    NumberOfKey(conf.key);
  }

  lemma CreatedTakesAddress(a: AppPtr, conf: InstanceConf)
    ensures TakesAddress(None, Configured(NewInstance(a), conf), conf)
  {
    NumberOfKey(conf.key);
  }

  lemma NumberOfKey(key: string)
    ensures forall n: CInt :: key == ToDec(n) ==> Atoi(key) == n
  {
    forall n: CInt | key == ToDec(n) ensures Atoi(key) == n {
      AtoiOfPrinted(n, []);
      assert ToDec(n) + [] == key;
    }
  }

  /**
   What a reload makes of a configured instance: it is found under its key, belongs to the application
   found under its name, and has the host and the port of the file. Where the file gives none, and for
   the counters, an instance that was there before keeps what it had, and a new one starts with nothing.
   */
  lemma ReloadTakesAddresses(s: State, confs: seq<AppConf>, env: Environment, j: nat, i: nat) returns (a: AppPtr, p: Ptr)
    requires PoolInv(s, {}, {}) && Allocates(env) && DistinctNames(confs) && j < |confs| && DistinctKeys(confs[j].instances)
    requires i < |confs[j].instances|
    ensures var s', conf := Reload(s, confs, env), confs[j].instances[i];
            && Lookup(s'.registry.slots, confs[j].name) == Some(a) && Found(s', confs[j].name, conf.key) == Some(p)
            && p in s'.heap && s'.heap[p].app == a
            && match Found(s, confs[j].name, conf.key)
               case Some(q) => q == p && p in s.heap && TakesAddress(Some(s.heap[p]), s'.heap[p], conf)
               case None => TakesAddress(None, s'.heap[p], conf)
  {
    ReloadReplacesSet(s, confs, env, j);
    var s', conf := Reload(s, confs, env), confs[j].instances[i];
    a := Lookup(s'.registry.slots, confs[j].name).value;
    p := FieldsOfLoaded(s, s', confs[j], i, a);
  }

  lemma FieldsOfLoaded(s: State, s': State, app: AppConf, i: nat, a: AppPtr) returns (p: Ptr)
    requires Sound(s) && Sound(s') && AppLoaded(s, s', app) && i < |app.instances| && Lookup(s'.registry.slots, app.name) == Some(a)
    ensures var conf := app.instances[i];
            && Found(s', app.name, conf.key) == Some(p) && p in s'.heap && s'.heap[p].app == a
            && match Found(s, app.name, conf.key)
               case Some(q) => q == p && p in s.heap && TakesAddress(Some(s.heap[p]), s'.heap[p], conf)
               case None => TakesAddress(None, s'.heap[p], conf)
  {
    var conf := app.instances[i];
    var basis := if Lookup(s.registry.slots, app.name).Some? then s else s.(apps := s.apps[a := EMPTY_APP]);
    assert InstanceLoaded(basis, s', a, conf);
    p := Lookup(s'.apps[a].table.slots, conf.key).value;
    assert AppSound(s'.heap, a, s'.apps[a].table);
    LookupIsEntry(s'.apps[a].table.slots, conf.key);
    if Found(s, app.name, conf.key).Some? {
      assert AppSound(s.heap, a, s.apps[a].table);
      LookupIsEntry(s.apps[a].table.slots, conf.key);
      ConfiguredTakesAddress(s.heap[p], conf);
    } else {
      CreatedTakesAddress(a, conf);
    }
  }

  /** And the application itself has the name, the switch and the time of the file. */
  lemma ReloadTakesSettings(s: State, confs: seq<AppConf>, env: Environment, j: nat) returns (a: AppPtr)
    requires PoolInv(s, {}, {}) && Allocates(env) && DistinctNames(confs) && j < |confs| && DistinctKeys(confs[j].instances)
    requires confs[j].instances != []
    ensures var s' := Reload(s, confs, env);
            && Lookup(s'.registry.slots, confs[j].name) == Some(a) && a in s'.apps
            && (Lookup(s.registry.slots, confs[j].name).Some? ==> Lookup(s.registry.slots, confs[j].name) == Some(a))
            && s'.apps[a].name == confs[j].name && s'.apps[a].switchToKnown == confs[j].switchToKnown
            && s'.apps[a].unavailableUntil == confs[j].unavailableUntil
  {
    ReloadReplacesSet(s, confs, env, j);
    a := Lookup(Reload(s, confs, env).registry.slots, confs[j].name).value;
  }

  /** Invalidating first makes no difference to what configuring makes of a record. */
  lemma SeenFromBeforeClearing(s: State, s': State, conf: AppConf)
    requires Sound(s) && AppLoaded(ClearAll(s), s', conf)
    ensures AppLoaded(s, s', conf)
  {
    var cleared := ClearAll(s);
    if Lookup(s'.registry.slots, conf.name).Some? {
      var a := Lookup(s'.registry.slots, conf.name).value;
      if Lookup(s.registry.slots, conf.name).Some? {
        SameBasis(cleared, s, s', a, conf);
      } else {
        SameBasis(cleared.(apps := cleared.apps[a := EMPTY_APP]), s.(apps := s.apps[a := EMPTY_APP]), s', a, conf);
      }
    }
  }

  lemma NothingValidWhenCleared(s: State)
    requires PoolInv(s, {}, {})
    ensures forall p :: p in ClearAll(s).heap ==> !ClearAll(s).heap[p].valid
  {
    forall p | p in s.heap ensures !ClearAll(s).heap[p].valid {
      if s.heap[p].valid {
        var i := LinkedHasEntry(s, p);
        assert p in Values(s.apps[s.heap[p].app].table.slots);
        assert Listed(s, p);
      }
    }
  }

  /** An application that the file no longer mentions stays known, with its dictionary as it was and no valid instance. */
  lemma DroppedAppIsOut(s: State, confs: seq<AppConf>, env: Environment, name: string, a: AppPtr)
    requires PoolInv(s, {}, {}) && Allocates(env) && Lookup(s.registry.slots, name) == Some(a)
    requires forall j :: 0 <= j < |confs| ==> !SameKey(confs[j].name, name)
    ensures var s' := Reload(s, confs, env);
            && Lookup(s'.registry.slots, name) == Some(a) && a in s.apps && a in s'.apps && s'.apps[a] == s.apps[a]
            && forall p :: p in s.heap && s.heap[p].app == a ==> p in s'.heap && s'.heap[p] == s.heap[p].(valid := false)
  {
    LookupIsEntry(s.registry.slots, name);
    ClearAllSound(s);
    NothingValidWhenCleared(s);
    UnconfiguredAppKept(ClearAll(s), confs, env, name);
  }
}
