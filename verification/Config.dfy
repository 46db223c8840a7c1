/**
 Reading a changed configuration: every known instance is invalidated, the configured ones are
 revived or created, and the rest is purged. The parsed file, the addresses malloc returns and the
 random start index are inputs.
 */
module Config {
  import opened Wrappers
  import opened CStrings
  import opened SlotTables
  import opened Pool

  datatype InstanceConf = InstanceConf(key: string, host: Option<string>, port: Option<CInt>)

  datatype AppConf = AppConf(name: string, instances: seq<InstanceConf>, switchToKnown: bool, unavailableUntil: nat)

  /** malloc and rand, as seen by one reload. */
  datatype Environment = Environment(malloc: set<nat> -> nat, draw: nat -> nat)

  /** malloc never returns an address in use. */
  ghost predicate Allocates(env: Environment) {
    forall used: set<nat> :: env.malloc(used) !in used
  }

  function Values<V>(slots: seq<Slot<V>>): set<V> {
    set i | 0 <= i < |slots| && slots[i].Live? :: slots[i].value
  }

  // ---------------------------------------------------------------- invalidate all

  ghost predicate Listed(s: State, p: Ptr) {
    exists a :: a in s.apps && a in Values(s.registry.slots) && p in Values(s.apps[a].table.slots)
  }

  /** GSWApp_AppsClearInstances */
  ghost function ClearAll(s: State): State {
    s.(heap := map p | p in s.heap :: if Listed(s, p) then s.heap[p].(valid := false) else s.heap[p])
  }

  // ---------------------------------------------------------------- read one application

  /** GSWConfig_PropListInstanceToInstance: missing host or port entries keep the old ones. */
  function Configured(inst: Instance, conf: InstanceConf): Instance {
    inst.(valid := true, retry := 0, num := Atoi(conf.key),
          host := if conf.host.Some? then conf.host else inst.host,
          port := conf.port.GetOr(inst.port))
  }

  /** GSWAppInstance_New */
  function NewInstance(a: AppPtr): Instance {
    Instance(a, 0, None, 0, 0, 0, 0, 0, false)
  }

  lemma NewEntryIsOwned(heap: map<Ptr, Instance>, a: AppPtr, t: Table<Ptr>, key: string, p: Ptr, inst: Instance)
    requires Owned(heap, a, t.slots) && inst.app == a
    ensures Owned(heap[p := inst], a, Add(t, key, p).slots)
  {
    AddIsLocal(t, key, p);
  }

  /** One turn of the instance loop. */
  function LoadInstance(s: State, a: AppPtr, conf: InstanceConf, env: Environment): (r: State)
    requires a in s.apps && Owned(s.heap, a, s.apps[a].table.slots)
    ensures r.apps.Keys == s.apps.Keys
    ensures Owned(r.heap, a, r.apps[a].table.slots)
  {
    match Lookup(s.apps[a].table.slots, conf.key)
    case Some(p) =>
      LookupIsEntry(s.apps[a].table.slots, conf.key);
      Update(s, p, Configured(s.heap[p], conf))
    case None =>
      var p := env.malloc(s.heap.Keys);
      var t := Add(s.apps[a].table, conf.key, p);
      NewEntryIsOwned(s.heap, a, s.apps[a].table, conf.key, p, Configured(NewInstance(a), conf));
      s.(heap := s.heap[p := Configured(NewInstance(a), conf)], apps := s.apps[a := s.apps[a].(table := t)])
  }

  function LoadInstances(s: State, a: AppPtr, confs: seq<InstanceConf>, env: Environment): (r: State)
    requires a in s.apps && Owned(s.heap, a, s.apps[a].table.slots)
    ensures r.apps.Keys == s.apps.Keys
    ensures Owned(r.heap, a, r.apps[a].table.slots)
    decreases |confs|
  {
    if confs == [] then s else LoadInstances(LoadInstance(s, a, confs[0], env), a, confs[1..], env)
  }

  // ---------------------------------------------------------------- purge

  /** The entries that survive a purge keep their slots. */
  function PurgedSlots(heap: map<Ptr, Instance>, slots: seq<Slot<Ptr>>): (r: seq<Slot<Ptr>>)
    requires forall i :: 0 <= i < |slots| && slots[i].Live? ==> slots[i].value in heap
    ensures |r| == |slots|
  {
    seq(|slots|, i requires 0 <= i < |slots| =>
      if slots[i].Live? && !heap[slots[i].value].valid then Empty else slots[i])
  }

  /** The invalid instances of a dictionary that no request holds. */
  function Discarded(heap: map<Ptr, Instance>, slots: seq<Slot<Ptr>>): set<Ptr>
    requires forall i :: 0 <= i < |slots| && slots[i].Live? ==> slots[i].value in heap
  {
    set i | 0 <= i < |slots| && slots[i].Live? && !heap[slots[i].value].valid && heap[slots[i].value].inFlight == 0 :: slots[i].value
  }

  /** GSWApp_FreeNotValidInstances */
  function Purge(s: State, a: AppPtr): (r: State)
    requires a in s.apps && Owned(s.heap, a, s.apps[a].table.slots)
    ensures r.apps.Keys == s.apps.Keys
  {
    var t := s.apps[a].table;
    s.(heap := s.heap - Discarded(s.heap, t.slots),
       apps := s.apps[a := s.apps[a].(table := t.(slots := PurgedSlots(s.heap, t.slots)))])
  }

  // ---------------------------------------------------------------- the application loop

  /** GSWConfig_PropListApplicationToApplication on the application record at a. */
  function LoadAppRecord(s: State, a: AppPtr, conf: AppConf, env: Environment): (r: State)
    requires a in s.apps && Owned(s.heap, a, s.apps[a].table.slots)
    ensures r.apps.Keys == s.apps.Keys
  {
    var named := s.(apps := s.apps[a := s.apps[a].(name := conf.name, switchToKnown := conf.switchToKnown,
                                                   unavailableUntil := conf.unavailableUntil)]);
    var purged := Purge(LoadInstances(named, a, conf.instances, env), a);
    purged.(apps := purged.apps[a := purged.apps[a].(lastIndex := env.draw(Count(purged.apps[a].table.slots)))])
  }

  /** GSWApp_New */
  const EMPTY_APP := App("", Table([], 0), 0, false, 0)

  /** One turn of the application loop of GSWConfig_LoadConfiguration. */
  function LoadApp(s: State, conf: AppConf, env: Environment): State
    requires Sound(s)
  {
    match Lookup(s.registry.slots, conf.name)
    case Some(a) =>
      LookupIsEntry(s.registry.slots, conf.name);
      var loaded := LoadAppRecord(s, a, conf, env);
      if Count(loaded.apps[a].table.slots) == 0 then loaded.(registry := Remove(loaded.registry, conf.name)) else loaded
    case None =>
      var a := env.malloc(s.apps.Keys);
      var loaded := LoadAppRecord(s.(apps := s.apps[a := EMPTY_APP]), a, conf, env);
      if Count(loaded.apps[a].table.slots) == 0 then loaded else loaded.(registry := Add(loaded.registry, conf.name, a))
  }

  // ---------------------------------------------------------------- references stay sound

  lemma {:induction false} AddSound(heap: map<Ptr, Instance>, a: AppPtr, t: Table<Ptr>, key: string, p: Ptr, inst: Instance)
    requires AppSound(heap, a, t) && FindKey(t.slots, key).None? && p !in heap && inst.app == a
    ensures AppSound(heap[p := inst], a, Add(t, key, p))
  {
    AddIsLocal(t, key, p);
    LookupReadsModel(t.slots, key);
    AddIsInsert(t, key, p);
  }

  lemma LoadInstanceSound(s: State, a: AppPtr, conf: InstanceConf, env: Environment)
    requires Sound(s) && a in s.apps && Allocates(env)
    ensures Sound(LoadInstance(s, a, conf, env))
  {
    var t := s.apps[a].table;
    assert AppSound(s.heap, a, t);
    match Lookup(t.slots, conf.key)
    case Some(p) =>
      LookupIsEntry(t.slots, conf.key);
      UpdateSound(s, p, Configured(s.heap[p], conf));
    case None =>
      CreateSound(s, a, conf, env.malloc(s.heap.Keys));
  }

  lemma UpdateSound(s: State, p: Ptr, inst: Instance)
    requires Sound(s) && p in s.heap && inst.app == s.heap[p].app
    ensures Sound(Update(s, p, inst))
  {
    var r := Update(s, p, inst);
    forall b | b in r.apps ensures AppSound(r.heap, b, r.apps[b].table) {
      assert AppSound(s.heap, b, s.apps[b].table);
    }
  }

  lemma CreateSound(s: State, a: AppPtr, conf: InstanceConf, p: Ptr)
    requires Sound(s) && a in s.apps && p !in s.heap && Lookup(s.apps[a].table.slots, conf.key) == None
    ensures Sound(s.(heap := s.heap[p := Configured(NewInstance(a), conf)],
                     apps := s.apps[a := s.apps[a].(table := Add(s.apps[a].table, conf.key, p))]))
  {
    var inst := Configured(NewInstance(a), conf);
    var r := s.(heap := s.heap[p := inst], apps := s.apps[a := s.apps[a].(table := Add(s.apps[a].table, conf.key, p))]);
    assert AppSound(s.heap, a, s.apps[a].table);
    AddSound(s.heap, a, s.apps[a].table, conf.key, p, inst);
    forall b | b in r.apps ensures AppSound(r.heap, b, r.apps[b].table) {
      assert AppSound(s.heap, b, s.apps[b].table);
    }
  }

  lemma {:induction false} LoadInstancesSound(s: State, a: AppPtr, confs: seq<InstanceConf>, env: Environment)
    requires Sound(s) && a in s.apps && Allocates(env)
    ensures Sound(LoadInstances(s, a, confs, env))
    decreases |confs|
  {
    if confs != [] {
      LoadInstanceSound(s, a, confs[0], env);
      LoadInstancesSound(LoadInstance(s, a, confs[0], env), a, confs[1..], env);
    }
  }

  lemma PurgeSound(s: State, a: AppPtr)
    requires Sound(s) && a in s.apps
    ensures Sound(Purge(s, a))
  {
    var r := Purge(s, a);
    var slots, slots' := s.apps[a].table.slots, r.apps[a].table.slots;
    assert AppSound(s.heap, a, s.apps[a].table);
    assert forall i :: 0 <= i < |slots| && slots'[i].Live? ==> slots'[i] == slots[i] && s.heap[slots[i].value].valid;
    forall b | b in r.apps ensures AppSound(r.heap, b, r.apps[b].table) {
      assert AppSound(s.heap, b, s.apps[b].table);
    }
  }

  lemma NamedIsSound(s: State, a: AppPtr, app: App)
    requires Sound(s) && a in s.apps && app.table == s.apps[a].table
    ensures Sound(s.(apps := s.apps[a := app]))
  {
    forall b | b in s.apps ensures AppSound(s.heap, b, s.apps[a := app][b].table) {
      assert AppSound(s.heap, b, s.apps[b].table);
    }
  }

  lemma NewAppIsSound(s: State, a: AppPtr)
    requires Sound(s) && a !in s.apps
    ensures Sound(s.(apps := s.apps[a := EMPTY_APP]))
  {
    var r := s.(apps := s.apps[a := EMPTY_APP]);
    forall b | b in r.apps ensures AppSound(r.heap, b, r.apps[b].table) {
      assert b != a ==> AppSound(s.heap, b, s.apps[b].table);
    }
  }

  lemma LoadAppRecordSound(s: State, a: AppPtr, conf: AppConf, env: Environment)
    requires Sound(s) && a in s.apps && Allocates(env)
    ensures Sound(LoadAppRecord(s, a, conf, env))
    ensures LoadAppRecord(s, a, conf, env).registry == s.registry
  {
    var named := s.(apps := s.apps[a := s.apps[a].(name := conf.name, switchToKnown := conf.switchToKnown,
                                                   unavailableUntil := conf.unavailableUntil)]);
    NamedIsSound(s, a, named.apps[a]);
    LoadInstancesSound(named, a, conf.instances, env);
    LoadInstancesFrame(named, a, conf.instances, env);
    var loaded := LoadInstances(named, a, conf.instances, env);
    PurgeSound(loaded, a);
    var purged := Purge(loaded, a);
    assert AppSound(purged.heap, a, purged.apps[a].table);
  }

  /** Loading the instances of one application leaves the rest of the pool alone. */
  lemma {:induction false} LoadInstancesFrame(s: State, a: AppPtr, confs: seq<InstanceConf>, env: Environment)
    requires a in s.apps && Owned(s.heap, a, s.apps[a].table.slots)
    ensures var r := LoadInstances(s, a, confs, env);
            r.registry == s.registry && r.refusals == s.refusals && forall b :: b in s.apps && b != a ==> r.apps[b] == s.apps[b]
    decreases |confs|
  {
    if confs != [] {
      LoadInstancesFrame(LoadInstance(s, a, confs[0], env), a, confs[1..], env);
    }
  }

  lemma RegistryAfterAdd(registry: Table<AppPtr>, apps: set<AppPtr>, name: string, a: AppPtr)
    requires RegistrySound(registry, apps) && Lookup(registry.slots, name).None? && a !in apps
    ensures RegistrySound(Add(registry, name, a), apps + {a})
  {
    AddIsLocal(registry, name, a);
    LookupReadsModel(registry.slots, name);
    AddIsInsert(registry, name, a);
  }

  lemma LoadAppSound(s: State, conf: AppConf, env: Environment)
    requires Sound(s) && Allocates(env)
    ensures Sound(LoadApp(s, conf, env))
  {
    match Lookup(s.registry.slots, conf.name)
    case Some(a) =>
      LookupIsEntry(s.registry.slots, conf.name);
      LoadAppRecordSound(s, a, conf, env);
      RemoveIsDelete(s.registry, conf.name);
    case None =>
      var a := env.malloc(s.apps.Keys);
      var s0 := s.(apps := s.apps[a := EMPTY_APP]);
      NewAppIsSound(s, a);
      LoadAppRecordSound(s0, a, conf, env);
      RegistryAfterAdd(s.registry, s.apps.Keys, conf.name, a);
  }

  ghost function LoadApps(s: State, confs: seq<AppConf>, env: Environment): (r: State)
    requires Sound(s) && Allocates(env)
    ensures Sound(r)
    decreases |confs|
  {
    if confs == [] then s
    else
      LoadAppSound(s, confs[0], env);
      LoadApps(LoadApp(s, confs[0], env), confs[1..], env)
  }

  lemma ClearAllSound(s: State)
    requires Sound(s)
    ensures Sound(ClearAll(s))
  {
    var r := ClearAll(s);
    forall b | b in r.apps ensures AppSound(r.heap, b, r.apps[b].table) {
      assert AppSound(s.heap, b, s.apps[b].table);
    }
  }

  /** GSWConfig_LoadConfiguration when the file has changed. A file without applications, or one that
      cannot be parsed, counts as an empty list. */
  ghost function Reload(s: State, confs: seq<AppConf>, env: Environment): (r: State)
    requires Sound(s) && Allocates(env)
    ensures Sound(r)
  {
    ClearAllSound(s);
    LoadApps(ClearAll(s), confs, env)
  }

  /** The name under which an instance can be found again: "%d" of its number, an int, must spell its key. */
  predicate Canonical(key: string) {
    ToDec(Atoi(key)) == key
  }

  predicate CanonicalConf(confs: seq<AppConf>) {
    forall i, j :: 0 <= i < |confs| && 0 <= j < |confs[i].instances| ==> Canonical(confs[i].instances[j].key)
  }
}
