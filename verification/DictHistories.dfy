/** What holds of a dictionary after any history of additions and removals, duplicate keys included. */
module DictHistories {
  import opened Wrappers
  import opened CStrings
  import opened SlotTables

  datatype Op<V> = DoAdd(key: string, value: V) | DoRemove(key: string)

  function Apply<V>(t: Table<V>, op: Op<V>): Table<V> {
    match op
    case DoAdd(k, v) => Add(t, k, v)
    case DoRemove(k) => Remove(t, k)
  }

  function Run<V>(t: Table<V>, ops: seq<Op<V>>): Table<V>
    decreases |ops|
  {
    if ops == [] then t else Run(Apply(t, ops[0]), ops[1..])
  }

  function Adds<V>(ops: seq<Op<V>>): nat {
    if ops == [] then 0 else (if ops[0].DoAdd? then 1 else 0) + Adds(ops[1..])
  }

  /** The removals of a history that found their key. */
  function Removals<V>(t: Table<V>, ops: seq<Op<V>>): nat
    decreases |ops|
  {
    if ops == [] then 0
    else (if ops[0].DoRemove? && FindKey(t.slots, ops[0].key).Some? then 1 else 0) + Removals(Apply(t, ops[0]), ops[1..])
  }

  /** The largest number of live entries at any point of a history. */
  function Peak<V>(t: Table<V>, ops: seq<Op<V>>): nat
    decreases |ops|
  {
    if ops == [] then Count(t.slots) else Max(Count(t.slots), Peak(Apply(t, ops[0]), ops[1..]))
  }

  lemma {:induction false} CountIsAddsMinusRemovals<V>(t: Table<V>, ops: seq<Op<V>>)
    ensures Count(Run(t, ops).slots) + Removals(t, ops) == Count(t.slots) + Adds(ops)
    decreases |ops|
  {
    if ops != [] {
      match ops[0] {
        case DoAdd(k, v) => CountAfterAdd(t, k, v);
        case DoRemove(k) => CountAfterRemove(t, k);
      }
      CountIsAddsMinusRemovals(Apply(t, ops[0]), ops[1..]);
    }
  }

  /** The row grows only when every slot is live. */
  lemma GrowthOnlyWhenFull<V>(t: Table<V>, op: Op<V>)
    requires Fits(t)
    ensures Fits(Apply(t, op))
    ensures Apply(t, op).capacity != t.capacity ==> Count(t.slots) == |t.slots| == t.capacity
    ensures Apply(t, op).capacity != t.capacity ==> Apply(t, op).capacity == Max(MIN_CAPACITY, 2 * t.capacity)
  {
    CountBound(t.slots);
  }

  lemma {:induction false} CapacityIsBounded<V>(t: Table<V>, ops: seq<Op<V>>)
    requires Fits(t)
    ensures Fits(Run(t, ops))
    ensures t.capacity <= Run(t, ops).capacity <= Max(Max(16, t.capacity), 2 * Peak(t, ops))
    decreases |ops|
  {
    if ops != [] {
      var next := Apply(t, ops[0]);
      GrowthOnlyWhenFull(t, ops[0]);
      CapacityIsBounded(next, ops[1..]);
      assert Peak(t, ops) >= Count(t.slots);
    }
  }

  /** A live entry keeps its slot until the history removes that very entry. */
  lemma {:induction false} EntryStays<V>(t: Table<V>, ops: seq<Op<V>>, i: nat)
    requires i < |t.slots| && t.slots[i].Live?
    requires forall n :: 0 <= n < |ops| && ops[n].DoRemove? ==> FindKey(Run(t, ops[..n]).slots, ops[n].key) != Some(i)
    ensures i < |Run(t, ops).slots| && Run(t, ops).slots[i] == t.slots[i]
    decreases |ops|
  {
    if ops != [] {
      var next := Apply(t, ops[0]);
      assert Run(t, ops[..0]) == t;
      if ops[0].DoAdd? {
        AddIsLocal(t, ops[0].key, ops[0].value);
      }
      forall n | 0 <= n < |ops[1..]| && ops[1..][n].DoRemove?
        ensures FindKey(Run(next, ops[1..][..n]).slots, ops[1..][n].key) != Some(i)
      {
        assert ops[..n + 1][1..] == ops[1..][..n];
        assert Run(t, ops[..n + 1]) == Run(next, ops[1..][..n]);
        assert ops[n + 1] == ops[1..][n];
      }
      EntryStays(next, ops[1..], i);
    }
  }

  /** A history that never adds a key already present behaves as a finite map. */
  ghost predicate AddsAbsentOnly<V>(t: Table<V>, ops: seq<Op<V>>)
    decreases |ops|
  {
    ops != [] ==>
      (ops[0].DoAdd? ==> FindKey(t.slots, ops[0].key).None?) && AddsAbsentOnly(Apply(t, ops[0]), ops[1..])
  }

  ghost function RunOnMap<V>(m: map<string, V>, ops: seq<Op<V>>): map<string, V>
    decreases |ops|
  {
    if ops == [] then m
    else match ops[0]
      case DoAdd(k, v) => RunOnMap(m[Fold(k) := v], ops[1..])
      case DoRemove(k) => RunOnMap(m - {Fold(k)}, ops[1..])
  }

  lemma {:induction false} HistoryRefinesMap<V>(t: Table<V>, ops: seq<Op<V>>, key: string)
    requires Distinct(t.slots) && AddsAbsentOnly(t, ops)
    ensures Distinct(Run(t, ops).slots)
    ensures Model(Run(t, ops).slots) == RunOnMap(Model(t.slots), ops)
    ensures var m := RunOnMap(Model(t.slots), ops);
            Lookup(Run(t, ops).slots, key) == if Fold(key) in m then Some(m[Fold(key)]) else None
    ensures Count(Run(t, ops).slots) == |RunOnMap(Model(t.slots), ops)|
    decreases |ops|
  {
    if ops == [] {
      EntriesEnumerateModel(t.slots);
      LookupReadsModel(t.slots, key);
    } else {
      LookupReadsModel(t.slots, ops[0].key);
      match ops[0] {
        case DoAdd(k, v) => AddIsInsert(t, k, v);
        case DoRemove(k) => RemoveIsDelete(t, k);
      }
      HistoryRefinesMap(Apply(t, ops[0]), ops[1..], key);
    }
  }
}
