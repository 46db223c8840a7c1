/** GSWDict: a slot array updated in place. */
module Dicts {
  import opened Wrappers
  import opened CStrings
  import opened SlotTables

  class GSWDict<V> {
    var elems: array?<Slot<V>>
    var count: nat       // slots handed out so far, emptied ones included
    var capacity: nat

    ghost predicate Valid()
      reads this
    {
      && (elems == null <==> capacity == 0)
      && (elems != null ==> elems.Length == capacity >= MIN_CAPACITY)
      && count <= capacity
    }

    ghost function State(): (t: Table<V>)
      reads this, elems
      requires Valid()
      ensures Fits(t)
    {
      Table(if elems == null then [] else elems[..count], capacity)
    }

    /** The all-zero struct, as embedded in an application record. */
    constructor Zero()
      ensures Valid() && State() == Table([], 0)
    {
      elems, count, capacity := null, 0, 0;
    }

    /** GSWDict_New */
    constructor New(requested: nat)
      ensures Valid() && State() == Table([], if requested > 16 then requested else 16)
      ensures fresh(elems)
    {
      elems, count, capacity := null, 0, 0;
      new;
      SetCapacity(Max(MIN_CAPACITY, requested));
    }

    /** GSWDict_SetCapacity: the entries stay where they are. */
    method SetCapacity(requested: nat)
      requires Valid()
      modifies this`elems, this`capacity
      ensures Valid() && elems != null && (elems == old(elems) || fresh(elems))
      ensures State() == old(State()).(capacity := Grown(old(capacity), requested))
    {
      var wanted := Max(MIN_CAPACITY, requested);
      if wanted > capacity {
        var grown := new Slot<V>[wanted];
        if elems != null {
          forall i | 0 <= i < capacity {
            grown[i] := elems[i];
          }
        }
        elems, capacity := grown, wanted;
        assert elems[..count] == old(State()).slots;
      }
    }

    /** GSWDict_FindFirstNullKey */
    method FindFirstNullKey() returns (r: Option<nat>)
      requires Valid()
      ensures r == FindFirstNull(State().slots)
    {
      var i := 0;
      while i < count
        invariant i <= count
        invariant forall j :: 0 <= j < i ==> elems[j].Live?
      {
        if elems[i].Empty? {
          assert State().slots[i].Empty?;
          return Some(i);
        }
        i := i + 1;
      }
      return None;
    }

    /** GSWDict_Count */
    method LiveCount() returns (n: nat)
      requires Valid()
      ensures n == Count(State().slots)
    {
      var i := 0;
      n := 0;
      ghost var slots := State().slots;
      while i < count
        invariant i <= count == |slots|
        invariant n == Count(slots[..i])
      {
        assert slots[..i + 1] == slots[..i] + [slots[i]];
        EntriesConcat(slots[..i], [slots[i]]);
        if elems[i].Live? {
          n := n + 1;
        }
        i := i + 1;
      }
      assert slots[..i] == slots;
    }

    /** GSWDict_Add */
    method Insert(key: string, value: V)
      requires Valid()
      modifies this, elems
      ensures Valid() && elems != null && (elems == old(elems) || fresh(elems))
      ensures State() == Add(old(State()), key, value)
    {
      var at: nat;
      if count >= capacity {
        var reusable := FindFirstNullKey();
        if reusable.Some? {
          at := reusable.value;
        } else {
          SetCapacity(capacity * 2);
          at := count;
          count := count + 1;
        }
      } else {
        at := count;
        count := count + 1;
      }
      elems[at] := Live(key, value);
      assert State().slots == Add(old(State()), key, value).slots;
    }

    /** GSWDict_FindKey */
    method Find(key: string) returns (r: Option<nat>)
      requires Valid()
      ensures r == FindKey(State().slots, key)
    {
      var i := 0;
      while i < count
        invariant i <= count
        invariant forall j :: 0 <= j < i ==> !Matches(elems[j], key)
      {
        if Matches(elems[i], key) {
          FirstMatch(State().slots, key, i);
          return Some(i);
        }
        i := i + 1;
      }
      NoMatch(State().slots, key);
      return None;
    }

    /** GSWDict_RemoveKey: the slot is emptied, not given up. */
    method RemoveKey(key: string)
      requires Valid()
      modifies elems
      ensures Valid() && State() == Remove(old(State()), key)
    {
      var r := Find(key);
      if r.Some? {
        elems[r.value] := Empty;
        assert State().slots == Remove(old(State()), key).slots;
      }
    }

    /** GSWDict_ValueForKey */
    method ValueForKey(key: string) returns (r: Option<V>)
      requires Valid()
      ensures r == Lookup(State().slots, key)
    {
      var at := Find(key);
      if at.Some? {
        return Some(elems[at.value].value);
      }
      return None;
    }

    /** GSWDict_AllKeys */
    method AllKeys() returns (keys: seq<string>)
      requires Valid()
      ensures |keys| == Count(State().slots)
      ensures forall j :: 0 <= j < |keys| ==> keys[j] == Entries(State().slots)[j].0
    {
      var i := 0;
      keys := [];
      ghost var slots := State().slots;
      while i < count
        invariant i <= count == |slots|
        invariant |keys| == Count(slots[..i])
        invariant forall j :: 0 <= j < |keys| ==> keys[j] == Entries(slots[..i])[j].0
      {
        assert slots[..i + 1] == slots[..i] + [slots[i]];
        EntriesConcat(slots[..i], [slots[i]]);
        if elems[i].Live? {
          keys := keys + [elems[i].key];
        }
        i := i + 1;
      }
      assert slots[..i] == slots;
    }
  }
}
