/**
 The state of a GSWDict as a value: a row of slots, some of them emptied by removals, and a
 capacity. Keys are compared without regard to case. The functions here say what each operation
 does to that state; the lemmas say what the operations amount to for a user of the dictionary.
 */
module SlotTables {
  import opened Wrappers
  import opened CStrings

  const MIN_CAPACITY: nat := 16

  datatype Slot<V> = Empty | Live(key: string, value: V)

  datatype Table<V> = Table(slots: seq<Slot<V>>, capacity: nat)

  function Max(a: nat, b: nat): nat {
    if a > b then a else b
  }

  predicate Fits<V>(t: Table<V>) {
    |t.slots| <= t.capacity
  }

  predicate Matches<V>(slot: Slot<V>, key: string) {
    slot.Live? && SameKey(slot.key, key)
  }

  // ---------------------------------------------------------------- operations

  function FindFirstNull<V>(slots: seq<Slot<V>>): (r: Option<nat>)
    ensures r.Some? ==> r.value < |slots| && slots[r.value].Empty? && forall j :: 0 <= j < r.value ==> slots[j].Live?
    ensures r.None? ==> forall j :: 0 <= j < |slots| ==> slots[j].Live?
  {
    if slots == [] then None
    else if slots[0].Empty? then Some(0)
    else match FindFirstNull(slots[1..]) case None => None case Some(i) => Some(i + 1)
  }

  function FindKey<V>(slots: seq<Slot<V>>, key: string): (r: Option<nat>)
    ensures r.Some? ==> r.value < |slots| && Matches(slots[r.value], key) && forall j :: 0 <= j < r.value ==> !Matches(slots[j], key)
    ensures r.None? ==> forall j :: 0 <= j < |slots| ==> !Matches(slots[j], key)
  {
    if slots == [] then None
    else if Matches(slots[0], key) then Some(0)
    else match FindKey(slots[1..], key) case None => None case Some(i) => Some(i + 1)
  }

  function Lookup<V>(slots: seq<Slot<V>>, key: string): Option<V> {
    match FindKey(slots, key)
    case None => None
    case Some(i) => Some(slots[i].value)
  }

  /** The capacity after a request: never below 16, never smaller than before. */
  function Grown(capacity: nat, requested: nat): nat {
    Max(capacity, Max(MIN_CAPACITY, requested))
  }

  /** New slots are used up first, then emptied ones, and only then the row grows. */
  function Add<V>(t: Table<V>, key: string, value: V): Table<V> {
    if |t.slots| >= t.capacity then
      match FindFirstNull(t.slots)
      case Some(i) => t.(slots := t.slots[i := Live(key, value)])
      case None => Table(t.slots + [Live(key, value)], Grown(t.capacity, 2 * t.capacity))
    else
      t.(slots := t.slots + [Live(key, value)])
  }

  function Remove<V>(t: Table<V>, key: string): Table<V> {
    match FindKey(t.slots, key)
    case None => t
    case Some(i) => t.(slots := t.slots[i := Empty])
  }

  function Entry<V>(slot: Slot<V>): seq<(string, V)> {
    if slot.Live? then [(slot.key, slot.value)] else []
  }

  /** The live entries in slot order. */
  function Entries<V>(slots: seq<Slot<V>>): seq<(string, V)> {
    if slots == [] then [] else Entry(slots[0]) + Entries(slots[1..])
  }

  /** The live values in slot order. */
  function Order<V>(slots: seq<Slot<V>>): (order: seq<V>)
    ensures |order| == Count(slots)
  {
    seq(|Entries(slots)|, j requires 0 <= j < |Entries(slots)| => Entries(slots)[j].1)
  }

  function Count<V>(slots: seq<Slot<V>>): nat {
    |Entries(slots)|
  }

  // ---------------------------------------------------------------- entries and slots

  lemma {:induction false} EntriesConcat<V>(a: seq<Slot<V>>, b: seq<Slot<V>>)
    ensures Entries(a + b) == Entries(a) + Entries(b)
  {
    if a == [] {
      assert a + b == b;
    } else {
      assert (a + b)[1..] == a[1..] + b;
      EntriesConcat(a[1..], b);
    }
  }

  /** The entries before slot i, its own, and those after it. */
  lemma {:induction false} EntriesAround<V>(slots: seq<Slot<V>>, i: nat)
    requires i < |slots|
    ensures Entries(slots) == Entries(slots[..i]) + Entry(slots[i]) + Entries(slots[i + 1..])
    decreases i
  {
    if i > 0 {
      EntriesAround(slots[1..], i - 1);
      assert slots[1..][..i - 1] == slots[..i][1..];
      assert slots[1..][i..] == slots[i + 1..];
    }
  }

  lemma EntriesAfterUpdate<V>(slots: seq<Slot<V>>, i: nat, slot: Slot<V>)
    requires i < |slots|
    ensures Entries(slots[i := slot]) == Entries(slots[..i]) + Entry(slot) + Entries(slots[i + 1..])
  {
    EntriesAround(slots[i := slot], i);
    assert slots[i := slot][..i] == slots[..i] && slots[i := slot][i + 1..] == slots[i + 1..];
  }

  lemma {:induction false} SlotOfEntry<V>(slots: seq<Slot<V>>, j: nat) returns (i: nat)
    requires j < |Entries(slots)|
    ensures i < |slots| && slots[i] == Live(Entries(slots)[j].0, Entries(slots)[j].1)
    ensures |Entries(slots[..i])| == j
  {
    if slots[0].Live? && j == 0 {
      i := 0;
    } else {
      var i' := SlotOfEntry(slots[1..], if slots[0].Live? then j - 1 else j);
      i := i' + 1;
      assert slots[..i] == [slots[0]] + slots[1..][..i'];
    }
  }

  /** A live slot shows up among the entries. */
  lemma EntryOfSlot<V>(slots: seq<Slot<V>>, i: nat) returns (j: nat)
    requires i < |slots| && slots[i].Live?
    ensures j < |Entries(slots)| && Entries(slots)[j] == (slots[i].key, slots[i].value)
  {
    j := |Entries(slots[..i])|;
    EntriesAround(slots, i);
  }

  lemma {:induction false} CountBound<V>(slots: seq<Slot<V>>)
    ensures Count(slots) <= |slots|
    ensures Count(slots) == |slots| <==> FindFirstNull(slots).None?
  {
    if slots != [] {
      CountBound(slots[1..]);
    }
  }

  lemma CountAfterAdd<V>(t: Table<V>, key: string, value: V)
    ensures Count(Add(t, key, value).slots) == Count(t.slots) + 1
  {
    match FindFirstNull(t.slots)
    case Some(i) =>
      EntriesAround(t.slots, i);
      EntriesAfterUpdate(t.slots, i, Live(key, value));
      EntriesConcat(t.slots, [Live(key, value)]);
    case None =>
      EntriesConcat(t.slots, [Live(key, value)]);
  }

  lemma {:induction false} CountAfterRemove<V>(t: Table<V>, key: string)
    ensures Count(Remove(t, key).slots) == Count(t.slots) - (if FindKey(t.slots, key).Some? then 1 else 0)
  {
    match FindKey(t.slots, key)
    case None =>
    case Some(i) =>
      EntriesAround(t.slots, i);
      EntriesAfterUpdate(t.slots, i, Empty);
  }

  // ---------------------------------------------------------------- distinct keys: a finite map

  ghost predicate Distinct<V>(slots: seq<Slot<V>>) {
    forall i, j :: 0 <= i < j < |slots| && slots[i].Live? && slots[j].Live? ==> !SameKey(slots[i].key, slots[j].key)
  }

  /** The finite map a dictionary stands for; of equal keys the first counts. */
  ghost function Model<V>(slots: seq<Slot<V>>): map<string, V> {
    if slots == [] then map[]
    else if slots[0].Live? then Model(slots[1..])[Fold(slots[0].key) := slots[0].value]
    else Model(slots[1..])
  }

  lemma {:induction false} ModelKeys<V>(slots: seq<Slot<V>>, k: string)
    ensures k in Model(slots) <==> exists i :: 0 <= i < |slots| && slots[i].Live? && Fold(slots[i].key) == k
  {
    if slots != [] {
      ModelKeys(slots[1..], k);
      if k in Model(slots[1..]) {
        var i :| 0 <= i < |slots[1..]| && slots[1..][i].Live? && Fold(slots[1..][i].key) == k;
        assert slots[i + 1] == slots[1..][i];
      }
      if i :| 0 <= i < |slots| && slots[i].Live? && Fold(slots[i].key) == k {
        assert i > 0 ==> slots[1..][i - 1] == slots[i];
      }
    }
  }

  lemma FoldTwice(s: string)
    ensures Fold(Fold(s)) == Fold(s)
  {
  }

  /** Lookup reads the map, duplicates or not: the first live match in slot order. */
  lemma {:induction false} LookupReadsModel<V>(slots: seq<Slot<V>>, key: string)
    ensures Lookup(slots, key) == if Fold(key) in Model(slots) then Some(Model(slots)[Fold(key)]) else None
  {
    if slots != [] {
      LookupReadsModel(slots[1..], key);
    }
  }

  lemma {:induction false} ModelIsFolded<V>(slots: seq<Slot<V>>, k: string)
    requires k in Model(slots)
    ensures Fold(k) == k
  {
    ModelKeys(slots, k);
    var i :| 0 <= i < |slots| && slots[i].Live? && Fold(slots[i].key) == k;
    FoldTwice(slots[i].key);
  }

  lemma {:induction false} ModelsAgreeAt<V>(a: map<string, V>, slots: seq<Slot<V>>, k: string)
    requires k in a ==> Fold(k) == k
    requires Fold(k) == k ==> Lookup(slots, k) == if k in a then Some(a[k]) else None
    ensures k in a <==> k in Model(slots)
    ensures k in a ==> Model(slots)[k] == a[k]
  {
    if k in Model(slots) {
      ModelIsFolded(slots, k);
    }
    LookupReadsModel(slots, k);
  }

  lemma {:induction false} ModelsAgree<V>(a: map<string, V>, slots: seq<Slot<V>>)
    requires forall k :: k in a ==> Fold(k) == k
    requires forall k :: Fold(k) == k ==> Lookup(slots, k) == if k in a then Some(a[k]) else None
    ensures Model(slots) == a
  {
    forall k ensures k in a <==> k in Model(slots)
             ensures k in a ==> Model(slots)[k] == a[k]
    {
      ModelsAgreeAt(a, slots, k);
    }
  }

  /** A key finds the entry spelled like it in any case, and only such an entry. */
  lemma AnyCaseFinds<V>(slots: seq<Slot<V>>, key: string)
    ensures Lookup(slots, key).None? <==> forall i :: 0 <= i < |slots| && slots[i].Live? ==> !SpelledAlike(slots[i].key, key)
    ensures Distinct(slots) ==>
              forall i :: 0 <= i < |slots| && slots[i].Live? && SpelledAlike(slots[i].key, key) ==> Lookup(slots, key) == Some(slots[i].value)
  {
    forall i | 0 <= i < |slots| && slots[i].Live? ensures Matches(slots[i], key) <==> SpelledAlike(slots[i].key, key) {
      SameKeyIff(slots[i].key, key);
    }
    forall i | Distinct(slots) && 0 <= i < |slots| && slots[i].Live? && SpelledAlike(slots[i].key, key)
      ensures Lookup(slots, key) == Some(slots[i].value)
    {
      SameKeyIff(slots[i].key, key);
      var m := FindKey(slots, key).value;
      assert Matches(slots[m], key) && Matches(slots[i], key);
    }
  }

  lemma {:induction false} FirstMatch<V>(slots: seq<Slot<V>>, key: string, m: nat)
    requires m < |slots| && Matches(slots[m], key)
    requires forall j :: 0 <= j < m ==> !Matches(slots[j], key)
    ensures FindKey(slots, key) == Some(m)
  {
  }

  lemma {:induction false} NoMatch<V>(slots: seq<Slot<V>>, key: string)
    requires forall j :: 0 <= j < |slots| ==> !Matches(slots[j], key)
    ensures FindKey(slots, key) == None
  {
  }

  /** The slot Add writes to: the next new one, or the first emptied one. */
  function AddSlot<V>(t: Table<V>): (i: nat)
    ensures i <= |t.slots|
    ensures i < |t.slots| ==> t.slots[i].Empty?
  {
    if |t.slots| >= t.capacity && FindFirstNull(t.slots).Some? then FindFirstNull(t.slots).value else |t.slots|
  }

  /** Add touches one slot only, which was not in use: live entries stay where they are. */
  lemma AddIsLocal<V>(t: Table<V>, key: string, value: V)
    ensures var s' := Add(t, key, value).slots;
            |s'| == Max(|t.slots|, AddSlot(t) + 1) && s'[AddSlot(t)] == Live(key, value)
            && forall j :: 0 <= j < |t.slots| && j != AddSlot(t) ==> s'[j] == t.slots[j]
  {
  }

  /** Lookup after Add of a key that was absent. */
  lemma {:induction false} LookupAfterAdd<V>(t: Table<V>, key: string, value: V, k: string)
    requires FindKey(t.slots, key).None?
    ensures Lookup(Add(t, key, value).slots, k) == if SameKey(key, k) then Some(value) else Lookup(t.slots, k)
  {
    var s, s', i := t.slots, Add(t, key, value).slots, AddSlot(t);
    AddIsLocal(t, key, value);
    if SameKey(key, k) {
      forall j | 0 <= j < i ensures !Matches(s'[j], k) {
        assert !Matches(s[j], key);
      }
      FirstMatch(s', k, i);
    } else {
      match FindKey(s, k)
      case None => NoMatch(s', k);
      case Some(m) => FirstMatch(s', k, m);
    }
  }

  /** Lookup after Remove: with distinct keys the key is gone and nothing else has changed. */
  lemma LookupAfterRemove<V>(t: Table<V>, key: string, k: string)
    requires Distinct(t.slots)
    ensures Lookup(Remove(t, key).slots, k) == if SameKey(key, k) then None else Lookup(t.slots, k)
  {
    var s, s' := t.slots, Remove(t, key).slots;
    match FindKey(s, key)
    case None =>
      assert SameKey(key, k) ==> forall j :: 0 <= j < |s| ==> !Matches(s[j], key) && !Matches(s[j], k);
    case Some(i) =>
      assert forall j :: 0 <= j < |s| && j != i ==> s'[j] == s[j];
      if SameKey(key, k) {
        assert forall j :: 0 <= j < |s| && j != i ==> !Matches(s[j], k);
        assert forall j :: 0 <= j < |s'| ==> !Matches(s'[j], k);
      } else {
        match FindKey(s, k)
        case None => assert forall j :: 0 <= j < |s'| ==> !Matches(s'[j], k);
        case Some(m) => assert m != i && Matches(s'[m], k) && forall j :: 0 <= j < m ==> !Matches(s'[j], k);
      }
  }

  lemma {:induction false} AddKeepsDistinct<V>(t: Table<V>, key: string, value: V)
    requires Distinct(t.slots) && FindKey(t.slots, key).None?
    ensures Distinct(Add(t, key, value).slots)
  {
    AddIsLocal(t, key, value);
  }

  /** Adding an absent key is map insertion and keeps the keys distinct. */
  lemma AddIsInsert<V>(t: Table<V>, key: string, value: V)
    requires Distinct(t.slots) && Fold(key) !in Model(t.slots)
    ensures Distinct(Add(t, key, value).slots)
    ensures Model(Add(t, key, value).slots) == Model(t.slots)[Fold(key) := value]
  {
    LookupReadsModel(t.slots, key);
    AddKeepsDistinct(t, key, value);
    var m := Model(t.slots)[Fold(key) := value];
    FoldTwice(key);
    forall k | k in m ensures Fold(k) == k {
      if k != Fold(key) {
        ModelIsFolded(t.slots, k);
      }
    }
    forall k | Fold(k) == k
      ensures Lookup(Add(t, key, value).slots, k) == if k in m then Some(m[k]) else None
    {
      LookupAfterAdd(t, key, value, k);
      LookupReadsModel(t.slots, k);
    }
    ModelsAgree(m, Add(t, key, value).slots);
  }

  /** Removing is map deletion and keeps the keys distinct. */
  lemma RemoveIsDelete<V>(t: Table<V>, key: string)
    requires Distinct(t.slots)
    ensures Distinct(Remove(t, key).slots)
    ensures Model(Remove(t, key).slots) == Model(t.slots) - {Fold(key)}
  {
    var m := Model(t.slots) - {Fold(key)};
    forall k | k in m ensures Fold(k) == k {
      ModelIsFolded(t.slots, k);
    }
    forall k | Fold(k) == k
      ensures Lookup(Remove(t, key).slots, k) == if k in m then Some(m[k]) else None
    {
      LookupAfterRemove(t, key, k);
      LookupReadsModel(t.slots, k);
    }
    ModelsAgree(m, Remove(t, key).slots);
  }

  /** Count is the size of the map, and AllKeys lists each of its keys once. */
  lemma {:induction false} EntriesEnumerateModel<V>(slots: seq<Slot<V>>)
    requires Distinct(slots)
    ensures |Model(slots)| == Count(slots)
    ensures forall j :: 0 <= j < Count(slots) ==>
              Fold(Entries(slots)[j].0) in Model(slots) && Model(slots)[Fold(Entries(slots)[j].0)] == Entries(slots)[j].1
    ensures forall i, j :: 0 <= i < j < Count(slots) ==> !SameKey(Entries(slots)[i].0, Entries(slots)[j].0)
  {
    if slots != [] {
      var rest := slots[1..];
      assert forall i :: 0 <= i < |rest| ==> rest[i] == slots[i + 1];
      EntriesEnumerateModel(rest);
      if slots[0].Live? {
        var k := Fold(slots[0].key);
        ModelKeys(rest, k);
        assert k !in Model(rest);
        assert Model(slots).Keys == Model(rest).Keys + {k};
        assert |Model(slots).Keys| == |Model(rest).Keys| + 1;
        forall j | 0 <= j < |Entries(rest)| ensures Fold(Entries(rest)[j].0) != k {
          assert Fold(Entries(rest)[j].0) in Model(rest);
        }
      }
    }
  }
}
