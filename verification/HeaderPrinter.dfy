/** The header lines both HTTP printers build: a pass that adds up lengths, then a pass that writes. */
module HeaderPrinter {
  import opened CStrings
  import opened SlotTables
  import opened Buffers

  function HeaderLine(key: string, value: string): string {
    key + ": " + value
  }

  /** FormatHeader: the line end is written over the terminator, and the write position moves behind it. */
  method FormatHeader(a: array<char>, at: nat, key: string, value: string, lineEnd: string) returns (next: nat)
    requires NoNul(key) && NoNul(value) && |lineEnd| > 0
    requires at + |HeaderLine(key, value)| + |lineEnd| <= a.Length
    modifies a
    ensures next == at + |HeaderLine(key, value)| + |lineEnd|
    ensures forall i :: 0 <= i < at ==> a[i] == old(a[i])
    ensures a[at..next] == HeaderLine(key, value) + lineEnd
  {
    StrCpy(a, at, key);
    StrCat(a, at, key, ": ");
    StrCat(a, at, key + ": ", value);
    ghost var line := HeaderLine(key, value);
    var n := StrLen(a, at, line);
    forall i | 0 <= i < |lineEnd| {
      a[at + n + i] := lineEnd[i];
    }
    next := at + n + |lineEnd|;
    assert a[at..at + n] == line && a[at + n..next] == lineEnd;
    assert a[at..next] == a[at..at + n] + a[at + n..next];
  }

  // ---------------------------------------------------------------- all headers

  function HeaderLines(entries: seq<(string, string)>, lineEnd: string): string {
    if entries == [] then "" else HeaderLine(entries[0].0, entries[0].1) + lineEnd + HeaderLines(entries[1..], lineEnd)
  }

  /** What GetHeaderLength counts for one header: one more than FormatHeader writes. */
  function Reserved(key: string, value: string, lineEnd: string): nat {
    |key| + |value| + 2 + |lineEnd| + 1
  }

  function ReservedLength(entries: seq<(string, string)>, lineEnd: string): nat {
    if entries == [] then 0 else Reserved(entries[0].0, entries[0].1, lineEnd) + ReservedLength(entries[1..], lineEnd)
  }

  ghost predicate CStringsOnly(slots: seq<Slot<string>>) {
    forall i :: 0 <= i < |slots| && slots[i].Live? ==> NoNul(slots[i].key) && NoNul(slots[i].value)
  }

  lemma {:induction false} LinesConcat(a: seq<(string, string)>, b: seq<(string, string)>, lineEnd: string)
    ensures HeaderLines(a + b, lineEnd) == HeaderLines(a, lineEnd) + HeaderLines(b, lineEnd)
    ensures ReservedLength(a + b, lineEnd) == ReservedLength(a, lineEnd) + ReservedLength(b, lineEnd)
  {
    if a == [] {
      assert a + b == b;
    } else {
      assert (a + b)[1..] == a[1..] + b;
      LinesConcat(a[1..], b, lineEnd);
    }
  }

  /** The length pass counts one character per header too many, and nothing else. */
  lemma {:induction false} ReservedIsEnough(entries: seq<(string, string)>, lineEnd: string)
    ensures |HeaderLines(entries, lineEnd)| + |entries| == ReservedLength(entries, lineEnd)
  {
    if entries != [] {
      ReservedIsEnough(entries[1..], lineEnd);
    }
  }

  lemma {:induction false} LinesOfOne(key: string, value: string, lineEnd: string)
    ensures HeaderLines(Entry(Live(key, value)), lineEnd) == HeaderLine(key, value) + lineEnd
    ensures ReservedLength(Entry(Live(key, value)), lineEnd) == Reserved(key, value, lineEnd)
  {
    assert Entry(Live(key, value))[1..] == [];
  }

  /** One header more. */
  lemma LinesUpTo(slots: seq<Slot<string>>, i: nat, lineEnd: string)
    requires i < |slots|
    ensures var done, next := Entries(slots[..i]), Entries(slots[..i + 1]);
            && next == done + Entry(slots[i])
            && HeaderLines(next, lineEnd) == HeaderLines(done, lineEnd) + HeaderLines(Entry(slots[i]), lineEnd)
            && ReservedLength(next, lineEnd) == ReservedLength(done, lineEnd) + ReservedLength(Entry(slots[i]), lineEnd)
            && |HeaderLines(next, lineEnd)| <= |HeaderLines(Entries(slots), lineEnd)|
  {
    EntriesAround(slots[..i + 1], i);
    assert slots[..i + 1][..i] == slots[..i] && slots[..i + 1][i + 1..] == [];
    assert Entries(slots[..i]) + Entry(slots[i]) + [] == Entries(slots[..i]) + Entry(slots[i]);
    LinesConcat(Entries(slots[..i]), Entry(slots[i]), lineEnd);
    EntriesConcat(slots[..i + 1], slots[i + 1..]);
    assert slots[..i + 1] + slots[i + 1..] == slots;
    LinesConcat(Entries(slots[..i + 1]), Entries(slots[i + 1..]), lineEnd);
  }

  lemma NoNulConcat(a: string, b: string)
    requires NoNul(a) && NoNul(b)
    ensures NoNul(a + b)
  {
  }

  lemma {:induction false} EntryIsNulFree(slot: Slot<string>, lineEnd: string)
    requires slot.Live? ==> NoNul(slot.key) && NoNul(slot.value)
    requires NoNul(lineEnd)
    ensures NoNul(HeaderLines(Entry(slot), lineEnd))
  {
    if slot.Live? {
      LinesOfOne(slot.key, slot.value, lineEnd);
      NoNulConcat(slot.key, ": ");
      NoNulConcat(slot.key + ": ", slot.value);
      NoNulConcat(HeaderLine(slot.key, slot.value), lineEnd);
    }
  }

  lemma {:induction false} LinesAreNulFree(slots: seq<Slot<string>>, lineEnd: string)
    requires CStringsOnly(slots) && NoNul(lineEnd)
    ensures NoNul(HeaderLines(Entries(slots), lineEnd))
  {
    if slots != [] {
      assert forall i :: 0 <= i < |slots| - 1 ==> slots[1..][i] == slots[i + 1];
      LinesAreNulFree(slots[1..], lineEnd);
      EntryIsNulFree(slots[0], lineEnd);
      LinesConcat(Entry(slots[0]), Entries(slots[1..]), lineEnd);
      NoNulConcat(HeaderLines(Entry(slots[0]), lineEnd), HeaderLines(Entries(slots[1..]), lineEnd));
    }
  }

  ghost function LengthOfFirst(slots: seq<Slot<string>>, i: nat, lineEnd: string): nat
    requires i <= |slots|
  {
    ReservedLength(Entries(slots[..i]), lineEnd)
  }

  lemma {:induction false} LengthOfNoneAndAll(slots: seq<Slot<string>>, lineEnd: string)
    ensures LengthOfFirst(slots, 0, lineEnd) == 0
    ensures LengthOfFirst(slots, |slots|, lineEnd) == ReservedLength(Entries(slots), lineEnd)
  {
    assert slots[..|slots|] == slots;
  }

  lemma LengthUpTo(slots: seq<Slot<string>>, i: nat, lineEnd: string)
    requires i < |slots|
    ensures LengthOfFirst(slots, i + 1, lineEnd) ==
            LengthOfFirst(slots, i, lineEnd) + if slots[i].Live? then Reserved(slots[i].key, slots[i].value, lineEnd) else 0
  {
    LinesUpTo(slots, i, lineEnd);
    if slots[i].Live? {
      LinesOfOne(slots[i].key, slots[i].value, lineEnd);
    }
  }

  /** GSWDict_PerformForAllElem with GetHeaderLength. */
  method AddLengths(slots: seq<Slot<string>>, lineEnd: string) returns (length: nat)
    ensures length == ReservedLength(Entries(slots), lineEnd)
  {
    length := 0;
    var i := 0;
    LengthOfNoneAndAll(slots, lineEnd);
    while i < |slots|
      invariant i <= |slots| && length == LengthOfFirst(slots, i, lineEnd)
    {
      LengthUpTo(slots, i, lineEnd);
      if slots[i].Live? {
        length := length + |slots[i].key| + |slots[i].value| + 2 + |lineEnd| + 1;
      }
      i := i + 1;
    }
  }

  /** FormatHeader behind text that is already in the buffer. */
  method AppendHeader(buffer: array<char>, start: nat, at: nat, key: string, value: string, lineEnd: string)
    returns (next: nat)
    requires NoNul(key) && NoNul(value) && |lineEnd| > 0 && start <= at
    requires at + |HeaderLine(key, value) + lineEnd| <= buffer.Length
    modifies buffer
    ensures next == at + |HeaderLine(key, value) + lineEnd|
    ensures buffer[start..next] == old(buffer[start..at]) + (HeaderLine(key, value) + lineEnd)
    ensures forall k :: 0 <= k < start ==> buffer[k] == old(buffer[k])
  {
    ghost var printed := buffer[start..at];
    next := FormatHeader(buffer, at, key, value, lineEnd);
    assert buffer[start..at] == printed;
    assert buffer[start..next] == buffer[start..at] + buffer[at..next];
  }

  /** GSWDict_PerformForAllElem with FormatHeader: each live header once, in slot order. */
  method WriteHeaders(slots: seq<Slot<string>>, lineEnd: string, buffer: array<char>, start: nat) returns (at: nat)
    requires CStringsOnly(slots) && |lineEnd| > 0
    requires start + |HeaderLines(Entries(slots), lineEnd)| <= buffer.Length
    modifies buffer
    ensures at == start + |HeaderLines(Entries(slots), lineEnd)|
    ensures buffer[start..at] == HeaderLines(Entries(slots), lineEnd)
    ensures forall k :: 0 <= k < start ==> buffer[k] == old(buffer[k])
  {
    at := start;
    var i := 0;
    while i < |slots|
      invariant i <= |slots| && at == start + |HeaderLines(Entries(slots[..i]), lineEnd)|
      invariant at <= start + |HeaderLines(Entries(slots), lineEnd)|
      invariant buffer[start..at] == HeaderLines(Entries(slots[..i]), lineEnd)
      invariant forall k :: 0 <= k < start ==> buffer[k] == old(buffer[k])
    {
      LinesUpTo(slots, i, lineEnd);
      if slots[i].Live? {
        LinesOfOne(slots[i].key, slots[i].value, lineEnd);
        at := AppendHeader(buffer, start, at, slots[i].key, slots[i].value, lineEnd);
      }
      i := i + 1;
    }
    assert slots[..i] == slots;
  }
}
