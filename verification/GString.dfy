/** GSWString: a growable, NUL-terminated text buffer edited in place. */
module GString {
  import opened Wrappers
  import opened CStrings
  import opened ReplaceAll

  const MIN_SIZE := 4096

  /** memmove inside one buffer; source and destination may overlap. */
  method MemMove(a: array<char>, dst: nat, src: nat, n: nat)
    requires dst + n <= a.Length && src + n <= a.Length
    modifies a
    ensures a[..] == old(a[..dst]) + old(a[src..src + n]) + old(a[dst + n..])
  {
    forall i | 0 <= i < n {
      a[dst + i] := a[src + i];
    }
  }

  /** memcpy of text from elsewhere. */
  method MemCopy(a: array<char>, dst: nat, text: seq<char>)
    requires dst + |text| <= a.Length
    modifies a
    ensures a[..] == old(a[..dst]) + text + old(a[dst + |text|..])
  {
    forall i | 0 <= i < |text| {
      a[dst + i] := text[i];
    }
  }

  /** SafeStrlen counts a NULL string as empty. */
  function SafeText(s: Option<string>): string {
    s.GetOr("")
  }

  /** strstr on the text from start on, as a position in the whole text. */
  function SearchFrom(text: string, start: nat, pat: string): (r: Option<nat>)
    requires start <= |text|
    ensures r.Some? ==> start <= r.value && r.value + |pat| <= |text|
  {
    match StrStr(text[start..], pat)
    case None => None
    case Some(i) => Some(start + i)
  }

  /** The text with all occurrences replaced, closed: only the lemmas that need it look at what Replace does. */
  ghost predicate IsReplaced(text: string, pat: string, paste: string, replaced: string)
    requires pat != ""
  {
    forall i {:trigger Look(i)} :: Look(i) ==> replaced == Replace(text, pat, paste)
  }

  /** The next match, closed likewise. */
  ghost predicate IsNext(text: string, scanned: nat, pat: string, p: Option<nat>)
    requires scanned <= |text|
  {
    forall i {:trigger Look(i)} :: Look(i) ==> p == SearchFrom(text, scanned, pat)
  }

  /** The loop has come to scanned, and will end with result: what is behind scanned is still to be replaced. */
  ghost predicate EndsWith(text: string, scanned: nat, pat: string, paste: string, result: string)
    requires pat != "" && scanned <= |text|
  {
    forall i {:trigger Look(i)} :: Look(i) ==> result == text[..scanned] + Replace(text[scanned..], pat, paste)
  }

  lemma EndsWithReplaced(text: string, pat: string, paste: string) returns (result: string)
    requires pat != ""
    ensures EndsWith(text, 0, pat, paste, result) && IsReplaced(text, pat, paste, result)
  {
    result := Replace(text, pat, paste);
    assert text[0..] == text;
  }

  lemma EndsWithItself(text: string, scanned: nat, pat: string, paste: string, result: string)
    requires pat != "" && scanned <= |text| && EndsWith(text, scanned, pat, paste, result) && IsNext(text, scanned, pat, None)
    ensures text == result
  {
    assert Look(0);
  }

  /** Pasting at the first match after scanned does not change what the loop will end with. */
  lemma ReplaceStep(text: string, scanned: nat, pat: string, paste: string, index: nat, next: string, result: string)
    requires pat != "" && scanned <= index && index + |pat| <= |text| && IsNext(text, scanned, pat, Some(index))
    requires next == text[..index] + paste + text[index + |pat|..]
    requires EndsWith(text, scanned, pat, paste, result)
    ensures EndsWith(next, index + |paste|, pat, paste, result)
  {
    var rest := FromMatch(text, scanned, pat, paste, index, result);
    AroundPaste(text[..index], paste, text[index + |pat|..]);
  }

  lemma FromMatch(text: string, scanned: nat, pat: string, paste: string, index: nat, result: string) returns (rest: string)
    requires pat != "" && scanned <= index && index + |pat| <= |text| && IsNext(text, scanned, pat, Some(index))
    requires EndsWith(text, scanned, pat, paste, result)
    ensures rest == Replace(text[index + |pat|..], pat, paste) && result == text[..index] + paste + rest
  {
    assert Look(0);
    DroppedTwice(text, scanned, index - scanned + |pat|);
    rest := Replace(text[index + |pat|..], pat, paste);
    Rejoined(text, scanned, index, paste, rest);
  }

  lemma NextIsInside(text: string, scanned: nat, pat: string, index: nat)
    requires scanned <= |text| && IsNext(text, scanned, pat, Some(index))
    ensures scanned <= index && index + |pat| <= |text|
  {
    assert Look(0);
  }

  lemma DroppedTwice(text: string, m: nat, n: nat)
    requires m + n <= |text|
    ensures text[m..][n..] == text[m + n..]
  {
  }

  lemma Rejoined(text: string, scanned: nat, index: nat, paste: string, rest: string)
    requires scanned <= index <= |text|
    ensures text[..scanned] + (text[scanned..][..index - scanned] + paste + rest) == text[..index] + paste + rest
  {
    assert text[..scanned] + text[scanned..][..index - scanned] == text[..index];
  }

  lemma AroundPaste(before: string, paste: string, behind: string)
    ensures var text, n := before + paste + behind, |before| + |paste|; text[..n] == before + paste && text[n..] == behind
  {
  }

  ghost predicate IsMoved(bytes: seq<char>, len: nat, index: nat, removed: nat, width: nat, moved: seq<char>)
    requires index + removed <= len < |bytes| && len + 1 + width - removed <= |bytes|
  {
    forall i {:trigger Look(i)} :: Look(i) ==>
      moved == bytes[..index + width] + bytes[index + removed..len + 1] + bytes[len + 1 + width - removed..]
  }

  ghost predicate IsPasted(bytes: seq<char>, index: nat, paste: string, pasted: seq<char>)
    requires index + |paste| <= |bytes|
  {
    forall i {:trigger Look(i)} :: Look(i) ==> pasted == bytes[..index] + paste + bytes[index + |paste|..]
  }

  /** Opens or closes the gap: the text behind it, terminator included, moves. */
  method MoveTail(a: array<char>, len: nat, index: nat, removed: nat, width: nat)
    requires index + removed <= len < a.Length && len + 1 + width - removed <= a.Length
    modifies a
    ensures IsMoved(old(a[..]), len, index, removed, width, a[..])
  {
    if width != removed {
      MemMove(a, index + width, index + removed, len - index - removed + 1);
    } else {
      assert a[..] == a[..index + width] + a[index + width..len + 1] + a[len + 1..];
    }
  }

  method PasteAt(a: array<char>, index: nat, paste: string)
    requires index + |paste| <= a.Length
    modifies a
    ensures IsPasted(old(a[..]), index, paste, a[..])
  {
    if |paste| > 0 {
      MemCopy(a, index, paste);
    } else {
      assert a[..] == a[..index] + a[index..];
    }
  }

  /** What the two moves make of the front of the buffer. */
  lemma Spliced(text: string, index: nat, removed: nat, paste: string, bytes: seq<char>, moved: seq<char>, final: seq<char>)
    requires index + removed <= |text| && |text| + 1 <= |bytes|
    requires |text| + 1 + |paste| - removed <= |bytes| == |moved| == |final|
    requires bytes[..|text| + 1] == text + [NUL]
    requires IsMoved(bytes, |text|, index, removed, |paste|, moved) && IsPasted(moved, index, paste, final)
    ensures final[..|text| + |paste| - removed] == text[..index] + paste + text[index + removed..]
    ensures final[|text| + |paste| - removed] == NUL
    ensures NoNul(text) && NoNul(paste) ==> NoNul(final[..|text| + |paste| - removed])
  {
    assert Look(0);
    assert bytes[..index] == bytes[..|text| + 1][..index] == text[..index];
    assert bytes[index + removed..|text| + 1] == bytes[..|text| + 1][index + removed..] == text[index + removed..] + [NUL];
    var rest := bytes[|text| + 1 + |paste| - removed..];
    assert moved[..index] == text[..index];
    assert moved[index + |paste|..] == text[index + removed..] + [NUL] + rest;
    assert final == (text[..index] + paste + text[index + removed..]) + [NUL] + rest;
  }

  /** The two block moves of a replacement, on a buffer that starts with a terminated text. */
  method Splice(a: array<char>, len: nat, ghost text: string, index: nat, removed: nat, paste: string)
    requires len == |text| && NoNul(text) && NoNul(paste)
    requires index + removed <= |text| && |text| + 1 <= a.Length && |text| + 1 + |paste| - removed <= a.Length
    requires a[..|text| + 1] == text + [NUL]
    modifies a
    ensures a[..|text| + |paste| - removed] == text[..index] + paste + text[index + removed..]
    ensures a[|text| + |paste| - removed] == NUL
    ensures NoNul(a[..|text| + |paste| - removed])
  {
    ghost var bytes := a[..];
    MoveTail(a, len, index, removed, |paste|);
    ghost var moved := a[..];
    PasteAt(a, index, paste);
    Spliced(text, index, removed, paste, bytes, moved, a[..]);
    PrefixOf(a, |text| + |paste| - removed);
  }

  lemma PrefixOf(a: array<char>, n: nat)
    requires n <= a.Length
    ensures a[..n] == a[..][..n]
  {
  }

  class GSWString {
    var size: nat
    var len: nat
    var data: array?<char>

    /** The text occupies the front of the buffer, its terminator fits and is in place. */
    ghost predicate Valid()
      reads this, data
    {
      if data == null then size == 0 && len == 0
      else
        && data.Length == size
        && len + 1 <= size
        && data[len] == NUL
        && NoNul(data[..len])
    }

    ghost function Text(): (t: string)
      reads this, data
      requires Valid()
      ensures |t| == len
    {
      if data == null then "" else data[..len]
    }

    /** GSWString_New */
    constructor ()
      ensures Valid() && data == null && Text() == ""
    {
      size, len, data := 0, 0, null;
    }

    /** GSWString_GrowUpToSize: malloc or realloc, keeping the bytes already there. */
    method GrowUpToSize(newSize: nat)
      modifies this`size, this`data
      requires data == null ==> size == 0
      requires data != null ==> data.Length == size
      ensures size == if newSize > old(size) then (if newSize > 4096 then newSize else 4096) else old(size)
      ensures newSize > 0 ==> data != null
      ensures data != null ==> data.Length == size
      ensures data == old(data) || fresh(data)
      ensures old(data) != null ==> data != null && old(size) <= size && data[..old(size)] == old(data[..])
    {
      if newSize > size {
        var grownSize := if newSize > MIN_SIZE then newSize else MIN_SIZE;
        var grown := new char[grownSize];
        if data != null {
          forall i | 0 <= i < data.Length {
            grown[i] := data[i];
          }
        }
        size, data := grownSize, grown;
        assert old(data) != null ==> data[..old(size)] == old(data[..]);
      } else {
        assert data != null ==> data[..size] == data[..];
      }
    }

    /** GSWString_Append */
    method Append(text: string)
      requires Valid() && NoNul(text)
      modifies this, data
      ensures Valid() && data != null && (data == old(data) || fresh(data))
      ensures Text() == old(Text()) + text
    {
      GrowUpToSize(len + |text| + 1);
      assert data[..len] == old(Text());
      MemCopy(data, len, text + [NUL]);
      len := len + |text|;
      assert data[..len] == old(Text()) + text;
    }

    /** One turn of the loop of GSWString_SearchReplace: open or close the gap, paste the replacement. */
    method ReplaceAt(index: nat, removed: nat, paste: string)
      requires Valid() && data != null && NoNul(paste)
      requires index + removed <= len
      modifies this, data
      ensures Valid() && data != null && (data == old(data) || fresh(data))
      ensures Text() == old(Text())[..index] + paste + old(Text())[index + removed..]
      ensures size >= old(size) && len == old(len) + |paste| - removed
    {
      ghost var text := Text();
      if |paste| > removed {
        GrowUpToSize(size + |paste| - removed);
      }
      assert data[..len + 1] == text + [NUL] by {
        assert data[..len + 1] == data[..old(size)][..len + 1] == old(data[..])[..len + 1];
      }
      Splice(data, len, text, index, removed, paste);
      len := len + |paste| - removed;
    }

    /** strstr from a position of the buffer: it reads up to the terminator and no further. */
    method Search(start: nat, pat: string) returns (r: Option<nat>)
      requires Valid() && data != null && start <= len
      ensures IsNext(Text(), start, pat, r)
    {
      assert data[start..] == Text()[start..] + [NUL] + data[len + 1..];
      CStrTerminated(Text()[start..], data[len + 1..]);
      var found := StrStr(CStr(data[start..]), pat);
      r := if found.Some? then Some(start + found.value) else None;
    }

    /** The search has come to scanned, its next match is p, and the loop will end with result. */
    ghost predicate Replacing(scanned: nat, p: Option<nat>, pat: string, paste: string, result: string)
      reads this, data
      requires Valid() && pat != ""
    {
      data != null && scanned <= len && IsNext(Text(), scanned, pat, p) && EndsWith(Text(), scanned, pat, paste, result)
    }

    /** The loop body of GSWString_SearchReplace: the match found is replaced. */
    method ReplaceMatch(ghost scanned: nat, index: nat, pat: string, paste: string, ghost result: string)
      requires Valid() && NoNul(paste) && pat != "" && Replacing(scanned, Some(index), pat, paste, result)
      modifies this, data
      ensures Valid() && data != null && (data == old(data) || fresh(data)) && size >= old(size)
      ensures index + |paste| <= len && len - (index + |paste|) < old(len) - scanned
      ensures EndsWith(Text(), index + |paste|, pat, paste, result)
    {
      ghost var text := Text();
      NextIsInside(text, scanned, pat, index);
      ReplaceAt(index, |pat|, paste);
      ReplaceStep(text, scanned, pat, paste, index, Text(), result);
    }

    /** GSWString_SearchReplace; NULL arguments count as empty strings. */
    method SearchReplace(search: Option<string>, replace: Option<string>)
      requires Valid()
      requires NoNul(SafeText(search)) && NoNul(SafeText(replace))
      requires SafeText(search) != "" ==> data != null
      modifies this, data
      ensures Valid() && (data == old(data) || fresh(data)) && size >= old(size)
      ensures Text() == if SafeText(search) == "" then old(Text())
                        else Replace(old(Text()), SafeText(search), SafeText(replace))
    {
      var pat := SafeText(search);
      if |pat| > 0 {
        ReplaceFrom(pat, SafeText(replace));
        assert Look(0);
      }
    }

    method ReplaceFrom(pat: string, paste: string)
      requires Valid() && NoNul(paste) && pat != "" && data != null
      modifies this, data
      ensures Valid() && (data == old(data) || fresh(data)) && size >= old(size)
      ensures IsReplaced(old(Text()), pat, paste, Text())
    {
      ghost var scanned: nat := 0;
      ghost var result := EndsWithReplaced(Text(), pat, paste);
      var p := Search(0, pat);
      while p.Some?
        invariant Valid() && data != null && (data == old(data) || fresh(data)) && size >= old(size)
        invariant scanned <= len && Replacing(scanned, p, pat, paste, result)
        decreases len - scanned
      {
        var index := p.value;
        ReplaceMatch(scanned, index, pat, paste, result);
        scanned := index + |paste|;
        p := Search(index + |paste|, pat);
      }
      EndsWithItself(Text(), scanned, pat, paste, result);
    }
  }
}
