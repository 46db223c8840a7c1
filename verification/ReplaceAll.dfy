/**
 Replacing every leftmost, non-overlapping occurrence of a pattern: the meaning of
 GSWString_SearchReplace, and what a caller that fills in templates may rely on.
 */
module ReplaceAll {
  import opened Wrappers
  import opened CStrings

  function Replace(text: string, pat: string, paste: string): string
    requires pat != ""
    decreases |text|
  {
    match StrStr(text, pat)
    case None => text
    case Some(i) => text[..i] + paste + Replace(text[i + |pat|..], pat, paste)
  }

  // ---------------------------------------------------------------- an independent definition

  /** The pieces of text left over when the occurrences of pat are cut out from the left. */
  function Cut(text: string, pat: string): (pieces: seq<string>)
    requires pat != ""
    ensures |pieces| > 0
    decreases |text|
  {
    match StrStr(text, pat)
    case None => [text]
    case Some(i) => [text[..i]] + Cut(text[i + |pat|..], pat)
  }

  function Join(pieces: seq<string>, glue: string): string
    requires |pieces| > 0
  {
    if |pieces| == 1 then pieces[0] else pieces[0] + glue + Join(pieces[1..], glue)
  }

  /** No cut could have been made earlier: pat first occurs after a piece exactly where it was cut. */
  predicate LeftmostCuts(pieces: seq<string>, pat: string)
    requires |pieces| > 0
  {
    if |pieces| == 1 then StrStr(pieces[0], pat).None?
    else StrStr(pieces[0] + pat + Join(pieces[1..], pat), pat) == Some(|pieces[0]|) && LeftmostCuts(pieces[1..], pat)
  }

  /** Replacing is cutting at the leftmost occurrences and gluing with the replacement. */
  lemma {:induction false} ReplaceIsCutAndJoin(text: string, pat: string, paste: string)
    requires pat != ""
    ensures Replace(text, pat, paste) == Join(Cut(text, pat), paste)
    decreases |text|
  {
    match StrStr(text, pat)
    case None =>
    case Some(i) =>
      ReplaceIsCutAndJoin(text[i + |pat|..], pat, paste);
      assert Cut(text, pat)[1..] == Cut(text[i + |pat|..], pat);
  }

  lemma CutParts(text: string, pat: string, i: nat)
    requires OccursAt(text, pat, i)
    ensures text == text[..i] + pat + text[i + |pat|..]
  {
    assert text == text[..i] + text[i..i + |pat|] + text[i + |pat|..];
  }

  /** The cuts lose nothing and are leftmost. */
  lemma {:induction false} CutIsLeftmost(text: string, pat: string)
    requires pat != ""
    ensures Join(Cut(text, pat), pat) == text
    ensures LeftmostCuts(Cut(text, pat), pat)
    decreases |text|
  {
    match StrStr(text, pat)
    case None =>
    case Some(i) =>
      var pieces, rest := Cut(text, pat), Cut(text[i + |pat|..], pat);
      CutIsLeftmost(text[i + |pat|..], pat);
      CutParts(text, pat, i);
      assert pieces == [text[..i]] + rest;
      assert pieces[1..] == rest;
  }

  /** There is only one way to cut leftmost, so Replace has no freedom left. */
  lemma {:induction false} LeftmostCutsAreUnique(text: string, pat: string, pieces: seq<string>)
    requires pat != "" && |pieces| > 0
    requires Join(pieces, pat) == text && LeftmostCuts(pieces, pat)
    ensures pieces == Cut(text, pat)
    decreases |pieces|
  {
    if |pieces| > 1 {
      var first, rest := pieces[0], Join(pieces[1..], pat);
      assert text[..|first|] == first && text[|first| + |pat|..] == rest by {
        assert text == first + pat + rest;
      }
      LeftmostCutsAreUnique(rest, pat, pieces[1..]);
      assert Cut(text, pat) == [first] + Cut(rest, pat);
      assert pieces == [first] + pieces[1..];
    }
  }

  // ---------------------------------------------------------------- consequences

  lemma OneMore(k: int, d: int)
    ensures k * d == (k - 1) * d + d
  {
  }

  lemma {:induction false} LengthAfterReplace(text: string, pat: string, paste: string)
    requires pat != ""
    ensures |Replace(text, pat, paste)| == |text| + (|Cut(text, pat)| - 1) * (|paste| - |pat|)
    decreases |text|
  {
    match StrStr(text, pat)
    case None =>
    case Some(i) =>
      var rest := text[i + |pat|..];
      LengthAfterReplace(rest, pat, paste);
      assert |Replace(text, pat, paste)| == i + |paste| + |Replace(rest, pat, paste)|;
      assert |Cut(text, pat)| == |Cut(rest, pat)| + 1;
      OneMore(|Cut(rest, pat)|, |paste| - |pat|);
  }

  /** Replacing a pattern by itself changes nothing. */
  lemma {:induction false} ReplaceByItself(text: string, pat: string)
    requires pat != ""
    ensures Replace(text, pat, pat) == text
  {
    ReplaceIsCutAndJoin(text, pat, pat);
    CutIsLeftmost(text, pat);
  }

  /** A pasted value with no character of the placeholder leaves no placeholder behind. */
  lemma {:induction false} PlaceholderGone(text: string, pat: string, paste: string)
    requires pat != "" && paste != ""
    requires forall c :: c in paste ==> c !in pat
    ensures StrStr(Replace(text, pat, paste), pat).None?
    decreases |text|
  {
    match StrStr(text, pat)
    case None =>
    case Some(i) =>
      var left, rest := text[..i], Replace(text[i + |pat|..], pat, paste);
      PlaceholderGone(text[i + |pat|..], pat, paste);
      forall j: nat ensures !OccursAt(left, pat, j) {
        assert j + |pat| <= i ==> left[j..j + |pat|] == text[j..j + |pat|];
        assert !OccursAt(text, pat, j) || j >= i;
      }
      forall j: nat ensures !OccursAt(left + paste + rest, pat, j) {
        NoOccurrenceAround(left, paste, rest, pat, j);
      }
  }

  lemma NoOccurrenceAround(left: string, mid: string, right: string, pat: string, j: nat)
    requires pat != "" && mid != "" && forall c :: c in mid ==> c !in pat
    requires !OccursAt(left, pat, j)
    requires forall i: nat :: !OccursAt(right, pat, i)
    ensures !OccursAt(left + mid + right, pat, j)
  {
    var whole := left + mid + right;
    if j + |pat| <= |left| {
      assert whole[j..j + |pat|] == left[j..j + |pat|];
    } else if j < |left| + |mid| {
      var k := if j < |left| then |left| else j;
      assert whole[k] == mid[k - |left|] && mid[k - |left|] in mid;
      if j + |pat| <= |whole| {
        assert whole[j..j + |pat|][k - j] == whole[k];
        assert pat[k - j] in pat;
      }
    } else if j + |pat| <= |whole| {
      var i := j - |left| - |mid|;
      assert whole[j..j + |pat|] == right[i..i + |pat|];
      assert !OccursAt(right, pat, i);
    }
  }
}
