/** strlen, strdup, strcpy and strcat on char buffers. */
module Buffers {
  import opened CStrings

  /** The buffer holds this string, terminator included, at a position. */
  ghost predicate TextAt(a: array<char>, at: nat, text: string)
    reads a
  {
    && at + |text| < a.Length && a[at + |text|] == NUL && NoNul(text)
    && forall k :: at <= k < at + |text| ==> a[k] == text[k - at]
  }

  /** There is only one such string: what the C library reads up to the terminator. */
  lemma TextAtIsCStr(a: array<char>, at: nat, text: string)
    requires TextAt(a, at, text)
    ensures CStr(a[at..]) == text
  {
    assert a[at..] == text + [NUL] + a[at + |text| + 1..];
    CStrTerminated(text, a[at + |text| + 1..]);
  }

  /** strlen */
  method StrLen(a: array<char>, at: nat, ghost text: string) returns (n: nat)
    requires TextAt(a, at, text)
    ensures n == |text|
  {
    n := 0;
    while a[at + n] != NUL
      invariant n <= |text|
      decreases |text| - n
    {
      n := n + 1;
    }
  }

  /** strdup */
  method StrDup(a: array<char>, at: nat, ghost text: string) returns (s: string)
    requires TextAt(a, at, text)
    ensures s == text
  {
    var n := StrLen(a, at, text);
    s := a[at..at + n];
  }

  /** strcpy: the text and its terminator. */
  method StrCpy(a: array<char>, at: nat, text: string)
    requires at + |text| < a.Length && NoNul(text)
    modifies a
    ensures TextAt(a, at, text)
    ensures forall i :: 0 <= i < at ==> a[i] == old(a[i])
  {
    forall i | 0 <= i <= |text| {
      a[at + i] := if i < |text| then text[i] else NUL;
    }
  }

  /** strcat onto the string at a position. */
  method StrCat(a: array<char>, at: nat, ghost before: string, text: string)
    requires TextAt(a, at, before) && at + |before| + |text| < a.Length && NoNul(text)
    modifies a
    ensures TextAt(a, at, before + text)
    ensures forall i :: 0 <= i < at ==> a[i] == old(a[i])
  {
    var n := StrLen(a, at, before);
    StrCpy(a, at + n, text);
    ghost var whole := before + text;
    assert forall k :: at + n <= k < at + |whole| ==> a[k] == text[k - at - n] == whole[k - at];
  }
}
