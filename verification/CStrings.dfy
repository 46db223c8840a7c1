/**
 The C library string functions the adaptor relies on, on sequences of characters:
 strcasecmp, strcmp, strstr, atoi, "%d" printing, and the string a char buffer denotes.
 */
module CStrings {
  import opened Wrappers

  const NUL: char := '\0'

  // ---------------------------------------------------------------- int and unsigned int

  const INT_MAX: int := 0x7FFF_FFFF

  /** An int of the C code. */
  type CInt = x: int | -0x8000_0000 <= x <= INT_MAX

  /** An unsigned int. */
  type UInt = x: nat | x < 0x1_0000_0000

  /** Conversion of a number to unsigned int, and back. */
  function Uint32(x: int): (u: UInt)
    ensures 0 <= x < 0x1_0000_0000 ==> u == x
  {
    x % 0x1_0000_0000
  }

  function Int32(u: nat): int {
    if u < 0x8000_0000 then u else u - 0x1_0000_0000
  }

  /** What an int variable holds after a number has been assigned to it. */
  function ToInt(x: int): (n: CInt)
    ensures -0x8000_0000 <= x <= INT_MAX ==> n == x
    ensures Uint32(n) == Uint32(x)
  {
    Int32(Uint32(x))
  }

  // ---------------------------------------------------------------- case folding

  function FoldChar(c: char): char {
    if 'A' <= c <= 'Z' then (c as int + 32) as char else c
  }

  /** Lower-cases A-Z; two strings are equal for strcasecmp when they fold alike. */
  function Fold(s: string): (r: string)
    ensures |r| == |s|
    ensures forall i :: 0 <= i < |s| ==> r[i] == FoldChar(s[i])
  {
    seq(|s|, i requires 0 <= i < |s| => FoldChar(s[i]))
  }

  predicate SameKey(a: string, b: string) {
    Fold(a) == Fold(b)
  }

  /** The same character, or one of the letters A-Z in its two cases. */
  predicate SameLetter(c: char, d: char) {
    || c == d
    || ('A' <= c <= 'Z' && d as int == c as int + 32)
    || ('A' <= d <= 'Z' && c as int == d as int + 32)
  }

  /** Two spellings that differ in the case of letters A-Z at most. */
  ghost predicate SpelledAlike(a: string, b: string) {
    |a| == |b| && forall i :: 0 <= i < |a| ==> SameLetter(a[i], b[i])
  }

  /** strcasecmp says equal exactly for such spellings. */
  lemma SameKeyIff(a: string, b: string)
    ensures SameKey(a, b) <==> SpelledAlike(a, b)
  {
    if SameKey(a, b) {
      forall i | 0 <= i < |a| ensures SameLetter(a[i], b[i]) {
        assert Fold(a)[i] == Fold(b)[i];
      }
    }
  }

  /** Folding is spelling in small letters. */
  lemma FoldedIff(s: string, small: string)
    ensures small == Fold(s) <==> SpelledAlike(s, small) && forall i :: 0 <= i < |small| ==> !('A' <= small[i] <= 'Z')
  {
    if SpelledAlike(s, small) && forall i :: 0 <= i < |small| ==> !('A' <= small[i] <= 'Z') {
      forall i | 0 <= i < |small| ensures Fold(s)[i] == small[i] {
        assert SameLetter(s[i], small[i]);
      }
    }
  }

  // ---------------------------------------------------------------- C strings in buffers

  predicate NoNul(s: string) {
    forall i :: 0 <= i < |s| ==> s[i] != NUL
  }

  /** The string that starts at the front of a buffer: everything before the first NUL. */
  function CStr(buffer: seq<char>): (s: string)
    ensures s <= buffer
    ensures NoNul(s)
    ensures |s| < |buffer| ==> buffer[|s|] == NUL
  {
    if buffer == [] || buffer[0] == NUL then []
    else [buffer[0]] + CStr(buffer[1..])
  }

  /** A terminated buffer denotes exactly the text before its terminator. */
  lemma {:induction false} CStrTerminated(text: string, rest: seq<char>)
    requires NoNul(text)
    ensures CStr(text + [NUL] + rest) == text
  {
    if text == [] {
      assert (text + [NUL] + rest)[0] == NUL;
    } else {
      var buffer := text + [NUL] + rest;
      assert buffer[1..] == text[1..] + [NUL] + rest;
      CStrTerminated(text[1..], rest);
    }
  }

  // ---------------------------------------------------------------- strstr

  predicate OccursAt(text: string, pat: string, i: nat) {
    i + |pat| <= |text| && text[i..i + |pat|] == pat
  }

  lemma OccursInTail(text: string, pat: string, j: nat)
    requires text != []
    ensures OccursAt(text, pat, j + 1) <==> OccursAt(text[1..], pat, j)
  {
    if j + 1 + |pat| <= |text| {
      assert text[j + 1..j + 1 + |pat|] == text[1..][j..j + |pat|];
    }
  }

  /** strstr: the leftmost occurrence. */
  function StrStr(text: string, pat: string): (r: Option<nat>)
    ensures r.Some? ==> OccursAt(text, pat, r.value) && forall j: nat :: j < r.value ==> !OccursAt(text, pat, j)
    ensures r.None? ==> forall j: nat :: !OccursAt(text, pat, j)
  {
    if |text| < |pat| then None
    else if text[..|pat|] == pat then
      assert OccursAt(text, pat, 0);
      Some(0)
    else
      assert !OccursAt(text, pat, 0);
      var tail := StrStr(text[1..], pat);
      assert forall j: nat {:trigger OccursAt(text, pat, j)} ::
          j > 0 ==> (OccursAt(text, pat, j) <==> OccursAt(text[1..], pat, j - 1)) by {
        forall j: nat | j > 0 ensures OccursAt(text, pat, j) <==> OccursAt(text[1..], pat, j - 1) {
          OccursInTail(text, pat, j - 1);
        }
      }
      if tail.Some? then Some(tail.value + 1) else None
  }

  // ---------------------------------------------------------------- atoi and "%d"

  predicate IsDigit(c: char) {
    '0' <= c <= '9'
  }

  predicate IsSpace(c: char) {
    c == ' ' || '\t' <= c <= '\r'
  }

  function DigitChar(d: nat): (c: char)
    requires d < 10
    ensures IsDigit(c)
  {
    ('0' as int + d) as char
  }

  function NatToDec(n: nat): (s: string)
    ensures |s| > 0
    ensures forall i :: 0 <= i < |s| ==> IsDigit(s[i])
  {
    if n < 10 then [DigitChar(n)] else NatToDec(n / 10) + [DigitChar(n % 10)]
  }

  /** What "%d" prints. */
  function ToDec(n: int): (s: string)
    ensures |s| > 0
  {
    if n < 0 then "-" + NatToDec(-n) else NatToDec(n)
  }

  /** Reads the leading digits of s, continuing the number acc. */
  function ReadDigits(s: string, acc: nat): nat {
    if s == [] || !IsDigit(s[0]) then acc
    else ReadDigits(s[1..], acc * 10 + (s[0] as int - '0' as int))
  }

  function SkipSpaces(s: string): (r: string)
    ensures |r| <= |s|
    ensures r == s[|s| - |r|..]
    ensures forall i :: 0 <= i < |s| - |r| ==> IsSpace(s[i])
    ensures r == [] || !IsSpace(r[0])
  {
    if s != [] && IsSpace(s[0]) then SkipSpaces(s[1..]) else s
  }

  /** The number a text begins with: blanks, an optional sign, then digits. */
  function LeadingNumber(s: string): int {
    SignedNumber(SkipSpaces(s))
  }

  function SignedNumber(t: string): int {
    if t != [] && t[0] == '-' then 0 - ReadDigits(t[1..], 0)
    else if t != [] && t[0] == '+' then ReadDigits(t[1..], 0)
    else ReadDigits(t, 0)
  }

  /** strtol: out of the range of a long, the nearest long. */
  function ToLong(x: int): int {
    if x < -0x8000_0000_0000_0000 then -0x8000_0000_0000_0000
    else if x > 0x7FFF_FFFF_FFFF_FFFF then 0x7FFF_FFFF_FFFF_FFFF
    else x
  }

  /** atoi: what strtol reads, cut down to an int. */
  function Atoi(s: string): CInt {
    ToInt(ToLong(LeadingNumber(s)))
  }

  lemma {:induction false} ReadDigitsAppend(s: string, d: char, rest: string, acc: nat)
    requires forall i :: 0 <= i < |s| ==> IsDigit(s[i])
    requires IsDigit(d)
    requires rest == [] || !IsDigit(rest[0])
    ensures ReadDigits(s + [d] + rest, acc) == ReadDigits(s, acc) * 10 + (d as int - '0' as int)
  {
    if s == [] {
      assert (s + [d] + rest)[1..] == rest;
    } else {
      assert (s + [d] + rest)[1..] == s[1..] + [d] + rest;
      ReadDigitsAppend(s[1..], d, rest, acc * 10 + (s[0] as int - '0' as int));
    }
  }

  lemma {:induction false} ReadPrintedNat(n: nat, rest: string)
    requires rest == [] || !IsDigit(rest[0])
    ensures ReadDigits(NatToDec(n) + rest, 0) == n
  {
    if n < 10 {
      assert (NatToDec(n) + rest)[1..] == rest;
    } else {
      ReadPrintedNat(n / 10, []);
      assert NatToDec(n / 10) + [] == NatToDec(n / 10);
      ReadDigitsAppend(NatToDec(n / 10), DigitChar(n % 10), rest, 0);
    }
  }

  lemma {:induction false} NoSpacesToSkip(s: string)
    requires s != [] && !IsSpace(s[0])
    ensures SkipSpaces(s) == s
  {
  }

  lemma AfterFirst(c: char, middle: string, rest: string)
    ensures ([c] + middle + rest)[1..] == middle + rest
  {
  }

  lemma {:induction false} NumberOfDigits(s: string)
    requires s != [] && IsDigit(s[0])
    ensures LeadingNumber(s) == ReadDigits(s, 0)
  {
    NoSpacesToSkip(s);
  }

  lemma NumberOfMinus(s: string)
    requires s != [] && s[0] == '-'
    ensures LeadingNumber(s) == 0 - ReadDigits(s[1..], 0)
  {
    NoSpacesToSkip(s);
  }

  /** Reading undoes "%d", whatever non-digit text follows. */
  lemma NumberOfPrinted(n: int, rest: string)
    requires rest == [] || !IsDigit(rest[0])
    ensures LeadingNumber(ToDec(n) + rest) == n
  {
    var m: nat := if n < 0 then 0 - n else n;
    ReadPrintedNat(m, rest);
    if n < 0 {
      NumberOfMinus("-" + NatToDec(m) + rest);
      AfterFirst('-', NatToDec(m), rest);
    } else {
      NumberOfDigits(ToDec(n) + rest);
    }
  }

  /** atoi undoes "%d" on every int. */
  lemma AtoiOfPrinted(n: CInt, rest: string)
    requires rest == [] || !IsDigit(rest[0])
    ensures Atoi(ToDec(n) + rest) == n
  {
    NumberOfPrinted(n, rest);
  }

  lemma {:induction false} BlanksSkipped(blanks: string, s: string)
    requires forall i :: 0 <= i < |blanks| ==> blanks[i] == ' ' || '\t' <= blanks[i] <= '\r'
    requires s == [] || !IsSpace(s[0])
    ensures SkipSpaces(blanks + s) == s
  {
    if blanks == [] {
      assert blanks + s == s;
    } else {
      assert (blanks + s)[1..] == blanks[1..] + s;
      BlanksSkipped(blanks[1..], s);
    }
  }

  lemma PaddingIgnored(blanks: string, s: string)
    requires forall i :: 0 <= i < |blanks| ==> blanks[i] == ' ' || '\t' <= blanks[i] <= '\r'
    requires s == [] || !IsSpace(s[0])
    ensures Atoi(blanks + s) == Atoi(s)
  {
    BlanksSkipped(blanks, s);
    assert SkipSpaces(s) == s;
    assert LeadingNumber(blanks + s) == LeadingNumber(s);
  }

  lemma PlusIgnored(s: string)
    requires s != [] && IsDigit(s[0])
    ensures Atoi("+" + s) == Atoi(s)
  {
    NoSpacesToSkip("+" + s);
    NumberOfDigits(s);
    assert ("+" + s)[1..] == s;
  }

  /** atoi passes over blanks, and over a plus sign before a number that has none of its own. */
  lemma AtoiOfPadded(blanks: string, n: CInt, rest: string)
    requires forall i :: 0 <= i < |blanks| ==> blanks[i] == ' ' || '\t' <= blanks[i] <= '\r'
    requires rest == [] || !('0' <= rest[0] <= '9')
    ensures Atoi(blanks + (ToDec(n) + rest)) == n
    ensures n >= 0 ==> Atoi(blanks + ("+" + (ToDec(n) + rest))) == n
  {
    var s := ToDec(n) + rest;
    assert s[0] == ToDec(n)[0];
    AtoiOfPrinted(n, rest);
    PaddingIgnored(blanks, s);
    if n >= 0 {
      PlusIgnored(s);
      PaddingIgnored(blanks, "+" + s);
    }
  }

  /** And a text that does not begin like a number is 0 for it. */
  lemma AtoiOfWord(blanks: string, s: string)
    requires forall i :: 0 <= i < |blanks| ==> blanks[i] == ' ' || '\t' <= blanks[i] <= '\r'
    requires s == [] || (!('0' <= s[0] <= '9') && s[0] != '-' && s[0] != '+' && s[0] != ' ' && !('\t' <= s[0] <= '\r'))
    ensures Atoi(blanks + s) == 0
  {
    BlanksSkipped(blanks, s);
  }

  /** A number that fits an unsigned int survives atoi as one. */
  lemma UnsignedOfPrinted(n: nat, rest: string)
    requires n < 0x1_0000_0000 && (rest == [] || !IsDigit(rest[0]))
    ensures Uint32(Atoi(ToDec(n) + rest)) == n
  {
    NumberOfPrinted(n, rest);
  }

  lemma PrintedIsInjective(m: int, n: int)
    requires ToDec(m) == ToDec(n)
    ensures m == n
  {
    NumberOfPrinted(m, []);
    NumberOfPrinted(n, []);
    assert ToDec(m) + [] == ToDec(n) + [];
  }

  /** Printed numbers contain no letters, so only the same spelling folds onto them. */
  lemma SameKeyAsPrinted(s: string, n: int)
    requires SameKey(s, ToDec(n))
    ensures s == ToDec(n)
  {
    var d := ToDec(n);
    forall i | 0 <= i < |d| ensures s[i] == d[i] {
      assert Fold(s)[i] == Fold(d)[i];
      assert d[i] == '-' || IsDigit(d[i]);
    }
  }

  // ---------------------------------------------------------------- strcmp

  /** Compares what is left of a and b from index i on. */
  function StrCmpFrom(a: string, b: string, i: nat): int
    requires i <= |a| && i <= |b|
    decreases |a| - i
  {
    if i == |a| then (if i == |b| then 0 else -1)
    else if i == |b| then 1
    else if a[i] < b[i] then -1
    else if a[i] > b[i] then 1
    else StrCmpFrom(a, b, i + 1)
  }

  /** strcmp: negative, zero or positive as a precedes, equals or follows b. */
  function StrCmp(a: string, b: string): int {
    StrCmpFrom(a, b, 0)
  }

  lemma {:induction false} FromZero(a: string, b: string, i: nat)
    requires i <= |a| && i <= |b| && a[..i] == b[..i]
    ensures StrCmpFrom(a, b, i) == 0 <==> a == b
    decreases |a| - i
  {
    if i < |a| && i < |b| && a[i] == b[i] {
      assert a[..i + 1] == a[..i] + [a[i]] && b[..i + 1] == b[..i] + [b[i]];
      FromZero(a, b, i + 1);
    } else if i == |a| == |b| {
      assert a == a[..i] && b == b[..i];
    }
  }

  lemma StrCmpZero(a: string, b: string)
    ensures StrCmp(a, b) == 0 <==> a == b
  {
    FromZero(a, b, 0);
  }

  lemma {:induction false} FromOpposite(a: string, b: string, i: nat)
    requires i <= |a| && i <= |b|
    ensures StrCmpFrom(a, b, i) == -StrCmpFrom(b, a, i)
    decreases |a| - i
  {
    if i < |a| && i < |b| && a[i] == b[i] {
      FromOpposite(a, b, i + 1);
    }
  }

  lemma StrCmpOpposite(a: string, b: string)
    ensures StrCmp(a, b) == -StrCmp(b, a)
  {
    FromOpposite(a, b, 0);
  }

  lemma {:induction false} FromTransitive(a: string, b: string, c: string, i: nat)
    requires i <= |a| && i <= |b| && i <= |c|
    requires StrCmpFrom(a, b, i) <= 0 && StrCmpFrom(b, c, i) <= 0
    ensures StrCmpFrom(a, c, i) <= 0
    ensures StrCmpFrom(a, b, i) < 0 || StrCmpFrom(b, c, i) < 0 ==> StrCmpFrom(a, c, i) < 0
    decreases |a| - i
  {
    if i < |a| && i < |b| && i < |c| && a[i] == b[i] == c[i] {
      FromTransitive(a, b, c, i + 1);
    }
  }

  lemma StrCmpTransitive(a: string, b: string, c: string)
    requires StrCmp(a, b) <= 0 && StrCmp(b, c) <= 0
    ensures StrCmp(a, c) <= 0
    ensures StrCmp(a, b) < 0 || StrCmp(b, c) < 0 ==> StrCmp(a, c) < 0
  {
    FromTransitive(a, b, c, 0);
  }
}
