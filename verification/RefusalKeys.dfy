/** Which instances share a refusal key, and so hide each other. */
module RefusalKeys {
  import opened Wrappers
  import opened CStrings
  import opened SlotTables
  import opened Pool
  import opened FindLaws
  import opened Lifecycle
  import opened Backoff

  /** The part of a name that goes into its refusal keys. */
  function Shown(name: string): (shown: string)
    ensures |shown| <= REFUSAL_NAME_MAX
    ensures |name| <= REFUSAL_NAME_MAX ==> shown == name
  {
    if |name| > REFUSAL_NAME_MAX then name[..REFUSAL_NAME_MAX] else name
  }

  ghost predicate SameInstance(name: string, i: int, other: string, j: int) {
    SameKey(name, other) && i == j
  }

  /** Two different instances with one refusal key. */
  ghost predicate Collide(name: string, i: int, other: string, j: int) {
    SameKey(RefusalKey(name, i), RefusalKey(other, j)) && !SameInstance(name, i, other, j)
  }

  /** Some instance of one application has the refusal key of another instance of the other one. */
  ghost predicate KeysCollide(name: string, other: string) {
    exists i: CInt, j: CInt :: Collide(name, i, other, j)
  }

  /** The same for instances whose numbers are not negative. */
  ghost predicate NaturalKeysCollide(name: string, other: string) {
    exists i: CInt, j: CInt :: 0 <= i && 0 <= j && Collide(name, i, other, j)
  }

  // ---------------------------------------------------------------- the beginning of a printed number

  /** More digits still make an int. */
  predicate CanGoOn(m: int) {
    m != 0 && -INT_MAX <= 10 * m <= INT_MAX
  }

  /** A text that a printed int can begin with and go on as a printed int. */
  ghost predicate BeginsNumber(u: string) {
    u == "-" || exists m: CInt :: CanGoOn(m) && u == ToDec(m)
  }

  /** The same within numbers that are not negative. */
  ghost predicate BeginsNatural(u: string) {
    exists m: CInt :: m > 0 && CanGoOn(m) && u == ToDec(m)
  }

  lemma {:induction false} DigitsBegin(n: nat, k: nat) returns (m: nat)
    requires 0 < k < |NatToDec(n)|
    ensures m > 0 && 10 * m <= n && NatToDec(n)[..k] == NatToDec(m)
    decreases n
  {
    var front := NatToDec(n / 10);
    assert NatToDec(n) == front + [DigitChar(n % 10)];
    if k == |front| {
      m := n / 10;
    } else {
      m := DigitsBegin(n / 10, k);
      assert NatToDec(n)[..k] == front[..k];
    }
  }

  lemma {:induction false} NaturalBegins(n: nat, u: string, j: int)
    requires u != "" && NatToDec(n) == u + ToDec(j)
    ensures j >= 0 && exists m: nat :: m > 0 && 10 * m <= n && u == NatToDec(m)
  {
    assert ToDec(j)[0] == NatToDec(n)[|u|];
    var m := DigitsBegin(n, |u|);
    assert u == NatToDec(n)[..|u|];
  }

  /** What precedes a printed int at the end of another one begins a number. */
  lemma PrintedBegins(i: CInt, u: string, j: CInt)
    requires u != "" && ToDec(i) == u + ToDec(j)
    ensures BeginsNumber(u)
    ensures i >= 0 ==> BeginsNatural(u)
  {
    if i >= 0 {
      NaturalBegins(i, u, j);
      var m: nat :| m > 0 && 10 * m <= i && u == NatToDec(m);
      BeginningOf(m, i);
    } else {
      NegativeBegins(i, u, j);
    }
  }

  lemma BeginningOf(m: int, i: CInt)
    requires (0 < m && 10 * m <= i) || (m < 0 && i <= 10 * m)
    ensures BeginsNumber(ToDec(m)) && (m > 0 ==> BeginsNatural(ToDec(m)))
  {
    var n: CInt := m;
    assert CanGoOn(n);
  }

  lemma AfterMinus(digits: string, u: string, rest: string)
    requires u != "" && "-" + digits == u + rest
    ensures u == "-" + u[1..] && digits == u[1..] + rest
  {
    var whole := u + rest;
    assert whole[1..] == u[1..] + rest;
    assert whole[1..] == digits && u[0] == whole[0];
  }

  lemma NegativeBegins(i: int, u: string, j: CInt)
    requires -0x8000_0000 <= i < 0 && u != "" && ToDec(i) == u + ToDec(j)
    ensures BeginsNumber(u)
  {
    var v := u[1..];
    AfterMinus(NatToDec(0 - i), u, ToDec(j));
    if v != "" {
      NaturalBegins(-i, v, j);
      var m: nat :| m > 0 && 10 * m <= -i && v == NatToDec(m);
      BeginningOf(0 - m, i);
    }
  }

  /** And any beginning of a number goes on as one. */
  lemma NumberGoesOn(u: string) returns (i: CInt, j: CInt)
    requires BeginsNumber(u)
    ensures ToDec(i) == u + ToDec(j) && j >= 0 && i != j
    ensures BeginsNatural(u) ==> i >= 0
  {
    if BeginsNatural(u) {
      var m: CInt :| m > 0 && CanGoOn(m) && u == ToDec(m);
      i, j := 10 * m, 0;
      ZeroAppended(m);
    } else if u == "-" {
      i, j := -1, 1;
      assert ToDec(1) == NatToDec(1);
    } else {
      var m: CInt :| CanGoOn(m) && u == ToDec(m);
      i, j := 10 * m, 0;
      ZeroAppended(m);
    }
  }

  lemma ZeroAppended(m: int)
    requires m != 0
    ensures ToDec(10 * m) == ToDec(m) + ToDec(0)
  {
    var n: nat := if m < 0 then 0 - m else m;
    assert NatToDec(10 * n) == NatToDec(n) + [DigitChar(0)];
    assert ToDec(0) == [DigitChar(0)];
    assert m < 0 ==> "-" + (NatToDec(n) + ToDec(0)) == ("-" + NatToDec(n)) + ToDec(0);
  }

  // ---------------------------------------------------------------- where keys meet

  /** One shown name is the other one with the beginning of a number behind it. */
  ghost predicate Extends(longer: string, shorter: string) {
    exists u: string :: BeginsNumber(u) && SameKey(longer, shorter + u)
  }

  ghost predicate ExtendsNaturally(longer: string, shorter: string) {
    exists u: string :: BeginsNatural(u) && SameKey(longer, shorter + u)
  }

  /** Two different names that look alike after 45 characters. */
  predicate CutAlike(name: string, other: string) {
    SameKey(Shown(name), Shown(other)) && !SameKey(name, other)
  }

  /** The condition on two names: alike when cut, or one goes on from the other like a printed number. */
  ghost predicate Meet(name: string, other: string) {
    || CutAlike(name, other)
    || Extends(Shown(other), Shown(name))
    || Extends(Shown(name), Shown(other))
  }

  ghost predicate MeetNaturally(name: string, other: string) {
    || CutAlike(name, other)
    || ExtendsNaturally(Shown(other), Shown(name))
    || ExtendsNaturally(Shown(name), Shown(other))
  }

  lemma FoldParts(a: string, b: string)
    ensures Fold(a + b) == Fold(a) + Fold(b)
  {
  }

  /** Printed numbers have no letters to fold. */
  lemma FoldPrinted(n: int)
    ensures Fold(ToDec(n)) == ToDec(n)
  {
    forall k | 0 <= k < |ToDec(n)| ensures Fold(ToDec(n))[k] == ToDec(n)[k] {
      assert ToDec(n)[k] == '-' || IsDigit(ToDec(n)[k]);
    }
  }

  lemma FoldedKey(name: string, i: int)
    ensures Fold(RefusalKey(name, i)) == Fold(Shown(name)) + ToDec(i)
  {
    FoldParts(Shown(name), ToDec(i));
    FoldPrinted(i);
  }

  /** One text cut in two ways: the longer front is the shorter one and a piece of the other's back. */
  lemma CutTwice(p: string, a: string, q: string, b: string)
    requires p + a == q + b && |p| <= |q|
    ensures q == p + q[|p|..] && a == q[|p|..] + b
  {
    var whole := p + a;
    assert p == whole[..|p|] == q[..|p|];
    assert a == whole[|p|..] == q[|p|..] + b;
  }

  /** The longer of two names with a common key ends in the beginning of a number. */
  lemma CommonKey(name: string, i: CInt, other: string, j: CInt)
    requires SameKey(RefusalKey(name, i), RefusalKey(other, j)) && |Shown(name)| <= |Shown(other)|
    ensures if |Shown(name)| == |Shown(other)| then SameKey(Shown(name), Shown(other)) && i == j
            else Extends(Shown(other), Shown(name)) && (i >= 0 ==> ExtendsNaturally(Shown(other), Shown(name)))
  {
    var p, q := Fold(Shown(name)), Fold(Shown(other));
    FoldedKey(name, i);
    FoldedKey(other, j);
    CutTwice(p, ToDec(i), q, ToDec(j));
    var u := q[|p|..];
    if u == "" {
      assert q == p + "" == p && ToDec(i) == "" + ToDec(j) == ToDec(j);
      PrintedIsInjective(i, j);
    } else {
      PrintedBegins(i, u, j);
      ExtendedBy(Shown(name), Shown(other), u);
    }
  }

  lemma ExtendedBy(shorter: string, longer: string, u: string)
    requires BeginsNumber(u) && Fold(longer) == Fold(shorter) + u
    ensures SameKey(longer, shorter + u)
  {
    BeginningFolds(u);
    FoldParts(shorter, u);
  }

  lemma BeginningFolds(u: string)
    requires BeginsNumber(u)
    ensures Fold(u) == u
  {
    if u != "-" {
      var m: CInt :| CanGoOn(m) && u == ToDec(m);
      FoldPrinted(m);
    }
  }

  lemma Regroup(p: string, u: string, w: string)
    ensures p + (u + w) == (p + u) + w
  {
  }

  /** A name extended by the beginning of a number shares a key with the shorter name. */
  lemma ExtensionCollides(name: string, other: string, u: string) returns (i: CInt, j: CInt)
    requires BeginsNumber(u) && SameKey(Shown(other), Shown(name) + u)
    ensures SameKey(RefusalKey(name, i), RefusalKey(other, j)) && i != j && j >= 0
    ensures BeginsNatural(u) ==> i >= 0
  {
    i, j := NumberGoesOn(u);
    FoldedKey(name, i);
    FoldedKey(other, j);
    FoldParts(Shown(name), u);
    BeginningFolds(u);
    Regroup(Fold(Shown(name)), u, ToDec(j));
  }

  lemma AlikeCollide(name: string, other: string)
    requires CutAlike(name, other)
    ensures NaturalKeysCollide(name, other)
  {
    FoldedKey(name, 1);
    FoldedKey(other, 1);
    var i: CInt := 1;
    assert Collide(name, i, other, i);
  }

  lemma WhereKeysMeet(name: string, i: CInt, other: string, j: CInt)
    requires Collide(name, i, other, j)
    ensures Meet(name, other) && (0 <= i && 0 <= j ==> MeetNaturally(name, other))
  {
    if |Shown(name)| <= |Shown(other)| {
      CommonKey(name, i, other, j);
    } else {
      CommonKey(other, j, name, i);
    }
  }

  /** Exactly when some instances of two applications share a refusal key, for all names and all numbers. */
  lemma KeysCollideIff(name: string, other: string)
    ensures KeysCollide(name, other) <==> Meet(name, other)
  {
    if KeysCollide(name, other) {
      var i: CInt, j: CInt :| Collide(name, i, other, j);
      WhereKeysMeet(name, i, other, j);
    }
    if CutAlike(name, other) {
      AlikeCollide(name, other);
    } else if Extends(Shown(other), Shown(name)) {
      var u :| BeginsNumber(u) && SameKey(Shown(other), Shown(name) + u);
      var i, j := ExtensionCollides(name, other, u);
      assert Collide(name, i, other, j);
    } else if Extends(Shown(name), Shown(other)) {
      var u :| BeginsNumber(u) && SameKey(Shown(name), Shown(other) + u);
      var j, i := ExtensionCollides(other, name, u);
      assert Collide(name, i, other, j);
    }
  }

  /** And exactly when some do whose numbers are not negative. */
  lemma NaturalKeysCollideIff(name: string, other: string)
    ensures NaturalKeysCollide(name, other) <==> MeetNaturally(name, other)
  {
    if NaturalKeysCollide(name, other) {
      var i: CInt, j: CInt :| 0 <= i && 0 <= j && Collide(name, i, other, j);
      WhereKeysMeet(name, i, other, j);
    }
    if CutAlike(name, other) {
      AlikeCollide(name, other);
    } else if ExtendsNaturally(Shown(other), Shown(name)) {
      var u :| BeginsNatural(u) && SameKey(Shown(other), Shown(name) + u);
      var i, j := ExtensionCollides(name, other, u);
      assert 0 <= i && 0 <= j && Collide(name, i, other, j);
    } else if ExtendsNaturally(Shown(name), Shown(other)) {
      var u :| BeginsNatural(u) && SameKey(Shown(name), Shown(other) + u);
      var j, i := ExtensionCollides(other, name, u);
      assert 0 <= i && 0 <= j && Collide(name, i, other, j);
    }
  }

  /** For example, instance 10 of "app" and instance 0 of "app1". */
  lemma AppMeetsApp1()
    ensures Collide("app", 10, "app1", 0)
  {
    assert ToDec(10) == NatToDec(1) + [DigitChar(0)] == "10";
    assert ToDec(0) == "0";
    assert RefusalKey("app", 10) == "app10" == RefusalKey("app1", 0);
    assert |Fold("app")| != |Fold("app1")|;
  }

  predicate EndsInDigit(name: string) {
    name != "" && IsDigit(name[|name| - 1])
  }

  lemma ExtendedEndsInDigit(longer: string, shorter: string)
    requires ExtendsNaturally(longer, shorter)
    ensures EndsInDigit(longer)
  {
    var u :| BeginsNatural(u) && SameKey(longer, shorter + u);
    var m: CInt :| m > 0 && CanGoOn(m) && u == ToDec(m);
    var last := |longer| - 1;
    assert |Fold(longer)| == |Fold(shorter + u)|;
    assert FoldChar(longer[last]) == Fold(longer)[last] == Fold(shorter + u)[last] == FoldChar(u[|u| - 1]);
  }

  /** The usual case: short names that do not end in a digit have keys of their own. */
  lemma UsualNamesDoNotMeet(name: string, other: string)
    requires |name| <= 45 && |other| <= 45
    requires !EndsInDigit(name) && !EndsInDigit(other)
    ensures !NaturalKeysCollide(name, other)
  {
    NaturalKeysCollideIff(name, other);
    if ExtendsNaturally(other, name) {
      ExtendedEndsInDigit(other, name);
    } else if ExtendsNaturally(name, other) {
      ExtendedEndsInDigit(name, other);
    }
  }

  // ---------------------------------------------------------------- what a shared key does

  /** Taking note of one instance of name never changes whether another instance, of other, refuses. */
  ghost predicate LeavesAlone(name: string, other: string) {
    forall s: State, i: CInt, j: CInt, isRefused: bool, now: nat, t: nat ::
      !SameInstance(name, i, other, j) ==>
        (Refuses(SetRefused(s, name, i, isRefused, now).refusals, other, j, t) <==> Refuses(s.refusals, other, j, t))
  }

  lemma OtherKeyUntouched(s: State, name: string, i: int, other: string, j: int, isRefused: bool, now: nat, t: nat)
    requires !SameKey(RefusalKey(name, i), RefusalKey(other, j))
    ensures Refuses(SetRefused(s, name, i, isRefused, now).refusals, other, j, t) <==> Refuses(s.refusals, other, j, t)
  {
    var key, k := RefusalKey(name, i), RefusalKey(other, j);
    var info := Refusal(isRefused, now + REFUSAL_DELAY);
    if Lookup(s.refusals.slots, key).Some? {
      LookupAfterSetValue(s.refusals, key, info, k);
    } else {
      LookupAfterAdd(s.refusals, key, info, k);
    }
  }

  /** One shared key is enough: with nothing noted so far, a refusal of the one instance is one of the other. */
  lemma SharedKeyRefuses(name: string, i: CInt, other: string, j: CInt)
    requires Collide(name, i, other, j)
    ensures !LeavesAlone(name, other)
  {
    var s := EMPTY_WORLD.pool;
    var refused := SetRefused(s, name, i, true, 0);
    LookupAfterAdd(s.refusals, RefusalKey(name, i), Refusal(true, REFUSAL_DELAY), RefusalKey(other, j));
    assert Refuses(refused.refusals, other, j, 0) && !Refuses(s.refusals, other, j, 0);
  }

  /**
   A refusal stays a matter of the instance it was noted for, whatever the state, the numbers and the times, exactly
   when the two names do not meet.
   */
  lemma LeavesAloneIff(name: string, other: string)
    ensures LeavesAlone(name, other) <==> !Meet(name, other)
  {
    KeysCollideIff(name, other);
    if KeysCollide(name, other) {
      var i: CInt, j: CInt :| Collide(name, i, other, j);
      SharedKeyRefuses(name, i, other, j);
    } else {
      forall s: State, i: CInt, j: CInt, isRefused: bool, now: nat, t: nat | !SameInstance(name, i, other, j)
        ensures Refuses(SetRefused(s, name, i, isRefused, now).refusals, other, j, t) <==> Refuses(s.refusals, other, j, t)
      {
        assert !Collide(name, i, other, j);
        OtherKeyUntouched(s, name, i, other, j, isRefused, now, t);
      }
    }
  }
}
