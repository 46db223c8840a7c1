/** The table that translates CGI variable names to header names: sorted in place, then searched by halving. */
module HttpHeaders {
  import opened Wrappers
  import opened CStrings

  /** GSWHeaderTranslationItem; the terminator has NULL names. */
  datatype Item = Item(http: string, gsweb: string) | Terminator

  // ---------------------------------------------------------------- the comparators

  /** compareHeader: a key against an item. */
  function CompareKey(key: string, item: Item): int {
    if item.Item? then StrCmp(key, item.http) else 1
  }

  /** compareHeaderItems: an item against an item. */
  function CompareItems(a: Item, b: Item): int
    requires b.Item? ==> a.Item?
  {
    if b.Item? then StrCmp(a.http, b.http) else if a.Terminator? then 0 else 1
  }

  /** Both comparators order the items by their CGI name, so what one sorts the other can search. */
  lemma ComparatorsAgree(key: string, gsweb: string, item: Item)
    ensures CompareKey(key, item) == CompareItems(Item(key, gsweb), item)
    ensures item.Item? ==> (CompareKey(key, item) == 0 <==> key == item.http)
  {
    if item.Item? {
      StrCmpZero(key, item.http);
    }
  }

  ghost predicate AllItems(s: seq<Item>) {
    forall i :: 0 <= i < |s| ==> s[i].Item?
  }

  // ---------------------------------------------------------------- sorting

  /** Where x goes among the first n items of s: just after the last one that does not exceed it. */
  function Place(s: seq<Item>, n: nat, x: Item): (p: nat)
    requires n <= |s| && AllItems(s) && x.Item?
    ensures p <= n
    ensures p > 0 ==> CompareItems(s[p - 1], x) <= 0
    ensures forall k :: p <= k < n ==> CompareItems(s[k], x) > 0
  {
    if n == 0 || CompareItems(s[n - 1], x) <= 0 then n else Place(s, n - 1, x)
  }

  function Insert(s: seq<Item>, x: Item): (r: seq<Item>)
    requires AllItems(s) && x.Item?
    ensures |r| == |s| + 1 && AllItems(r)
  {
    var p := Place(s, |s|, x);
    s[..p] + [x] + s[p..]
  }

  function Sort(s: seq<Item>): (r: seq<Item>)
    requires AllItems(s)
    ensures |r| == |s| && AllItems(r)
  {
    if s == [] then [] else Insert(Sort(s[..|s| - 1]), s[|s| - 1])
  }

  lemma InsertPermutes(s: seq<Item>, x: Item)
    requires AllItems(s) && x.Item?
    ensures multiset(Insert(s, x)) == multiset(s) + multiset{x}
  {
    var p := Place(s, |s|, x);
    assert s == s[..p] + s[p..];
  }

  lemma {:induction false} SortPermutes(s: seq<Item>)
    requires AllItems(s)
    ensures multiset(Sort(s)) == multiset(s)
    decreases |s|
  {
    if s != [] {
      var front, x := s[..|s| - 1], s[|s| - 1];
      SortPermutes(front);
      InsertPermutes(Sort(front), x);
      assert Sort(s) == Insert(Sort(front), x);
      assert s == front + [x];
    }
  }

  ghost predicate Sorted(s: seq<Item>)
    requires AllItems(s)
  {
    forall i, j :: 0 <= i < j < |s| ==> StrCmp(s[i].http, s[j].http) <= 0
  }

  lemma BelowPlace(s: seq<Item>, x: Item, p: nat)
    requires AllItems(s) && x.Item? && Sorted(s) && p <= |s|
    requires p > 0 ==> StrCmp(s[p - 1].http, x.http) <= 0
    ensures forall k :: 0 <= k < p ==> StrCmp(s[k].http, x.http) <= 0
  {
    forall k | 0 <= k < p ensures StrCmp(s[k].http, x.http) <= 0 {
      if k < p - 1 {
        StrCmpTransitive(s[k].http, s[p - 1].http, x.http);
      }
    }
  }

  lemma {:induction false} AbovePlace(s: seq<Item>, x: Item, p: nat)
    requires AllItems(s) && x.Item? && p == Place(s, |s|, x)
    ensures forall k :: p <= k < |s| ==> StrCmp(x.http, s[k].http) <= 0
  {
    forall k | p <= k < |s| ensures StrCmp(x.http, s[k].http) <= 0 {
      assert CompareItems(s[k], x) > 0;
      FromOpposite(x.http, s[k].http, 0);
    }
  }

  lemma Around(s: seq<Item>, x: Item, p: nat, r: seq<Item>)
    requires AllItems(s) && x.Item? && Sorted(s) && p <= |s|
    requires forall k :: 0 <= k < p ==> StrCmp(s[k].http, x.http) <= 0
    requires forall k :: p <= k < |s| ==> StrCmp(x.http, s[k].http) <= 0
    requires r == s[..p] + [x] + s[p..]
    ensures AllItems(r) && Sorted(r)
  {
    forall i | 0 <= i < |r| ensures r[i] == if i < p then s[i] else if i == p then x else s[i - 1] {
    }
  }

  lemma InsertKeepsSorted(s: seq<Item>, x: Item)
    requires AllItems(s) && x.Item? && Sorted(s)
    ensures Sorted(Insert(s, x))
  {
    var p := Place(s, |s|, x);
    BelowPlace(s, x, p);
    AbovePlace(s, x, p);
    Around(s, x, p, Insert(s, x));
  }

  lemma {:induction false} SortSorts(s: seq<Item>)
    requires AllItems(s)
    ensures Sorted(Sort(s))
    decreases |s|
  {
    if s != [] {
      SortSorts(s[..|s| - 1]);
      InsertKeepsSorted(Sort(s[..|s| - 1]), s[|s| - 1]);
    }
  }

  /** Shifting the end of s up by one and filling the gap is the splice of x into s. */
  lemma ShiftedIsSpliced<T>(s: seq<T>, x: T, p: nat, r: seq<T>)
    requires |r| == |s| + 1 && p <= |s| && r[p] == x
    requires forall k :: 0 <= k < p ==> r[k] == s[k]
    requires forall k :: p <= k < |s| ==> r[k + 1] == s[k]
    ensures r == s[..p] + [x] + s[p..]
  {
    assert r[..p] == s[..p];
    var tail := r[p + 1..];
    forall k | 0 <= k < |tail| ensures tail[k] == s[p..][k] {
      assert tail[k] == r[p + k + 1] && s[p..][k] == s[p + k];
    }
    assert r == r[..p] + [r[p]] + tail;
  }

  /** Moves the items before i that exceed x up by one, and says where the gap is. */
  method MakeRoom(a: array<Item>, i: nat, x: Item, ghost s: seq<Item>) returns (j: nat)
    requires i < a.Length && x.Item? && |s| == i && AllItems(s)
    requires forall k :: 0 <= k < i ==> a[k] == s[k]
    modifies a
    ensures j == Place(s, i, x)
    ensures forall k :: 0 <= k < j ==> a[k] == s[k]
    ensures forall k {:trigger s[k]} :: j <= k < i ==> a[k + 1] == s[k]
    ensures forall k :: i < k < a.Length ==> a[k] == old(a[k])
  {
    j := i;
    while j > 0 && CompareItems(a[j - 1], x) > 0
      invariant j <= i
      invariant forall k :: 0 <= k < j ==> a[k] == s[k]
      invariant forall k {:trigger s[k]} :: j <= k < i ==> a[k + 1] == s[k]
      invariant forall k :: i < k < a.Length ==> a[k] == old(a[k])
      invariant Place(s, i, x) == Place(s, j, x)
    {
      a[j] := a[j - 1];
      j := j - 1;
    }
  }

  /** One round of the sort: the item at i moves left to its place among the items before it. */
  method InsertInPlace(a: array<Item>, i: nat)
    requires i < a.Length && forall k :: 0 <= k <= i ==> a[k].Item?
    modifies a
    ensures a[..i + 1] == Insert(old(a[..i]), old(a[i]))
    ensures forall k :: i < k < a.Length ==> a[k] == old(a[k])
  {
    ghost var s := a[..i];
    var x := a[i];
    var j := MakeRoom(a, i, x, s);
    a[j] := x;
    ShiftedIsSpliced(s, x, j, a[..i + 1]);
  }

  /** qsort of the first n items. */
  method SortInPlace(a: array<Item>, n: nat)
    requires n <= a.Length && forall k :: 0 <= k < n ==> a[k].Item?
    modifies a
    ensures a[..n] == Sort(old(a[..n]))
    ensures forall k :: n <= k < a.Length ==> a[k] == old(a[k])
  {
    ghost var s := a[..n];
    var i: nat := 0;
    while i < n
      invariant i <= n
      invariant a[..i] == Sort(s[..i])
      invariant forall k :: i <= k < n ==> a[k] == s[k]
      invariant forall k :: n <= k < a.Length ==> a[k] == old(a[k])
    {
      assert s[..i + 1][..i] == s[..i];
      forall k | 0 <= k < i ensures a[k].Item? {
        assert a[k] == a[..i][k];
      }
      InsertInPlace(a, i);
      i := i + 1;
    }
    assert s[..n] == s;
  }

  // ---------------------------------------------------------------- searching

  ghost predicate DistinctNames(s: seq<Item>)
    requires AllItems(s)
  {
    forall i, j :: 0 <= i < j < |s| ==> s[i].http != s[j].http
  }

  /** The plain meaning of the table. */
  function Scan(s: seq<Item>, key: string): (r: Option<string>)
    requires AllItems(s)
    ensures r.None? <==> forall i :: 0 <= i < |s| ==> s[i].http != key
    ensures r.Some? ==> Item(key, r.value) in s
  {
    if s == [] then None
    else if s[0].http == key then Some(s[0].gsweb)
    else Scan(s[1..], key)
  }

  lemma {:induction false} ScanFinds(s: seq<Item>, i: nat)
    requires AllItems(s) && DistinctNames(s) && i < |s|
    ensures Scan(s, s[i].http) == Some(s[i].gsweb)
  {
    var r := Scan(s, s[i].http);
    assert r.Some?;
    var j :| 0 <= j < |s| && s[j] == Item(s[i].http, r.value);
    assert i == j;
  }

  /** The item a search finds in a rearrangement of s is the one a scan of s finds. */
  lemma {:induction false} FoundIsScanned(s: seq<Item>, t: seq<Item>, i: nat)
    requires AllItems(s) && AllItems(t) && DistinctNames(s) && multiset(s) == multiset(t) && i < |t|
    ensures Scan(s, t[i].http) == Some(t[i].gsweb)
  {
    assert t[i] in multiset(s);
    var j :| 0 <= j < |s| && s[j] == t[i];
    ScanFinds(s, j);
  }

  lemma {:induction false} ScanMisses(s: seq<Item>, t: seq<Item>, key: string)
    requires AllItems(s) && AllItems(t) && multiset(s) == multiset(t)
    requires Scan(t, key).None?
    ensures Scan(s, key).None?
  {
    forall i | 0 <= i < |s| ensures s[i].http != key {
      assert s[i] in multiset(t);
    }
  }

  /** bsearch with compareHeader, on the first n items of a sorted table. */
  method BinarySearch(a: array<Item>, n: nat, key: string) returns (r: Option<nat>)
    requires n <= a.Length && AllItems(a[..n]) && Sorted(a[..n])
    ensures r.Some? ==> r.value < n && a[r.value].http == key
    ensures r.None? ==> forall i :: 0 <= i < n ==> a[..n][i].http != key
  {
    ghost var s := a[..n];
    var low, high := 0, n;
    while low < high
      invariant low <= high <= n
      invariant forall i :: 0 <= i < low ==> s[i].http != key
      invariant forall i :: high <= i < n ==> s[i].http != key
    {
      var mid := (low + high) / 2;
      assert a[mid] == s[mid];
      var c := CompareKey(key, a[mid]);
      StrCmpZero(key, s[mid].http);
      if c < 0 {
        forall i | mid <= i < n ensures s[i].http != key {
          StrCmpZero(key, s[i].http);
          if i > mid {
            StrCmpTransitive(key, s[mid].http, s[i].http);
          }
        }
        high := mid;
      } else if c > 0 {
        StrCmpOpposite(key, s[mid].http);
        forall i | 0 <= i <= mid ensures s[i].http != key {
          StrCmpZero(s[i].http, key);
          if i < mid {
            StrCmpTransitive(s[i].http, s[mid].http, key);
          }
        }
        low := mid + 1;
      } else {
        return Some(mid);
      }
    }
    return None;
  }

  // ---------------------------------------------------------------- the table

  const FIRST_ITEMS := [
    Item("ANNOTATION_SERVER", "x-gsweb-annotation-server"),
    Item("AUTH_PASS", "x-gsweb-auth-pass"),
    Item("AUTH_TYPE", "x-gsweb-auth-type"),
    Item("CONTENT_ENCODING", "content-encoding")]

  const SERVER_SIDE_ITEMS := [
    Item("CONTENT_LENGTH", "content-length"),
    Item("CONTENT_TYPE", "content-type"),
    Item("DOCUMENT_ROOT", "x-gsweb-documentroot"),
    Item("GATEWAY_INTERFACE", "x-gsweb-gateway-interface")]

  const ACCEPT_ITEMS := [
    Item("HTTP_ACCEPT", "accept"),
    Item("HTTP_ACCEPT_ENCODING", "accept-encoding"),
    Item("HTTP_ACCEPT_LANGUAGE", "accept-language"),
    Item("HTTP_ALLOW", "allow")]

  const HTTP_ITEMS := [
    Item("HTTP_AUTHORIZATION", "authorization"),
    Item("HTTP_COOKIE", "cookie"),
    Item("HTTP_DATE", "date"),
    Item("HTTP_EXPIRES", "expires")]

  const SINCE_ITEMS := [
    Item("HTTP_FROM", "from"),
    Item("HTTP_IF_MODIFIED_SINCE", "if-modified-since"),
    Item("HTTP_LAST_MODIFIED", "last-modified"),
    Item("HTTP_MIME_VERSION", "mime-version")]

  const USER_ITEMS := [
    Item("HTTP_PRAGMA", "pragma"),
    Item("HTTP_REFERER", "referer"),
    Item("HTTP_USER_AGENT", "user-agent"),
    Item("HTTP_X_GSWEB_RECORDING", "x-gsweb-recording")]

  const REMOTE_ITEMS := [
    Item("QUERY_STRING", "x-gsweb-query-string"),
    Item("REMOTE_ADDR", "x-gsweb-remote-addr"),
    Item("REMOTE_HOST", "x-gsweb-remote-host"),
    Item("REMOTE_IDENT", "x-gsweb-remote-ident"),
    Item("REMOTE_USER", "x-gsweb-remote-user"),
    Item("REQUEST_METHOD", "x-gsweb-request-method")]

  const SERVER_ITEMS := [
    Item("SERVER_NAME", "x-gsweb-server-name"),
    Item("SERVER_PORT", "x-gsweb-server-port"),
    Item("SERVER_SOFTWARE", "x-gsweb-server-software")]

  const PROTOCOL_ITEMS := [
    Item("PROTOCOL", "x-gsweb-server-protocol"),
    Item("PROTOCOL_NUM", "x-gsweb-server-protocol-num")]

  const SCHEME_ITEMS := [
    Item("REQUEST_SCHEME", "x-gsweb-request-scheme")]

  const EARLY_ITEMS := FIRST_ITEMS + SERVER_SIDE_ITEMS + ACCEPT_ITEMS + HTTP_ITEMS + SINCE_ITEMS + USER_ITEMS

  /** The table as GSWHeaderTranslationTable_Init fills it in, before sorting. */
  const PLAIN_TABLE := EARLY_ITEMS + REMOTE_ITEMS + SERVER_ITEMS + PROTOCOL_ITEMS + SCHEME_ITEMS

  /** strcmp decides at the first character that differs. */
  lemma {:induction false} PrecedesAt(a: string, b: string, i: nat, n: nat)
    requires i <= n <= |a| && n < |b| && a[..n] == b[..n]
    requires n == |a| || a[n] < b[n]
    ensures StrCmpFrom(a, b, i) < 0
    decreases n - i
  {
    if i < n {
      assert a[i] == a[..n][i] == b[i];
      PrecedesAt(a, b, i + 1, n);
    }
  }

  /** Each name is below the next one. */
  ghost predicate Chain(s: seq<Item>) {
    AllItems(s) && forall i, j :: 0 <= i && j == i + 1 < |s| ==> StrCmp(s[i].http, s[j].http) < 0
  }

  lemma ChainJoin(s: seq<Item>, t: seq<Item>)
    requires Chain(s) && Chain(t) && s != [] && t != []
    requires StrCmp(s[|s| - 1].http, t[0].http) < 0
    ensures Chain(s + t)
  {
    var r := s + t;
    forall i, j | 0 <= i && j == i + 1 < |r| ensures StrCmp(r[i].http, r[j].http) < 0 {
      if i >= |s| {
        assert r[i] == t[i - |s|] && r[j] == t[j - |s|];
      }
    }
  }

  lemma {:induction false} ChainAscends(s: seq<Item>, i: nat, j: nat)
    requires Chain(s) && i < j < |s|
    ensures StrCmp(s[i].http, s[j].http) < 0
    decreases j
  {
    if i + 1 < j {
      ChainAscends(s, i, j - 1);
      StrCmpTransitive(s[i].http, s[j - 1].http, s[j].http);
    }
  }

  lemma ChainIsDistinct(s: seq<Item>)
    requires Chain(s)
    ensures DistinctNames(s)
  {
    forall i, j | 0 <= i < j < |s| ensures s[i].http != s[j].http {
      ChainAscends(s, i, j);
      StrCmpZero(s[i].http, s[j].http);
    }
  }

  lemma FirstItemsAscend()
    ensures Chain(FIRST_ITEMS)
  {
    assert StrCmp("ANNOTATION_SERVER", "AUTH_PASS") < 0;
    assert StrCmp("AUTH_PASS", "AUTH_TYPE") < 0;
    assert StrCmp("AUTH_TYPE", "CONTENT_ENCODING") < 0;
  }

  lemma ServerSideItemsAscend()
    ensures Chain(SERVER_SIDE_ITEMS)
  {
    assert StrCmp("CONTENT_LENGTH", "CONTENT_TYPE") < 0;
    assert StrCmp("CONTENT_TYPE", "DOCUMENT_ROOT") < 0;
    assert StrCmp("DOCUMENT_ROOT", "GATEWAY_INTERFACE") < 0;
  }

  lemma AcceptItemsAscend()
    ensures Chain(ACCEPT_ITEMS)
  {
    PrecedesAt("HTTP_ACCEPT", "HTTP_ACCEPT_ENCODING", 0, 11);
    PrecedesAt("HTTP_ACCEPT_ENCODING", "HTTP_ACCEPT_LANGUAGE", 0, 12);
    assert StrCmp("HTTP_ACCEPT_LANGUAGE", "HTTP_ALLOW") < 0;
  }

  lemma HttpItemsAscend()
    ensures Chain(HTTP_ITEMS)
  {
    assert StrCmp("HTTP_AUTHORIZATION", "HTTP_COOKIE") < 0;
    assert StrCmp("HTTP_COOKIE", "HTTP_DATE") < 0;
    assert StrCmp("HTTP_DATE", "HTTP_EXPIRES") < 0;
  }

  lemma SinceItemsAscend()
    ensures Chain(SINCE_ITEMS)
  {
    assert StrCmp("HTTP_FROM", "HTTP_IF_MODIFIED_SINCE") < 0;
    assert StrCmp("HTTP_IF_MODIFIED_SINCE", "HTTP_LAST_MODIFIED") < 0;
    assert StrCmp("HTTP_LAST_MODIFIED", "HTTP_MIME_VERSION") < 0;
  }

  lemma UserItemsAscend()
    ensures Chain(USER_ITEMS)
  {
    assert StrCmp("HTTP_PRAGMA", "HTTP_REFERER") < 0;
    assert StrCmp("HTTP_REFERER", "HTTP_USER_AGENT") < 0;
    assert StrCmp("HTTP_USER_AGENT", "HTTP_X_GSWEB_RECORDING") < 0;
  }

  lemma ProtocolItemsAscend()
    ensures Chain(PROTOCOL_ITEMS)
  {
    assert StrCmp("PROTOCOL", "PROTOCOL_NUM") < 0;
  }

  lemma RemoteItemsAscend()
    ensures Chain(REMOTE_ITEMS)
  {
    assert StrCmp("QUERY_STRING", "REMOTE_ADDR") < 0;
    assert StrCmp("REMOTE_ADDR", "REMOTE_HOST") < 0;
    assert StrCmp("REMOTE_HOST", "REMOTE_IDENT") < 0;
    assert StrCmp("REMOTE_IDENT", "REMOTE_USER") < 0;
    assert StrCmp("REMOTE_USER", "REQUEST_METHOD") < 0;
  }

  lemma ServerItemsAscend()
    ensures Chain(SERVER_ITEMS)
  {
    assert StrCmp("SERVER_NAME", "SERVER_PORT") < 0;
    assert StrCmp("SERVER_PORT", "SERVER_SOFTWARE") < 0;
  }

  lemma EarlyItemsAscend()
    ensures Chain(EARLY_ITEMS)
  {
    FirstItemsAscend();
    AcceptItemsAscend();
    ServerSideItemsAscend();
    HttpItemsAscend();
    SinceItemsAscend();
    UserItemsAscend();
    ChainJoin(FIRST_ITEMS, SERVER_SIDE_ITEMS);
    ChainJoin(FIRST_ITEMS + SERVER_SIDE_ITEMS, ACCEPT_ITEMS);
    ChainJoin(FIRST_ITEMS + SERVER_SIDE_ITEMS + ACCEPT_ITEMS, HTTP_ITEMS);
    ChainJoin(FIRST_ITEMS + SERVER_SIDE_ITEMS + ACCEPT_ITEMS + HTTP_ITEMS, SINCE_ITEMS);
    ChainJoin(FIRST_ITEMS + SERVER_SIDE_ITEMS + ACCEPT_ITEMS + HTTP_ITEMS + SINCE_ITEMS, USER_ITEMS);
  }

  lemma LateItemsAscend()
    ensures Chain(PROTOCOL_ITEMS + REMOTE_ITEMS + SCHEME_ITEMS + SERVER_ITEMS)
  {
    ProtocolItemsAscend();
    RemoteItemsAscend();
    ServerItemsAscend();
    ChainJoin(PROTOCOL_ITEMS, REMOTE_ITEMS);
    ChainJoin(PROTOCOL_ITEMS + REMOTE_ITEMS, SCHEME_ITEMS);
    ChainJoin(PROTOCOL_ITEMS + REMOTE_ITEMS + SCHEME_ITEMS, SERVER_ITEMS);
  }

  function MovedFrom(x: nat, y: nat, z: nat, i: nat): nat {
    if i < x then i else if i < x + z then i + y else i - z
  }

  lemma Rotated(x: seq<Item>, y: seq<Item>, z: seq<Item>)
    requires AllItems(x + y + z) && DistinctNames(x + y + z)
    ensures AllItems(x + z + y) && DistinctNames(x + z + y)
  {
    var s, t := x + y + z, x + z + y;
    forall i | 0 <= i < |t| ensures t[i] == s[MovedFrom(|x|, |y|, |z|, i)] {
    }
    forall i | 0 <= i < |t| ensures t[i].Item? {
      assert t[i] == s[MovedFrom(|x|, |y|, |z|, i)];
    }
    forall i, j | 0 <= i < j < |t| ensures t[i].http != t[j].http {
      assert MovedFrom(|x|, |y|, |z|, i) != MovedFrom(|x|, |y|, |z|, j);
    }
  }

  lemma Reordered(e: seq<Item>, p: seq<Item>, r: seq<Item>, c: seq<Item>, s: seq<Item>)
    requires AllItems(e + (p + r + c + s)) && DistinctNames(e + (p + r + c + s))
    ensures AllItems(e + r + s + p + c) && DistinctNames(e + r + s + p + c)
  {
    assert e + (p + r + c + s) == e + p + (r + c + s);
    Rotated(e, p, r + c + s);
    assert e + (r + c + s) + p == (e + r) + c + (s + p);
    Rotated(e + r, c, s + p);
    assert (e + r) + (s + p) + c == e + r + s + p + c;
  }

  /** No CGI name is translated twice. */
  lemma NamesAreDistinct()
    ensures AllItems(PLAIN_TABLE) && DistinctNames(PLAIN_TABLE)
  {
    EarlyItemsAscend();
    LateItemsAscend();
    var early, late := EARLY_ITEMS, PROTOCOL_ITEMS + REMOTE_ITEMS + SCHEME_ITEMS + SERVER_ITEMS;
    assert StrCmp("HTTP_X_GSWEB_RECORDING", "PROTOCOL") < 0;
    ChainJoin(early, late);
    ChainIsDistinct(early + late);
    Reordered(early, PROTOCOL_ITEMS, REMOTE_ITEMS, SCHEME_ITEMS, SERVER_ITEMS);
  }

  lemma TableSize()
    ensures |PLAIN_TABLE| == 36
  {
    assert |FIRST_ITEMS| == |SERVER_SIDE_ITEMS| == |ACCEPT_ITEMS| == |HTTP_ITEMS| == |SINCE_ITEMS| == |USER_ITEMS| == 4;
    assert |REMOTE_ITEMS| == 6 && |SERVER_ITEMS| == 3 && |PROTOCOL_ITEMS| == 2 && |SCHEME_ITEMS| == 1;
  }

  /** The items of a table, sorted. */
  ghost predicate IsIndexOf(s: seq<Item>, table: seq<Item>) {
    AllItems(s) && Sorted(s) && multiset(s) == multiset(table)
  }

  /** Writes a table into the array, the terminator after it, and sorts what precedes the terminator. */
  method FillAndSort(items: array<Item>, table: seq<Item>) returns (n: nat)
    requires AllItems(table) && |table| < items.Length
    modifies items
    ensures n == |table| && IsIndexOf(items[..n], table) && items[n] == Terminator
  {
    var i: nat := 0;
    while i < |table|
      invariant i <= |table| && forall k :: 0 <= k < i ==> items[k] == table[k]
    {
      items[i] := table[i];
      i := i + 1;
    }
    items[i] := Terminator;
    assert items[..i] == table;
    n := i;
    SortInPlace(items, n);
    SortSorts(table);
    SortPermutes(table);
  }

  /** Searching the sorted items agrees with scanning the table they come from, for every key. */
  method SearchIndex(items: array<Item>, n: nat, key: string, ghost table: seq<Item>) returns (r: Option<string>)
    requires n <= items.Length && IsIndexOf(items[..n], table)
    requires AllItems(table) && DistinctNames(table)
    ensures r == Scan(table, key)
  {
    ghost var sorted := items[..n];
    var found := BinarySearch(items, n, key);
    match found {
      case None =>
        forall i | 0 <= i < n ensures sorted[i].http != key {
          assert sorted[i] == items[..n][i];
        }
        ScanMisses(table, sorted, key);
        r := None;
      case Some(i) =>
        assert items[i] == sorted[i];
        FoundIsScanned(table, sorted, i);
        r := Some(items[i].gsweb);
    }
  }

  /** GSWHeaderTranslationTable and its item count. */
  class TranslationTable {
    const items: array<Item>
    var count: nat

    /** Either not filled in yet, or holding the items of the plain table by name. */
    ghost predicate Valid()
      reads this, items
    {
      items.Length == 50 && (count == 0 || (count == |PLAIN_TABLE| < 50 && IsIndexOf(items[..count], PLAIN_TABLE)))
    }

    constructor ()
      ensures Valid() && fresh(items) && count == 0
    {
      items := new Item[50](_ => Terminator);
      count := 0;
    }

    method Init()
      requires items.Length == 50
      modifies this, items
      ensures Valid() && count == |PLAIN_TABLE|
    {
      TableSize();
      NamesAreDistinct();
      count := FillAndSort(items, PLAIN_TABLE);
    }

    /** GSWebHeaderForHTTPHeader: whatever the key, what a scan of the plain table says. */
    method Translate(key: string) returns (r: Option<string>)
      requires Valid()
      modifies this, items
      ensures Valid() && count == |PLAIN_TABLE|
      ensures AllItems(PLAIN_TABLE) && r == Scan(PLAIN_TABLE, key)
    {
      TableSize();
      NamesAreDistinct();
      if count == 0 {
        Init();
      }
      r := SearchIndex(items, count, key, PLAIN_TABLE);
    }
  }
}
