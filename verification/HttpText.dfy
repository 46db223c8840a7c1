/** HTTP response text: what the adaptor reads from an application and how it prints headers. */
module HttpText {
  import opened Wrappers
  import opened CStrings
  import opened SlotTables
  import opened HeaderPrinter

  const LINE_MAX: nat := 8192       // RESPONSE__LINE_MAX_SIZE
  const CONTENT_LENGTH: string := "content-length"
  const STATS_HEADERS: seq<string> := ["x-gsweb-adaptorstats: ", "x-webobjects-adaptorstats: "]

  function IndexOf(s: string, c: char): (r: Option<nat>)
    ensures r.Some? ==> r.value < |s| && s[r.value] == c && forall i :: 0 <= i < r.value ==> s[i] != c
    ensures r.None? ==> c !in s
  {
    if s == [] then None
    else if s[0] == c then Some(0)
    else match IndexOf(s[1..], c) case None => None case Some(i) => Some(i + 1)
  }

  lemma {:induction false} IndexOfIs(s: string, c: char, i: nat)
    requires i < |s| && s[i] == c && forall j :: 0 <= j < i ==> s[j] != c
    ensures IndexOf(s, c) == Some(i)
  {
    assert s[i] in s;
  }

  /** A separator that does not occur before it splits a text in two. */
  lemma {:induction false} SplitAt(head: string, c: char, text: string)
    requires c !in head
    ensures IndexOf(head + [c] + text, c) == Some(|head|)
    ensures (head + [c] + text)[..|head|] == head && (head + [c] + text)[|head| + 1..] == text
  {
    var whole := head + [c] + text;
    forall i | 0 <= i < |head| ensures whole[i] != c {
      assert whole[i] == head[i] && head[i] in head;
    }
    IndexOfIs(whole, c, |head|);
  }

  // ---------------------------------------------------------------- the status line

  /** The digits at the front of a text, if nothing but a blank or the end follows them. */
  function DigitToken(s: string): (r: Option<nat>)
    ensures r.Some? ==> r.value <= |s| && (forall i :: 0 <= i < r.value ==> IsDigit(s[i])) && (r.value < |s| ==> IsSpace(s[r.value]))
    ensures r.None? ==> exists i :: 0 <= i < |s| && !IsDigit(s[i]) && !IsSpace(s[i]) && forall j :: 0 <= j < i ==> IsDigit(s[j])
  {
    if s == [] || IsSpace(s[0]) then Some(0)
    else if !IsDigit(s[0]) then None
    else
      match DigitToken(s[1..])
      case None =>
        assert exists i :: 0 <= i < |s| && !IsDigit(s[i]) && !IsSpace(s[i]) && forall j :: 0 <= j < i ==> IsDigit(s[j]) by {
          var i :| 0 <= i < |s[1..]| && !IsDigit(s[1..][i]) && !IsSpace(s[1..][i]) && forall j :: 0 <= j < i ==> IsDigit(s[1..][j]);
          assert s[i + 1] == s[1..][i] && forall j :: 0 < j < i + 1 ==> s[j] == s[1..][j - 1];
        }
        None
      case Some(n) => Some(n + 1)
  }

  /** Status and message, from the text after the protocol version. */
  function StatusText(text: string): Option<(nat, Option<string>)> {
    match DigitToken(text)
    case None => None
    case Some(n) => Some((Uint32(Atoi(text)), match IndexOf(text[n..], ' ') case None => None case Some(i) => Some(text[n..][i + 1..])))
  }

  /** GSWHTTPResponse_New: status and message of "HTTP/... status message". */
  function StatusLine(line: string): Option<(nat, Option<string>)> {
    if !("HTTP/" <= line) then None
    else
      match IndexOf(line, ' ')
      case None => None
      case Some(space) => StatusText(line[space + 1..])
  }

  lemma StatusLineOf(version: string, text: string)
    requires ' ' !in version
    ensures StatusLine("HTTP/" + version + " " + text) == StatusText(text)
  {
    var head := "HTTP/" + version;
    var line := head + [' '] + text;
    forall c | c in head ensures c != ' ' {
      assert c in "HTTP/" || c in version;
    }
    SplitAt(head, ' ', text);
    assert "HTTP/" <= line;
  }

  /** A well-formed status line gives back its parts. */
  lemma StatusLineRoundTrip(version: string, status: nat, message: string)
    requires ' ' !in version && status < 0x1_0000_0000
    ensures StatusLine("HTTP/" + version + " " + (ToDec(status) + " " + message)) == Some((status, Some(message)))
  {
    StatusLineOf(version, ToDec(status) + " " + message);
    StatusAndMessage(status, message);
  }

  lemma StatusAndMessage(status: nat, message: string)
    requires status < 0x1_0000_0000
    ensures StatusText(ToDec(status) + " " + message) == Some((status, Some(message)))
  {
    var text := ToDec(status) + " " + message;
    StatusTextRoundTrip(ToDec(status), message);
    PrintedThenText(status, message);
    assert DigitToken(text) == Some(|ToDec(status)|);
  }

  /** The adaptor's own pages begin with a status line it accepts, so building one cannot fail. */
  lemma OwnStatusLine(server: string)
    ensures StatusLine("HTTP/1.0 200 OK " + server) == Some((200, Some("OK " + server)))
  {
    StatusLineRoundTrip("1.0", 200, "OK " + server);
    Printed200();
    OwnLine(server);
  }

  lemma Printed200()
    ensures ToDec(200) == "200"
  {
    assert NatToDec(2) == "2";
    assert NatToDec(20) == "20";
  }

  lemma OwnLine(server: string)
    ensures "HTTP/" + "1.0" + " " + ("200" + " " + ("OK " + server)) == "HTTP/1.0 200 OK " + server
  {
  }

  lemma PrintedThenText(status: nat, message: string)
    requires status < 0x1_0000_0000
    ensures Uint32(Atoi(ToDec(status) + " " + message)) == status
  {
    UnsignedOfPrinted(status, " " + message);
    assert ToDec(status) + " " + message == ToDec(status) + (" " + message);
  }

  lemma StatusTextRoundTrip(digits: string, message: string)
    requires forall i :: 0 <= i < |digits| ==> IsDigit(digits[i])
    ensures var text := digits + " " + message;
            && DigitToken(text) == Some(|digits|)
            && IndexOf(text[|digits|..], ' ') == Some(0) && text[|digits|..][0 + 1..] == message
  {
    var text := digits + " " + message;
    assert text == digits + (" " + message);
    TokenOfDigits(digits, " " + message);
    assert text[|digits|..] == " " + message;
    IndexOfIs(" " + message, ' ', 0);
  }

  lemma {:induction false} TokenOfDigits(digits: string, rest: string)
    requires forall i :: 0 <= i < |digits| ==> IsDigit(digits[i])
    requires rest == [] || IsSpace(rest[0])
    ensures DigitToken(digits + rest) == Some(|digits|)
  {
    if digits == [] {
      assert digits + rest == rest;
    } else {
      assert (digits + rest)[1..] == digits[1..] + rest;
      TokenOfDigits(digits[1..], rest);
    }
  }

  /** A status that is not a number makes the whole line invalid. */
  lemma BadStatusRejected(version: string, status: string, i: nat, rest: string)
    requires ' ' !in version && i < |status| && !IsDigit(status[i])
    requires forall j :: 0 <= j < |status| ==> !IsSpace(status[j])
    ensures StatusLine("HTTP/" + version + " " + (status + rest)) == None
  {
    StatusLineOf(version, status + rest);
    assert forall j :: 0 <= j < |status| ==> (status + rest)[j] == status[j];
  }

  // ---------------------------------------------------------------- lines

  /** DeleteTrailingCRNL */
  function StripLineEnd(s: string): (r: string)
    ensures r <= s
    ensures r == [] || (r[|r| - 1] != '\r' && r[|r| - 1] != '\n')
  {
    if s != [] && (s[|s| - 1] == '\r' || s[|s| - 1] == '\n') then StripLineEnd(s[..|s| - 1]) else s
  }

  /** What fgets takes: up to and including a newline, at most max bytes. */
  function LineLength(bytes: seq<char>, max: nat): (n: nat)
    ensures n <= |bytes| && n <= max
    ensures bytes != [] && max > 0 ==> n > 0
  {
    if bytes == [] || max == 0 then 0
    else if bytes[0] == '\n' then 1
    else 1 + LineLength(bytes[1..], max - 1)
  }

  datatype Received = Received(line: string, length: int, rest: seq<char>)

  /** GSWApp_ReceiveLine: -1 at the end of the stream. */
  function ReceiveLine(bytes: seq<char>): (r: Received)
    ensures |r.rest| <= |bytes| && (bytes != [] ==> |r.rest| < |bytes|)
    ensures r.length > 0 <==> r.line != []
    ensures r.length > 0 ==> r.length == |r.line|
  {
    if bytes == [] then Received("", -1, [])
    else
      var n := LineLength(bytes, LINE_MAX - 1);
      var line := StripLineEnd(CStr(bytes[..n]));
      Received(line, |line|, bytes[n..])
  }

  predicate PlainLine(line: string) {
    NoNul(line) && '\r' !in line && '\n' !in line
  }

  lemma {:induction false} LineLengthOf(line: string, rest: seq<char>, max: nat)
    requires '\n' !in line && |line| + 1 <= max
    ensures LineLength(line + "\n" + rest, max) == |line| + 1
  {
    if line == [] {
      assert (line + "\n" + rest)[0] == '\n';
    } else {
      assert (line + "\n" + rest)[1..] == line[1..] + "\n" + rest;
      LineLengthOf(line[1..], rest, max - 1);
    }
  }

  predicate IsLineEnd(end: string) {
    end == "\n" || end == "\r\n"
  }

  /** A line that fits the buffer is received whole, without its line end. */
  lemma ReceivePlainLine(line: string, end: string, rest: seq<char>)
    requires PlainLine(line) && IsLineEnd(end) && |line| + 2 <= LINE_MAX - 1
    ensures ReceiveLine(line + end + rest) == Received(line, |line|, rest)
  {
    var bytes := line + end + rest;
    var head := line + end[..|end| - 1];
    assert bytes == head + "\n" + rest;
    LineLengthOf(head, rest, LINE_MAX - 1);
    assert bytes[..|line + end|] == line + end;
    assert bytes[|line + end|..] == rest;
    WholeCStr(line + end);
    StripPlain(line, end);
  }

  lemma {:induction false} WholeCStr(s: string)
    requires NoNul(s)
    ensures CStr(s) == s
  {
    if s != [] {
      WholeCStr(s[1..]);
      assert s == [s[0]] + s[1..];
    }
  }

  lemma {:induction false} StripPlain(line: string, end: string)
    requires PlainLine(line) && IsLineEnd(end)
    ensures StripLineEnd(line + end) == line
  {
    assert line != [] ==> line[|line| - 1] in line;
    assert StripLineEnd(line) == line;
    var once := line + end[..|end| - 1];
    assert (line + end)[..|line + end| - 1] == once;
    if |end| == 1 {
      assert once == line;
    } else {
      assert once == line + "\r" && once[..|once| - 1] == line;
    }
  }

  // ---------------------------------------------------------------- reading a response

  /** GSWHTTPResponse */
  datatype Response = Response(status: nat, message: Option<string>, headers: Table<string>, contentLength: nat, content: seq<char>)

  function WithHeader(r: Response, key: string, value: string): Response {
    r.(headers := Add(r.headers, key, value),
       contentLength := if r.contentLength == 0 && key == CONTENT_LENGTH then Uint32(Atoi(value)) else r.contentLength)
  }

  /** GSWHTTPResponse_AddHeader on a line that has a colon. */
  function AddHeaderLine(r: Response, line: string): Response
    requires ':' in line
  {
    var colon := IndexOf(line, ':').value;
    WithHeader(r, Fold(line[..colon]), SkipSpaces(line[colon + 1..]))
  }

  predicate IsStatsLine(line: string) {
    STATS_HEADERS[0] <= line || STATS_HEADERS[1] <= line
  }

  /** Every header line up to the blank one has a colon. */
  predicate HeadersHaveColons(bytes: seq<char>)
    decreases |bytes|
  {
    var r := ReceiveLine(bytes);
    r.length > 0 ==> (IsStatsLine(r.line) || ':' in r.line) && HeadersHaveColons(r.rest)
  }

  /** The header loop: up to a blank line or the end of the stream. */
  function ReadHeaders(bytes: seq<char>, r: Response): (Response, seq<char>)
    requires HeadersHaveColons(bytes)
    decreases |bytes|
  {
    var next := ReceiveLine(bytes);
    if next.length <= 0 then (r, next.rest)
    else ReadHeaders(next.rest, if IsStatsLine(next.line) then r else AddHeaderLine(r, next.line))
  }

  /** GSWApp_ReceiveBlock: fread takes its size as an unsigned number. */
  function BlockLength(bytes: seq<char>, size: int): (n: nat)
    ensures n <= |bytes|
  {
    if size < 0 || size > |bytes| then |bytes| else size
  }

  const NO_HEADERS: Table<string> := Table([], 16)

  /** GSWHTTPResponse_BuildErrorResponse without application, headers or substitutions; the page text is given. */
  function ErrorResponse(page: string): Response {
    Response(200, Some("OK GSWeb"), ErrorHeaders(|page|), |page|, page)
  }

  function ErrorHeaders(length: nat): Table<string> {
    Add(Add(NO_HEADERS, "content-type", "text/html"), CONTENT_LENGTH, ToDec(length))
  }

  predicate ReadableBytes(bytes: seq<char>) {
    var first := ReceiveLine(bytes);
    StatusLine(first.line).Some? ==> HeadersHaveColons(first.rest)
  }

  /** GSWHTTPResponse_GetResponse */
  function ReadResponse(bytes: seq<char>, errorPage: string): Response
    requires ReadableBytes(bytes)
  {
    var first := ReceiveLine(bytes);
    match StatusLine(first.line)
    case None => ErrorResponse(errorPage)
    case Some((status, message)) =>
      var (r, rest) := ReadHeaders(first.rest, Started(status, message));
      ReadBody(r, rest, errorPage)
  }

  function Started(status: nat, message: Option<string>): Response {
    Response(status, message, NO_HEADERS, 0, [])
  }

  /** The body is read in full or not at all. */
  function ReadBody(r: Response, bytes: seq<char>, errorPage: string): Response {
    if r.contentLength == 0 then r
    else
      var n := BlockLength(bytes, Int32(r.contentLength));
      if n != r.contentLength then ErrorResponse(errorPage) else r.(content := bytes[..n])
  }

  lemma BodyIsWhole(r: Response, bytes: seq<char>, errorPage: string)
    requires r.content == []
    ensures |ReadBody(r, bytes, errorPage).content| == ReadBody(r, bytes, errorPage).contentLength
  {
  }

  /**
   The block read stays inside the buffer allocated for the announced length exactly when that length is
   an int or no more than that arrives.
   */
  lemma BlockFitsIff(bytes: seq<char>, length: UInt)
    ensures BlockLength(bytes, Int32(length)) <= length <==> length <= INT_MAX || |bytes| <= length
  {
  }

  /** Reading is all or nothing: a response never carries less, or more, than it announces. */
  lemma ResponseIsWhole(bytes: seq<char>, errorPage: string)
    requires ReadableBytes(bytes)
    ensures |ReadResponse(bytes, errorPage).content| == ReadResponse(bytes, errorPage).contentLength
  {
    var first := ReceiveLine(bytes);
    match StatusLine(first.line)
    case None =>
    case Some((status, message)) =>
      HeadersLeaveContent(first.rest, Started(status, message));
      var (r, rest) := ReadHeaders(first.rest, Started(status, message));
      BodyIsWhole(r, rest, errorPage);
  }

  lemma {:induction false} HeadersLeaveContent(bytes: seq<char>, r: Response)
    requires HeadersHaveColons(bytes)
    ensures var r' := ReadHeaders(bytes, r).0; r'.content == r.content && r'.status == r.status && r'.message == r.message
    decreases |bytes|
  {
    var next := ReceiveLine(bytes);
    if next.length > 0 {
      HeadersLeaveContent(next.rest, if IsStatsLine(next.line) then r else AddHeaderLine(r, next.line));
    }
  }

  // ---------------------------------------------------------------- printing headers

  /** GSWHTTPResponse_PackageHeaders: the last line end is left off. */
  function PackagedHeaders(entries: seq<(string, string)>): string {
    var text := HeaderLines(entries, "\r\n");
    if |text| > 1 then text[..|text| - 2] else text
  }

  /** What a header must look like to survive printing and reading. */
  predicate PlainHeader(key: string, value: string) {
    && key != "" && Fold(key) == key && ':' !in key && PlainLine(key)
    && PlainLine(value) && (value == "" || !IsSpace(value[0]))
    && |HeaderLine(key, value)| + 2 <= LINE_MAX - 1
  }

  predicate PlainHeaders(entries: seq<(string, string)>) {
    forall i :: 0 <= i < |entries| ==> PlainHeader(entries[i].0, entries[i].1)
  }

  /** Statistics headers are meant for the adaptor and not passed on. */
  function WithoutStats(entries: seq<(string, string)>): seq<(string, string)> {
    if entries == [] then []
    else (if IsStatsLine(HeaderLine(entries[0].0, entries[0].1)) then [] else [entries[0]]) + WithoutStats(entries[1..])
  }

  function LengthGiven(key: string, value: string, length: nat): nat {
    if length == 0 && key == CONTENT_LENGTH then Uint32(Atoi(value)) else length
  }

  /** The first content length given that is not zero. */
  function ContentLengthOf(entries: seq<(string, string)>, length: nat): nat {
    if entries == [] then length
    else ContentLengthOf(entries[1..], LengthGiven(entries[0].0, entries[0].1, length))
  }

  function AddAll(t: Table<string>, entries: seq<(string, string)>): Table<string>
    decreases |entries|
  {
    if entries == [] then t else AddAll(Add(t, entries[0].0, entries[0].1), entries[1..])
  }

  lemma AddAtEnd(t: Table<string>, key: string, value: string)
    requires FindFirstNull(t.slots).None?
    ensures Entries(Add(t, key, value).slots) == Entries(t.slots) + [(key, value)]
    ensures FindFirstNull(Add(t, key, value).slots).None?
  {
    EntriesConcat(t.slots, [Live(key, value)]);
    assert Entries([Live(key, value)]) == [(key, value)];
  }

  /** A dictionary that was only ever added to lists its entries in the order of the additions. */
  lemma {:induction false} AddAllKeepsOrder(t: Table<string>, entries: seq<(string, string)>)
    requires FindFirstNull(t.slots).None?
    ensures Entries(AddAll(t, entries).slots) == Entries(t.slots) + entries
    decreases |entries|
  {
    if entries == [] {
      assert Entries(t.slots) + entries == Entries(t.slots);
    } else {
      AddAtEnd(t, entries[0].0, entries[0].1);
      AddAllKeepsOrder(Add(t, entries[0].0, entries[0].1), entries[1..]);
      assert Entries(t.slots) + entries == Entries(t.slots) + [entries[0]] + entries[1..];
    }
  }

  lemma PrintedHeaderIsPlain(key: string, value: string)
    requires PlainLine(key) && PlainLine(value)
    ensures PlainLine(HeaderLine(key, value))
  {
    PlainConcat(key, ": ");
    PlainConcat(key + ": ", value);
  }

  lemma PrintedHeaderParts(key: string, value: string)
    requires PlainHeader(key, value)
    ensures var line := HeaderLine(key, value);
            && IndexOf(line, ':') == Some(|key|) && ':' in line && PlainLine(line)
            && line[..|key|] == key && SkipSpaces(line[|key| + 1..]) == value
  {
    var line := HeaderLine(key, value);
    SplitAt(key, ':', " " + value);
    assert line == key + [':'] + (" " + value);
    assert line[|key|] == ':';
    SkipOneSpace(value);
    PrintedHeaderIsPlain(key, value);
  }

  lemma {:induction false} SkipOneSpace(value: string)
    requires value == "" || !IsSpace(value[0])
    ensures SkipSpaces(" " + value) == value
  {
    assert (" " + value)[1..] == value;
    assert SkipSpaces(" " + value) == SkipSpaces(value);
  }

  /** Reading one printed header adds that header. */
  lemma ReadPrintedHeader(r: Response, key: string, value: string)
    requires PlainHeader(key, value)
    ensures ':' in HeaderLine(key, value)
    ensures AddHeaderLine(r, HeaderLine(key, value)) ==
            r.(headers := Add(r.headers, key, value), contentLength := LengthGiven(key, value, r.contentLength))
  {
    PrintedHeaderParts(key, value);
  }

  /** One turn of the header loop on a line that arrives whole. */
  lemma {:induction false} ReadOneLine(line: string, end: string, more: seq<char>, r: Response)
    requires PlainLine(line) && IsLineEnd(end) && line != "" && |line| + 2 <= LINE_MAX - 1 && ':' in line && HeadersHaveColons(more)
    ensures HeadersHaveColons(line + end + more)
    ensures ReadHeaders(line + end + more, r) == ReadHeaders(more, if IsStatsLine(line) then r else AddHeaderLine(r, line))
  {
    ReceivePlainLine(line, end, more);
  }

  /** Printing headers and reading them back rebuilds the list in order, with either line end. */
  lemma {:induction false} HeadersRoundTrip(entries: seq<(string, string)>, end: string, r: Response, rest: seq<char>)
    requires PlainHeaders(entries) && IsLineEnd(end)
    ensures HeadersHaveColons(HeaderLines(entries, end) + end + rest)
    ensures ReadHeaders(HeaderLines(entries, end) + end + rest, r) == (AfterHeaders(r, WithoutStats(entries)), rest)
    decreases |entries|
  {
    if entries == [] {
      assert HeaderLines(entries, end) + end + rest == "" + end + rest;
      ReceivePlainLine("", end, rest);
    } else {
      var (key, value) := entries[0];
      assert PlainHeader(key, value);
      var line, more := HeaderLine(key, value), HeaderLines(entries[1..], end) + end + rest;
      PrintedFirst(entries, end, rest);
      PrintedHeaderParts(key, value);
      ReadPrintedHeader(r, key, value);
      var next := if IsStatsLine(line) then r else AddHeaderLine(r, line);
      HeadersRoundTrip(entries[1..], end, next, rest);
      ReadOneLine(line, end, more, r);
      AfterFirstHeader(r, entries);
    }
  }

  lemma {:induction false} PrintedFirst(entries: seq<(string, string)>, end: string, rest: seq<char>)
    requires entries != []
    ensures HeaderLines(entries, end) + end + rest ==
            HeaderLine(entries[0].0, entries[0].1) + end + (HeaderLines(entries[1..], end) + end + rest)
  {
  }

  /** The response after the headers given have been added. */
  function AfterHeaders(r: Response, entries: seq<(string, string)>): Response {
    r.(headers := AddAll(r.headers, entries), contentLength := ContentLengthOf(entries, r.contentLength))
  }

  lemma {:induction false} AfterFirstHeader(r: Response, entries: seq<(string, string)>)
    requires entries != []
    ensures var (key, value) := entries[0];
            AfterHeaders(r, WithoutStats(entries)) ==
            AfterHeaders(if IsStatsLine(HeaderLine(key, value)) then r
                         else r.(headers := Add(r.headers, key, value), contentLength := LengthGiven(key, value, r.contentLength)),
                         WithoutStats(entries[1..]))
  {
    var kept := WithoutStats(entries);
    if !IsStatsLine(HeaderLine(entries[0].0, entries[0].1)) {
      assert kept == [entries[0]] + WithoutStats(entries[1..]) && kept[1..] == WithoutStats(entries[1..]);
    } else {
      assert kept == WithoutStats(entries[1..]);
    }
  }

  // ---------------------------------------------------------------- whole messages

  /** A response as an application sends it. */
  function Message(version: string, status: nat, message: string, entries: seq<(string, string)>, body: seq<char>): seq<char> {
    "HTTP/" + version + " " + (ToDec(status) + " " + message) + "\r\n" + (HeaderLines(entries, "\r\n") + "\r\n" + body)
  }

  predicate PlainMessage(version: string, status: nat, message: string, entries: seq<(string, string)>) {
    && ' ' !in version && PlainLine(version) && PlainLine(message) && status < 0x1_0000_0000
    && |"HTTP/" + version + " " + (ToDec(status) + " " + message)| + 2 <= LINE_MAX - 1
    && PlainHeaders(entries)
  }

  lemma PrintedIsPlain(n: int)
    ensures PlainLine(ToDec(n))
  {
    forall i | 0 <= i < |ToDec(n)| ensures ToDec(n)[i] == '-' || IsDigit(ToDec(n)[i]) {
    }
  }

  lemma PlainConcat(a: string, b: string)
    requires PlainLine(a) && PlainLine(b)
    ensures PlainLine(a + b)
  {
    forall c | c in a + b ensures c in a || c in b {
    }
  }

  lemma {:induction false} FirstLineOfMessage(version: string, status: nat, message: string, entries: seq<(string, string)>, body: seq<char>)
    requires PlainMessage(version, status, message, entries)
    ensures var first := ReceiveLine(Message(version, status, message, entries, body));
            StatusLine(first.line) == Some((status, Some(message))) && first.rest == HeaderLines(entries, "\r\n") + "\r\n" + body
  {
    var line := "HTTP/" + version + " " + (ToDec(status) + " " + message);
    PrintedIsPlain(status);
    PlainConcat(ToDec(status), " ");
    PlainConcat(ToDec(status) + " ", message);
    PlainConcat("HTTP/", version);
    PlainConcat("HTTP/" + version, " ");
    PlainConcat("HTTP/" + version + " ", ToDec(status) + " " + message);
    ReceivePlainLine(line, "\r\n", HeaderLines(entries, "\r\n") + "\r\n" + body);
    StatusLineRoundTrip(version, status, message);
  }

  /**
   A well-formed message whose headers announce its body is read back as it was sent: status, message,
   headers in order (statistics excluded) and body. If less than the announced body arrives, the error
   page is all the client gets.
   */
  lemma {:induction false} MessageRoundTrip(version: string, status: nat, message: string, entries: seq<(string, string)>, body: seq<char>, errorPage: string)
    requires PlainMessage(version, status, message, entries)
    ensures ReadableBytes(Message(version, status, message, entries, body))
    ensures var r, announced := ReadResponse(Message(version, status, message, entries, body), errorPage), ContentLengthOf(WithoutStats(entries), 0);
            && (announced == |body| < 0x8000_0000 ==>
                  && r.status == status && r.message == Some(message) && Entries(r.headers.slots) == WithoutStats(entries)
                  && r.contentLength == |body| && r.content == body)
            && (|body| < announced ==> r == ErrorResponse(errorPage))
  {
    var bytes := Message(version, status, message, entries, body);
    var r := AfterHeaders(Started(status, Some(message)), WithoutStats(entries));
    FirstLineOfMessage(version, status, message, entries, body);
    HeadersRoundTrip(entries, "\r\n", Started(status, Some(message)), body);
    assert ReadResponse(bytes, errorPage) == ReadBody(r, body, errorPage);
    HeadersInOrder(WithoutStats(entries));
    WholeBody(r, body, errorPage);
  }

  lemma {:induction false} HeadersInOrder(entries: seq<(string, string)>)
    ensures Entries(AddAll(NO_HEADERS, entries).slots) == entries
  {
    AddAllKeepsOrder(NO_HEADERS, entries);
    assert Entries(NO_HEADERS.slots) + entries == entries;
  }

  lemma WholeBody(r: Response, body: seq<char>, errorPage: string)
    requires r.content == []
    ensures r.contentLength == |body| < 0x8000_0000 ==> ReadBody(r, body, errorPage) == r.(content := body)
    ensures |body| < r.contentLength ==> ReadBody(r, body, errorPage) == ErrorResponse(errorPage)
  {
    assert body[..|body|] == body;
  }
}
