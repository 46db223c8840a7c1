/** What the client gets for each kind of byte stream, field by field. */
module ResponseLaws {
  import opened Wrappers
  import opened CStrings
  import opened SlotTables
  import opened HeaderPrinter
  import opened HttpText

  // ---------------------------------------------------------------- one header line

  /**
   A header line adds its value, blanks before it skipped, under its name in small letters. The first
   content length that is not zero is the one that counts, however its name is spelled.
   */
  lemma HeaderUnderSmallName(r: Response, name: string, small: string, blanks: string, value: string)
    requires ':' !in name && SpelledAlike(name, small) && forall i :: 0 <= i < |small| ==> !('A' <= small[i] <= 'Z')
    requires forall i :: 0 <= i < |blanks| ==> blanks[i] == ' ' || '\t' <= blanks[i] <= '\r'
    requires value == "" || !IsSpace(value[0])
    ensures var line := name + [':'] + (blanks + value);
            && ':' in line
            && AddHeaderLine(r, line).headers == Add(r.headers, small, value)
            && AddHeaderLine(r, line).contentLength ==
                 (if r.contentLength == 0 && small == "content-length" then Uint32(Atoi(value)) else r.contentLength)
            && AddHeaderLine(r, line).status == r.status && AddHeaderLine(r, line).message == r.message
            && AddHeaderLine(r, line).content == r.content
  {
    var line := name + [':'] + (blanks + value);
    assert line[|name|] == ':';
    SplitAt(name, ':', blanks + value);
    FoldedIff(name, small);
    BlanksSkipped(blanks, value);
  }

  /** Lines with statistics for the adaptor are passed over. */
  lemma {:induction false} StatisticsPassedOver(prefix: string, value: string, end: string, more: seq<char>, r: Response)
    requires prefix == "x-gsweb-adaptorstats: " || prefix == "x-webobjects-adaptorstats: "
    requires PlainLine(value) && IsLineEnd(end) && |prefix + value| + 2 < 8192 && HeadersHaveColons(more)
    ensures HeadersHaveColons(prefix + value + end + more)
    ensures ReadHeaders(prefix + value + end + more, r) == ReadHeaders(more, r)
  {
    PrefixIsStatistics(prefix, value);
    ReadOneLine(prefix + value, end, more, r);
  }

  lemma PrefixIsPlain(prefix: string)
    requires prefix == "x-gsweb-adaptorstats: " || prefix == "x-webobjects-adaptorstats: "
    ensures PlainLine(prefix) && prefix[|prefix| - 2] == ':'
  {
  }

  lemma PrefixIsStatistics(prefix: string, value: string)
    requires prefix == "x-gsweb-adaptorstats: " || prefix == "x-webobjects-adaptorstats: "
    requires PlainLine(value)
    ensures PlainLine(prefix + value) && ':' in prefix + value && IsStatsLine(prefix + value)
  {
    PrefixIsPlain(prefix);
    PlainConcat(prefix, value);
    var colon := |prefix| - 2;
    assert (prefix + value)[colon] == prefix[colon];
    assert prefix <= prefix + value;
    assert STATS_HEADERS[0] == "x-gsweb-adaptorstats: " && STATS_HEADERS[1] == "x-webobjects-adaptorstats: ";
  }

  // ---------------------------------------------------------------- the error page

  /** The page the adaptor answers with when it cannot use what it has received. */
  ghost predicate IsErrorPage(r: Response, page: string) {
    && r.status == 200 && r.message == Some("OK GSWeb") && r.content == page && r.contentLength == |page|
    && Entries(r.headers.slots) == [("content-type", "text/html"), ("content-length", ToDec(|page|))]
  }

  lemma ErrorResponseIsErrorPage(page: string)
    ensures IsErrorPage(ErrorResponse(page), page)
  {
    var entries := [("content-type", "text/html"), ("content-length", ToDec(|page|))];
    var first := Add(NO_HEADERS, "content-type", "text/html");
    AddAtEnd(NO_HEADERS, "content-type", "text/html");
    AddAtEnd(first, "content-length", ToDec(|page|));
    assert Entries(NO_HEADERS.slots) + [entries[0]] + [entries[1]] == entries;
  }

  /** Another protocol, no blank, or something else than digits where the status should be. */
  ghost predicate NoStatusLine(line: string) {
    || |line| < 5 || line[..5] != "HTTP/"
    || ' ' !in line
    || exists b, i :: 0 <= b < i < |line| && BadStatusAt(line, b, i)
  }

  /** The first blank is at b, and behind it only digits come before i, where there is neither a digit nor a blank. */
  ghost predicate BadStatusAt(line: string, b: int, i: int)
    requires 0 <= b < i < |line|
  {
    && line[b] == ' ' && (forall k :: 0 <= k < b ==> line[k] != ' ')
    && (forall k :: b < k < i ==> '0' <= line[k] <= '9')
    && !('0' <= line[i] <= '9') && line[i] != ' ' && !('\t' <= line[i] <= '\r')
  }

  lemma BadTokenIff(line: string, b: nat)
    requires b < |line| && line[b] == ' ' && forall k :: 0 <= k < b ==> line[k] != ' '
    ensures DigitToken(line[b + 1..]).None? <==> exists i :: b < i < |line| && BadStatusAt(line, b, i)
  {
    var text := line[b + 1..];
    if DigitToken(text).None? {
      var i :| 0 <= i < |text| && !IsDigit(text[i]) && !IsSpace(text[i]) && forall j :: 0 <= j < i ==> IsDigit(text[j]);
      forall k | b < k < b + 1 + i ensures '0' <= line[k] <= '9' {
        assert line[k] == text[k - b - 1];
      }
      assert BadStatusAt(line, b, b + 1 + i);
    } else {
      GoodToken(line, b);
    }
  }

  lemma GoodToken(line: string, b: nat)
    requires b < |line| && DigitToken(line[b + 1..]).Some?
    ensures forall i :: b < i < |line| ==> !BadStatusAt(line, b, i)
  {
    var n := DigitToken(line[b + 1..]).value;
    forall i | b < i < |line| ensures !BadStatusAt(line, b, i) {
      assert line[b + 1..][i - b - 1] == line[i];
      if i - b - 1 < n {
        assert IsDigit(line[i]);
      } else {
        assert IsSpace(line[b + 1 + n]);
      }
    }
  }

  /** Exactly these first lines are refused. */
  lemma StatusLineIff(line: string)
    ensures StatusLine(line).None? <==> NoStatusLine(line)
  {
    ProtocolIff(line);
    if "HTTP/" <= line && ' ' in line {
      var b := IndexOf(line, ' ').value;
      BadTokenIff(line, b);
      BadStatusIsBehind(line, b);
    }
  }

  lemma ProtocolIff(line: string)
    ensures "HTTP/" <= line <==> |line| >= 5 && line[..5] == "HTTP/"
  {
  }

  lemma BadStatusIsBehind(line: string, b: nat)
    requires b < |line| && line[b] == ' ' && forall k :: 0 <= k < b ==> line[k] != ' '
    ensures (exists c, i :: 0 <= c < i < |line| && BadStatusAt(line, c, i)) <==> exists i :: b < i < |line| && BadStatusAt(line, b, i)
  {
    forall c, i | 0 <= c < i < |line| && BadStatusAt(line, c, i) ensures c == b {
    }
  }

  /** A status alone is valid, and has no message. */
  lemma BareStatus(version: string, status: nat)
    requires ' ' !in version && status < 0x1_0000_0000
    ensures StatusLine("HTTP/" + version + " " + ToDec(status)) == Some((status, None))
  {
    var digits := ToDec(status);
    StatusLineOf(version, digits);
    TokenOfDigits(digits, "");
    UnsignedOfPrinted(status, "");
    assert digits + "" == digits && digits[|digits|..] == "";
  }

  /** For an invalid first line the client gets the page. */
  lemma InvalidFirstLineGetsPage(bytes: seq<char>, page: string)
    requires NoStatusLine(ReceiveLine(bytes).line)
    ensures ReadableBytes(bytes) && IsErrorPage(ReadResponse(bytes, page), page)
  {
    StatusLineIff(ReceiveLine(bytes).line);
    ErrorResponseIsErrorPage(page);
  }

  /** So it does when the application closes the connection without a byte. */
  lemma NothingReceivedGetsPage(page: string)
    ensures IsErrorPage(ReadResponse([], page), page)
  {
    InvalidFirstLineGetsPage([], page);
  }

  /**
   For a valid first line what has been read of the headers is what the client gets: with no body when
   none is announced, with the whole body when it arrives, and with the page instead of it all when less does.
   */
  lemma {:induction false} BodyOrPage(bytes: seq<char>, status: nat, message: Option<string>, page: string)
    requires ReadableBytes(bytes) && StatusLine(ReceiveLine(bytes).line) == Some((status, message))
    ensures var (r, rest) := ReadHeaders(ReceiveLine(bytes).rest, Response(status, message, Table([], 16), 0, []));
            var result := ReadResponse(bytes, page);
            && r.status == status && r.message == message && r.content == []
            && (r.contentLength == 0 ==> result == r)
            && (0 < r.contentLength <= |rest| && r.contentLength <= 0x7FFF_FFFF ==> result == r.(content := rest[..r.contentLength]))
            && (r.contentLength > |rest| ==> IsErrorPage(result, page))
  {
    var started := Response(status, message, Table([], 16), 0, []);
    HeadersLeaveContent(ReceiveLine(bytes).rest, started);
    var (r, rest) := ReadHeaders(ReceiveLine(bytes).rest, started);
    WholeBodyOrPage(r, rest, page);
    assert ReadResponse(bytes, page) == ReadBody(r, rest, page);
  }

  lemma WholeBodyOrPage(r: Response, rest: seq<char>, page: string)
    ensures var result := ReadBody(r, rest, page);
            && (r.contentLength == 0 ==> result == r)
            && (0 < r.contentLength <= |rest| && r.contentLength <= 0x7FFF_FFFF ==> result == r.(content := rest[..r.contentLength]))
            && (r.contentLength > |rest| ==> IsErrorPage(result, page))
  {
    ErrorResponseIsErrorPage(page);
  }

  // ---------------------------------------------------------------- printed headers

  /** Packaging leaves off the last line end and nothing else, so with it and a blank line the headers read back in order. */
  lemma {:induction false} PackagedReadsBack(entries: seq<(string, string)>, r: Response, rest: seq<char>)
    requires PlainHeaders(entries)
    ensures entries == [] ==> PackagedHeaders(entries) == ""
    ensures entries != [] ==>
              var bytes := PackagedHeaders(entries) + "\r\n" + "\r\n" + rest;
              HeadersHaveColons(bytes) && ReadHeaders(bytes, r) == (AfterHeaders(r, WithoutStats(entries)), rest)
  {
    if entries != [] {
      EndsInLineEnd(entries, "\r\n");
      HeadersRoundTrip(entries, "\r\n", r, rest);
    }
  }

  lemma {:induction false} EndsInLineEnd(entries: seq<(string, string)>, end: string)
    requires entries != []
    ensures var text := HeaderLines(entries, end); |text| >= |end| + 2 && text == text[..|text| - |end|] + end
  {
    if |entries| > 1 {
      EndsInLineEnd(entries[1..], end);
    }
  }
}
