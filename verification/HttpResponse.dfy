/** Reading a response from the application's socket and printing its headers, in place on char buffers. */
module HttpResponse {
  import opened Wrappers
  import opened CStrings
  import opened SlotTables
  import opened Buffers
  import opened HeaderPrinter
  import opened HttpText

  /** The read side of a connection: the bytes not yet taken from it. */
  class Socket {
    var pending: seq<char>

    constructor (bytes: seq<char>)
      ensures pending == bytes
    {
      pending := bytes;
    }

    /** GSWApp_ReceiveLine: fgets, then the line end is cut off in the buffer. */
    method ReceiveLine(buffer: array<char>) returns (length: int)
      requires buffer.Length == LINE_MAX
      modifies this, buffer
      ensures var r := HttpText.ReceiveLine(old(pending));
              length == r.length && pending == r.rest && TextAt(buffer, 0, r.line)
    {
      if |pending| == 0 {
        buffer[0] := NUL;
        return -1;
      }
      var n := Fill(buffer);
      ghost var line := CStr(pending[..n]);
      assert NoNul(line) && line <= pending[..n];
      assert TextAt(buffer, 0, line);
      length := CutLineEnd(buffer, line);
      pending := pending[n..];
    }

    /** fgets: up to a newline, the end of the stream or the end of the buffer. */
    method Fill(buffer: array<char>) returns (n: nat)
      requires buffer.Length == LINE_MAX && |pending| > 0
      modifies buffer
      ensures n == LineLength(pending, LINE_MAX - 1) <= |pending|
      ensures n < buffer.Length && buffer[n] == NUL && forall i :: 0 <= i < n ==> buffer[i] == pending[i]
    {
      n := 0;
      var done := false;
      while !done && n < LINE_MAX - 1 && n < |pending|
        invariant n <= LINE_MAX - 1 && n <= |pending|
        invariant LineLength(pending, LINE_MAX - 1) == n + (if done then 0 else LineLength(pending[n..], LINE_MAX - 1 - n))
        invariant forall i :: 0 <= i < n ==> buffer[i] == pending[i]
        decreases LINE_MAX - n, !done
      {
        buffer[n] := pending[n];
        done := pending[n] == '\n';
        assert pending[n..][1..] == pending[n + 1..];
        n := n + 1;
      }
      buffer[n] := NUL;
    }
  }

  /** DeleteTrailingCRNL */
  method CutLineEnd(buffer: array<char>, ghost text: string) returns (length: nat)
    requires TextAt(buffer, 0, text)
    modifies buffer
    ensures TextAt(buffer, 0, StripLineEnd(text)) && length == |StripLineEnd(text)|
  {
    length := StrLen(buffer, 0, text);
    ghost var rest := text;
    while length > 0 && (buffer[length - 1] == '\r' || buffer[length - 1] == '\n')
      invariant TextAt(buffer, 0, rest) && length == |rest| && StripLineEnd(rest) == StripLineEnd(text)
      decreases length
    {
      length := length - 1;
      buffer[length] := NUL;
      rest := rest[..length];
    }
  }

  /** GSWHTTPResponse, filled in while it is read. */
  class HttpResponse {
    var status: nat
    var message: Option<string>
    var headers: Table<string>
    var contentLength: nat
    var content: seq<char>

    ghost function State(): Response
      reads this
    {
      Response(status, message, headers, contentLength, content)
    }

    constructor (r: Response)
      ensures State() == r
    {
      status, message, headers, contentLength, content := r.status, r.message, r.headers, r.contentLength, r.content;
    }

    /** GSWHTTPResponse_AddHeader */
    method AddHeader(buffer: array<char>, ghost line: string)
      requires TextAt(buffer, 0, line) && ':' in line
      modifies this, buffer
      ensures State() == AddHeaderLine(old(State()), line)
    {
      var key, v := SplitName(buffer, line);
      var value := SkipBlanks(buffer, v, line[v..]);
      Store(key, value);
    }

    method Store(key: string, value: string)
      modifies this
      ensures State() == WithHeader(old(State()), key, value)
    {
      headers := Add(headers, key, value);
      if contentLength == 0 && key == CONTENT_LENGTH {
        contentLength := Uint32(Atoi(value));
      }
    }

    /** One turn of the header loop: statistics lines are passed over. */
    method TakeLine(buffer: array<char>, ghost line: string)
      requires TextAt(buffer, 0, line) && (IsStatsLine(line) || ':' in line)
      modifies this, buffer
      ensures State() == if IsStatsLine(line) then old(State()) else AddHeaderLine(old(State()), line)
    {
      var text := StrDup(buffer, 0, line);
      if !(STATS_HEADERS[0] <= text) && !(STATS_HEADERS[1] <= text) {
        AddHeader(buffer, line);
      }
    }
  }

  /** Lower-cases the name in the buffer and cuts it off at the colon. */
  method SplitName(buffer: array<char>, ghost line: string) returns (key: string, v: nat)
    requires TextAt(buffer, 0, line) && ':' in line
    modifies buffer
    ensures v == IndexOf(line, ':').value + 1
    ensures key == Fold(line[..v - 1])
    ensures TextAt(buffer, v, line[v..])
  {
    ghost var colon := IndexOf(line, ':').value;
    v := 0;
    while buffer[v] != ':'
      invariant v <= colon
      invariant forall i :: 0 <= i < v ==> buffer[i] == FoldChar(line[i])
      invariant forall i :: v <= i < buffer.Length ==> buffer[i] == old(buffer[i])
      decreases colon - v
    {
      var c := buffer[v];
      if 'A' <= c <= 'Z' {
        buffer[v] := FoldChar(c);
      }
      v := v + 1;
    }
    buffer[v] := NUL;
    ghost var name := Fold(line[..colon]);
    assert TextAt(buffer, 0, name);
    key := StrDup(buffer, 0, name);
    v := v + 1;
  }

  lemma {:induction false} RestOfText(buffer: array<char>, at: nat, text: string)
    requires TextAt(buffer, at, text) && buffer[at] != NUL && IsSpace(buffer[at])
    ensures text != [] && text[0] == buffer[at] && TextAt(buffer, at + 1, text[1..]) && SkipSpaces(text) == SkipSpaces(text[1..])
  {
  }

  /** Skips the blanks before the value. */
  method SkipBlanks(buffer: array<char>, start: nat, ghost text: string) returns (value: string)
    requires TextAt(buffer, start, text)
    ensures value == SkipSpaces(text)
  {
    var v: nat := start;
    ghost var rest := text;
    while buffer[v] != NUL && IsSpace(buffer[v])
      invariant v + |rest| == start + |text|
      invariant TextAt(buffer, v, rest) && SkipSpaces(rest) == SkipSpaces(text)
      decreases |rest|
    {
      RestOfText(buffer, v, rest);
      rest := rest[1..];
      v := v + 1;
    }
    value := StrDup(buffer, v, rest);
  }

  // ---------------------------------------------------------------- the whole response

  /** GSWHTTPResponse_GetResponse */
  method GetResponse(socket: Socket, errorPage: string) returns (r: HttpResponse)
    requires ReadableBytes(socket.pending)
    modifies socket
    ensures fresh(r) && r.State() == ReadResponse(old(socket.pending), errorPage)
  {
    var buffer := new char[LINE_MAX];
    ghost var bytes := socket.pending;
    var length := socket.ReceiveLine(buffer);
    var first := StrDup(buffer, 0, HttpText.ReceiveLine(bytes).line);
    var started := StatusLine(first);
    if started.None? {
      r := new HttpResponse(ErrorResponse(errorPage));
    } else {
      r := new HttpResponse(Started(started.value.0, started.value.1));
      ReadHeaderLines(socket, r, buffer);
      r := Finish(socket, r, errorPage);
    }
  }

  /** The body: all of it, or the error page instead. */
  method Finish(socket: Socket, r: HttpResponse, errorPage: string) returns (result: HttpResponse)
    modifies socket, r
    ensures result == r || fresh(result)
    ensures result.State() == ReadBody(old(r.State()), old(socket.pending), errorPage)
  {
    result := r;
    if r.contentLength != 0 {
      var n := BlockLength(socket.pending, Int32(r.contentLength));
      var received := socket.pending[..n];
      socket.pending := socket.pending[n..];
      if n != r.contentLength {
        result := new HttpResponse(ErrorResponse(errorPage));
      } else {
        r.content := received;
      }
    }
  }

  lemma HeaderTurn(bytes: seq<char>, r: Response)
    requires HeadersHaveColons(bytes)
    ensures var next := HttpText.ReceiveLine(bytes);
            if next.length <= 0 then ReadHeaders(bytes, r) == (r, next.rest)
            else HeadersHaveColons(next.rest) && (!IsStatsLine(next.line) ==> ':' in next.line)
                 && ReadHeaders(bytes, r) == ReadHeaders(next.rest, if IsStatsLine(next.line) then r else AddHeaderLine(r, next.line))
  {
  }

  /** The header loop of GSWHTTPResponse_GetResponse. */
  method ReadHeaderLines(socket: Socket, r: HttpResponse, buffer: array<char>)
    requires HeadersHaveColons(socket.pending) && buffer.Length == LINE_MAX
    modifies socket, r, buffer
    ensures (r.State(), socket.pending) == ReadHeaders(old(socket.pending), old(r.State()))
  {
    ghost var at, result := socket.pending, ReadHeaders(socket.pending, r.State());
    HeaderTurn(at, r.State());
    var length := socket.ReceiveLine(buffer);
    ghost var next := HttpText.ReceiveLine(at);
    while length > 0 && buffer[0] != NUL
      invariant length == next.length && socket.pending == next.rest && TextAt(buffer, 0, next.line)
      invariant length > 0 <==> next.line != []
      invariant if next.length <= 0 then (r.State(), next.rest) == result
                else HeadersHaveColons(next.rest) && (!IsStatsLine(next.line) ==> ':' in next.line)
                     && result == ReadHeaders(next.rest, if IsStatsLine(next.line) then r.State() else AddHeaderLine(r.State(), next.line))
      decreases |socket.pending| + (if length > 0 then 1 else 0)
    {
      r.TakeLine(buffer, next.line);
      at := socket.pending;
      HeaderTurn(at, r.State());
      length := socket.ReceiveLine(buffer);
      next := HttpText.ReceiveLine(at);
    }
  }

  // ---------------------------------------------------------------- printing

  /** GSWHTTPResponse_PackageHeaders into a buffer that is large enough for the length pass. */
  method PackageHeaders(headers: Table<string>, buffer: array<char>)
    requires CStringsOnly(headers.slots) && ReservedLength(Entries(headers.slots), "\r\n") < buffer.Length
    modifies buffer
    ensures TextAt(buffer, 0, PackagedHeaders(Entries(headers.slots)))
  {
    ghost var text := HeaderLines(Entries(headers.slots), "\r\n");
    ReservedIsEnough(Entries(headers.slots), "\r\n");
    LinesAreNulFree(headers.slots, "\r\n");
    var at := WriteHeaders(headers.slots, "\r\n", buffer, 0);
    assert forall k :: 0 <= k < at ==> buffer[k] == buffer[0..at][k];
    buffer[at] := NUL;
    if at > 1 {
      buffer[at - 1] := NUL;
      buffer[at - 2] := NUL;
    }
  }
}
