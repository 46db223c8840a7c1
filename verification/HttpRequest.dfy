/** The request the adaptor sends to an application: its headers, and its bytes in one buffer. */
module HttpRequest {
  import opened Wrappers
  import opened CStrings
  import opened SlotTables
  import opened Buffers
  import opened HeaderPrinter
  import opened HttpHeaders
  import opened HttpText

  datatype Method = NoMethod | Unknown | Get | Post | Head | Put

  // ---------------------------------------------------------------- the bytes

  /** The part of the content that is sent: nothing unless the length is positive as an int. */
  function Body(contentLength: UInt, content: seq<char>): seq<char>
    requires Int32(contentLength) <= |content|
  {
    if Int32(contentLength) > 0 then content[..Int32(contentLength)] else []
  }

  /** Request line, one line per header in slot order, a blank line, the body. */
  function RequestText(request: string, entries: seq<(string, string)>, body: seq<char>): seq<char> {
    request + HeaderLines(entries, "\n") + "\n" + body
  }

  /** The sum of the lengths: request line, headers as reserved, a line end, content. */
  function LengthSum(request: string, entries: seq<(string, string)>, contentLength: UInt): int {
    |request| + (ReservedLength(entries, "\n") + 1) + Int32(contentLength)
  }

  /** What the int iLength holds of it. */
  function ComputedLength(request: string, entries: seq<(string, string)>, contentLength: UInt): CInt {
    ToInt(LengthSum(request, entries, contentLength))
  }

  /** What is asked of malloc, again as an int; there is no buffer of a negative size. */
  function BufferSize(request: string, entries: seq<(string, string)>, contentLength: UInt): CInt {
    ToInt(ComputedLength(request, entries, contentLength) + 1)
  }

  /**
   The content length is not so negative as an int that it uses up the character each header reserves
   too many, and the size of the buffer is still an int.
   */
  predicate WritesFit(request: string, entries: seq<(string, string)>, contentLength: UInt) {
    Int32(contentLength) + |entries| >= 0 && LengthSum(request, entries, contentLength) + 1 <= INT_MAX
  }

  lemma OneMore(x: int)
    ensures ToInt(ToInt(x) + 1) == ToInt(x + 1)
  {
  }

  /** A header line has at least its colon, its blank and its line end. */
  lemma {:induction false} LinesAreLong(entries: seq<(string, string)>)
    ensures |HeaderLines(entries, "\n")| >= 3 * |entries|
  {
    if entries != [] {
      LinesAreLong(entries[1..]);
    }
  }

  /** All writes, the terminator included, stay inside the buffer exactly when both guards hold. */
  lemma WritesFitIff(request: string, entries: seq<(string, string)>, contentLength: UInt, content: seq<char>)
    requires Int32(contentLength) <= |content|
    ensures var text := RequestText(request, entries, Body(contentLength, content));
            |text| + 1 <= BufferSize(request, entries, contentLength) <==> WritesFit(request, entries, contentLength)
  {
    ReservedIsEnough(entries, "\n");
    LinesAreLong(entries);
    OneMore(LengthSum(request, entries, contentLength));
  }

  /** What is sent is shorter than the computed length by one per header. */
  lemma SentLength(request: string, entries: seq<(string, string)>, contentLength: UInt, content: seq<char>)
    requires 0 <= Int32(contentLength) <= |content| && WritesFit(request, entries, contentLength)
    ensures var text := RequestText(request, entries, Body(contentLength, content));
            |text| == ComputedLength(request, entries, contentLength) - |entries|
  {
    ReservedIsEnough(entries, "\n");
  }

  /**
   The bytes determine the request: taken apart line by line they give back the request line, the
   headers in order and the body.
   */
  lemma {:induction false} RequestReadsBack(line: string, entries: seq<(string, string)>, body: seq<char>, r: Response)
    requires PlainLine(line) && |line| + 2 <= LINE_MAX - 1 && PlainHeaders(entries)
    ensures var received := ReceiveLine(RequestText(line + "\n", entries, body));
            && received.line == line && HeadersHaveColons(received.rest)
            && ReadHeaders(received.rest, r) == (AfterHeaders(r, WithoutStats(entries)), body)
  {
    var rest := HeaderLines(entries, "\n") + "\n" + body;
    assert RequestText(line + "\n", entries, body) == line + "\n" + rest;
    ReceivePlainLine(line, "\n", rest);
    HeadersRoundTrip(entries, "\n", r, body);
  }

  /** The content that goes out is the content given, as far as its length says, behind request line and headers. */
  lemma {:induction false} ContentReadsBack(line: string, entries: seq<(string, string)>, contentLength: UInt, content: seq<char>, r: Response)
    requires PlainLine(line) && |line| + 2 <= LINE_MAX - 1 && PlainHeaders(entries) && Int32(contentLength) <= |content|
    ensures var received := ReceiveLine(RequestText(line + "\n", entries, Body(contentLength, content)));
            && received.line == line && HeadersHaveColons(received.rest)
            && ReadHeaders(received.rest, r) ==
                 (AfterHeaders(r, WithoutStats(entries)), if contentLength <= 0x7FFF_FFFF then content[..contentLength] else [])
  {
    RequestReadsBack(line, entries, Body(contentLength, content), r);
  }

  // ---------------------------------------------------------------- the request

  /** The header's name in the application's terms. */
  function HeaderKey(key: string): string {
    NamesAreDistinct();
    Scan(PLAIN_TABLE, key).GetOr(key)
  }

  lemma {:induction false} TranslatedKey(key: string, translated: Option<string>)
    requires AllItems(PLAIN_TABLE) && translated == Scan(PLAIN_TABLE, key)
    ensures translated.GetOr(key) == HeaderKey(key)
  {
  }

  /** The second name of the item whose first name the key is, or the key itself. */
  lemma HeaderKeyIs(key: string)
    ensures AllItems(PLAIN_TABLE)
    ensures forall i :: 0 <= i < |PLAIN_TABLE| && PLAIN_TABLE[i].http == key ==> HeaderKey(key) == PLAIN_TABLE[i].gsweb
    ensures (forall i :: 0 <= i < |PLAIN_TABLE| ==> PLAIN_TABLE[i].http != key) ==> HeaderKey(key) == key
  {
    NamesAreDistinct();
    forall i | 0 <= i < |PLAIN_TABLE| && PLAIN_TABLE[i].http == key ensures HeaderKey(key) == PLAIN_TABLE[i].gsweb {
      ScanFinds(PLAIN_TABLE, i);
    }
  }

  /** The header that gives the content length, in whatever case it is spelled. */
  lemma LengthHeaderIff(key: string)
    ensures SameKey(HeaderKey(key), CONTENT_LENGTH) <==> SpelledAlike(HeaderKey(key), "content-length")
  {
    SameKeyIff(HeaderKey(key), "content-length");
  }

  /** The key a header is stored under. */
  method Translated(translation: TranslationTable, key: string) returns (headerKey: string)
    requires translation.Valid()
    modifies translation, translation.items
    ensures translation.Valid() && headerKey == HeaderKey(key)
  {
    var customKey := translation.Translate(key);
    TranslatedKey(key, customKey);
    headerKey := customKey.GetOr(key);
  }

  class HttpRequest {
    var kind: Method
    var request: string
    var headers: Option<Table<string>>
    var contentLength: UInt
    var content: seq<char>

    constructor (kind: Method, request: string)
      ensures this.kind == kind && this.request == request && headers == None && contentLength == 0 && content == []
    {
      this.kind, this.request, headers, contentLength, content := kind, request, None, 0, [];
    }

    function Slots(): seq<Slot<string>>
      reads this
    {
      if headers.Some? then headers.value.slots else []
    }

    /** GSWHTTPRequest_AddHeader */
    method AddHeader(translation: TranslationTable, key: string, value: string)
      requires translation.Valid()
      modifies this`headers, this`contentLength, translation, translation.items
      ensures translation.Valid()
      ensures headers == Some(Add(old(headers).GetOr(Table([], 64)), HeaderKey(key), value))
      ensures contentLength == if kind == Post && old(contentLength) == 0 && SameKey(HeaderKey(key), CONTENT_LENGTH)
                               then Uint32(Atoi(value)) else old(contentLength)
    {
      var headerKey := Translated(translation, key);
      Store(headerKey, value);
    }

    method Store(key: string, value: string)
      modifies this`headers, this`contentLength
      ensures headers == Some(Add(old(headers).GetOr(Table([], 64)), key, value))
      ensures contentLength == if kind == Post && old(contentLength) == 0 && SameKey(key, CONTENT_LENGTH)
                               then Uint32(Atoi(value)) else old(contentLength)
    {
      var table := headers.GetOr(Table([], 64));
      if kind == Post && contentLength == 0 && SameKey(key, CONTENT_LENGTH) {
        contentLength := Uint32(Atoi(value));
      }
      headers := Some(Add(table, key, value));
    }

    /**
     GSWHTTPRequest_SendRequest, up to the block it hands to the socket. Nothing is sent when one of the
     writes would leave the buffer; the code has no such check and writes on.
     */
    method SendRequest() returns (sent: Option<seq<char>>)
      requires CStringsOnly(Slots()) && NoNul(request)
      requires Int32(contentLength) <= |content|
      ensures sent == if WritesFit(request, Entries(Slots()), contentLength)
                      then Some(RequestText(request, Entries(Slots()), Body(contentLength, content)))
                      else None
      ensures sent.Some? && Int32(contentLength) > 0 ==>
                && |sent.value| >= Int32(contentLength)
                && forall k :: 0 <= k < Int32(contentLength) ==> sent.value[|sent.value| - Int32(contentLength) + k] == content[k]
      ensures sent.Some? && Int32(contentLength) <= 0 ==> sent.value == request + HeaderLines(Entries(Slots()), "\n") + "\n"
    {
      var body := Body(contentLength, content);
      var reserved := AddLengths(Slots(), "\n");
      var length: int := ToInt(|request| + (reserved + 1) + Int32(contentLength));
      var size := ToInt(length + 1);
      WritesFitIff(request, Entries(Slots()), contentLength, content);
      if |RequestText(request, Entries(Slots()), body)| >= size {
        return None;
      }
      var buffer := new char[size];
      var at := WriteRequest(buffer, request, Slots(), body);
      sent := Some(buffer[..at]);
    }
  }

  /** The writes, one behind the other, and the terminator. */
  method WriteRequest(buffer: array<char>, request: string, slots: seq<Slot<string>>, body: seq<char>) returns (at: nat)
    requires CStringsOnly(slots)
    requires |RequestText(request, Entries(slots), body)| < buffer.Length
    modifies buffer
    ensures at == |RequestText(request, Entries(slots), body)|
    ensures buffer[..at] == RequestText(request, Entries(slots), body)
  {
    ghost var lines := HeaderLines(Entries(slots), "\n");
    at := Append(buffer, 0, request);
    assert buffer[..at] == request;
    at := AppendHeaders(buffer, at, slots);
    at := Append(buffer, at, "\n");
    assert buffer[..at] == request + lines + "\n";
    if |body| > 0 {
      at := Append(buffer, at, body);
    }
    buffer[at] := NUL;
  }

  /** strncpy and memcpy of a whole text behind what is already written. */
  method Append(buffer: array<char>, at: nat, text: seq<char>) returns (next: nat)
    requires at + |text| <= buffer.Length
    modifies buffer
    ensures next == at + |text|
    ensures buffer[..next] == old(buffer[..at]) + text
  {
    forall i | 0 <= i < |text| {
      buffer[at + i] := text[i];
    }
    next := at + |text|;
    assert buffer[..at] == old(buffer[..at]) && buffer[at..next] == text;
    assert buffer[..next] == buffer[..at] + buffer[at..next];
  }

  method AppendHeaders(buffer: array<char>, at: nat, slots: seq<Slot<string>>) returns (next: nat)
    requires CStringsOnly(slots)
    requires at + |HeaderLines(Entries(slots), "\n")| <= buffer.Length
    modifies buffer
    ensures next == at + |HeaderLines(Entries(slots), "\n")|
    ensures buffer[..next] == old(buffer[..at]) + HeaderLines(Entries(slots), "\n")
  {
    next := WriteHeaders(slots, "\n", buffer, at);
    assert buffer[..at] == old(buffer[..at]);
    assert buffer[..next] == buffer[..at] + buffer[at..next];
  }
}
