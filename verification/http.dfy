/** Answers (`src/http.c`): deciding what to answer to a parsed request, and writing the header
    of the answer into a buffer. */
module Http {
  import opened Toolbox
  import opened Disk
  import opened CacheSpec
  import opened Lookup
  import opened FileCaching
  import opened Cache
  import opened HttpTypes
  import opened RequestParsing

  const MAX_DATE_LENGTH := 255
  const HTTP_SERVER_VERSION := "HTTP/1.1"
  const SERVER_NAME := "MyAwesomeWebServer"

  function CodeValue(code: HttpCode): int {
    match code
    case Http200 => 200
    case Http400 => 400
    case Http401 => 401
    case Http404 => 404
    case Http405 => 405
    case Http411 => 411
    case Http414 => 414
    case Http500 => 500
    case Http501 => 501
    case Http503 => 503
    case Http505 => 505
    case NoCode => -1
  }

  function CodeDescription(code: HttpCode): string {
    match code
    case Http200 => "OK"
    case Http400 => "Bad request"
    case Http401 => "Unauthorized"
    case Http404 => "Not found"
    case Http405 => "Method not allowed"
    case Http411 => "Length required"
    case Http414 => "Too-long URI"
    case Http500 => "Internal server error"
    case Http501 => "Not implemented"
    case Http503 => "Service unavailable"
    case Http505 => "HTTP version not supported"
    case NoCode => "No HTTP code"
  }

  // ---------------------------------------------------------------------------
  // Preparing answers
  // ---------------------------------------------------------------------------

  /** An answer without body. */
  function ErrorHeader(code: HttpCode, date: string): HttpHeader {
    AnswerHeader(Http11, code).(server := Some(SERVER_NAME), date := Some(date))
  }

  function FileHeader(f: FileVal, date: string): HttpHeader {
    ErrorHeader(Http200, date).(
      contentLength := f.size,
      contentType := f.mime,
      contentEncoding := Some(if f.encoding == Gzip then "gzip" else "identity"))
  }

  /** The body of the answer giving a file: from memory if it is loaded, from the disk otherwise,
      and nothing unless the method is GET. */
  function FileContent(httpMethod: HttpMethod, f: FileVal): HttpContent {
    if httpMethod != Get then EMPTY_CONTENT
    else if f.state == NotLoaded then
      EMPTY_CONTENT.(length := f.size, filePath := Some(f.path), contentIsLoaded := false)
    else EMPTY_CONTENT.(length := f.size, body := f.content, contentIsLoaded := true)
  }

  method GetHttpServerDate() returns (date: string)
    ensures |date| <= MAX_DATE_LENGTH
  {
    date :| |date| <= MAX_DATE_LENGTH;
  }

  method PrepareGeneralHttpAnswer(answer: HttpMessage, code: HttpCode)
    modifies answer
    ensures answer.header.date.Some? && |answer.header.date.value| <= MAX_DATE_LENGTH
    ensures answer.header == ErrorHeader(code, answer.header.date.value)
    ensures answer.content == EMPTY_CONTENT
  {
    answer.InitAnswer(Http11, code);
    answer.header := answer.header.(server := Some(SERVER_NAME));
    var date := GetHttpServerDate();
    answer.header := answer.header.(date := Some(date));
  }

  method PrepareHttpError(answer: HttpMessage, code: HttpCode)
    modifies answer
    ensures answer.header.date.Some? && |answer.header.date.value| <= MAX_DATE_LENGTH
    ensures answer.header == ErrorHeader(code, answer.header.date.value)
    ensures answer.content == EMPTY_CONTENT
  {
    PrepareGeneralHttpAnswer(answer, code);
    answer.header := answer.header.(contentLength := 0);
  }

  method PrepareHttpValidAnswer(request: HttpMessage, answer: HttpMessage, file: File)
    requires request != answer
    modifies answer
    ensures answer.header.date.Some? && |answer.header.date.value| <= MAX_DATE_LENGTH
    ensures answer.header == FileHeader(file.View(), answer.header.date.value)
    ensures answer.content == FileContent(request.header.httpMethod, file.View())
  {
    PrepareGeneralHttpAnswer(answer, Http200);
    answer.header := answer.header.(
      contentLength := file.size,
      contentType := file.mimeType,
      contentEncoding := Some(if file.encoding == Gzip then "gzip" else "identity"));
    if request.header.httpMethod == Get {
      if file.state == NotLoaded {
        answer.content := answer.content.(length := file.size, filePath := Some(file.path), contentIsLoaded := false);
      } else {
        answer.content := answer.content.(length := file.size, body := file.content, contentIsLoaded := true);
      }
    }
  }

  // ---------------------------------------------------------------------------
  // Answering
  // ---------------------------------------------------------------------------

  /** A request whose target, if it is to be looked up, exists and is not too long. */
  predicate Answerable(request: HttpHeader) {
    request.code == Http200 ==> request.requestTarget.Some? && |request.requestTarget.value| <= MAX_PATH_LENGTH
  }

  /** The file served to a request, if any. */
  function FileFor(request: HttpHeader, v: FolderVal): Option<FileVal>
    requires Answerable(request)
  {
    if && request.code == Http200 && request.version == Http11
       && (request.httpMethod == Get || request.httpMethod == Head) && request.requestType == OriginForm
    then Walk(v, Components(request.requestTarget.value))
    else None
  }

  /** The code of the answer to a request. */
  function AnswerCode(request: HttpHeader, v: FolderVal): HttpCode
    requires Answerable(request)
  {
    if request.code != Http200 then request.code
    else if request.version != Http11 then Http505
    else if request.httpMethod == UnknownMethod then Http400
    else if request.httpMethod != Get && request.httpMethod != Head then Http501
    else if request.requestType != OriginForm then Http400
    else if FileFor(request, v) == None then Http404
    else Http200
  }

  /** The header and the content of the answer to a request. */
  ghost predicate IsAnswerTo(header: HttpHeader, content: HttpContent, request: HttpHeader, v: FolderVal)
    requires Answerable(request)
  {
    && header.date.Some? && |header.date.value| <= MAX_DATE_LENGTH
    && match FileFor(request, v)
       case Some(f) =>
         header == FileHeader(f, header.date.value) && content == FileContent(request.httpMethod, f)
       case None =>
         header == ErrorHeader(AnswerCode(request, v), header.date.value) && content == EMPTY_CONTENT
  }

  method ProduceHttpAnswerFromRequest(answer: HttpMessage, request: HttpMessage, cache: FileCache)
    requires answer != request && cache.Valid() && answer !in cache.Repr && Answerable(request.header)
    modifies answer
    ensures IsAnswerTo(answer.header, answer.content, request.header, cache.root.view)
  {
    hide Walk, Components, FileAt;
    if request.header.code != Http200 {
      PrepareHttpError(answer, request.header.code);
      return;
    }
    if request.header.version != Http11 {
      PrepareHttpError(answer, Http505);
      return;
    }
    if request.header.httpMethod == UnknownMethod {
      PrepareHttpError(answer, Http400);
      return;
    }
    if request.header.httpMethod != Get && request.header.httpMethod != Head {
      PrepareHttpError(answer, Http501);
      return;
    }
    if request.header.requestType != OriginForm {
      PrepareHttpError(answer, Http400);
      return;
    }
    var requestedFile := cache.FindFileInCache(request.header.requestTarget.value);
    FileAtIsWalk(cache.root, Components(request.header.requestTarget.value));
    if requestedFile == null {
      PrepareHttpError(answer, Http404);
      return;
    }
    PrepareHttpValidAnswer(request, answer, requestedFile);
  }

  /** The header of a request whose first line has been parsed, with its code. */
  function ParsedRequest(text: string, after: char): HttpHeader {
    var (header, code) := ParsedFirstLine(EMPTY_REQUEST_HEADER, text, after);
    header.(code := code)
  }

  ghost predicate PossibleCode(code: HttpCode) {
    code in {Http200, Http400, Http404, Http414, Http501, Http505}
  }

  /** The whole decision, from the text of the request to the code of the answer: 200 exactly for
      a parsed GET or HEAD of a file of the cache in version 1.1, and the two tests of the
      answering step that answer 400 never succeed. */
  lemma AnswerDecision(text: string, after: char, v: FolderVal)
    ensures Answerable(ParsedRequest(text, after))
    ensures var request := ParsedRequest(text, after);
      && (AnswerCode(request, v) == Http200 <==>
           && request.code == Http200 && request.version == Http11
           && request.httpMethod in {Get, Head}
           && Walk(v, Components(request.requestTarget.value)).Some?)
      && (AnswerCode(request, v) == Http400 <==> request.code == Http400)
      && (AnswerCode(request, v) == Http404 <==>
           && request.code == Http200 && request.version == Http11
           && request.httpMethod in {Get, Head}
           && Walk(v, Components(request.requestTarget.value)).None?)
      && PossibleCode(AnswerCode(request, v))
    ensures var request := ParsedRequest(text, after);
      && (request.code == Http200 ==>
           && (AnswerCode(request, v) == Http505 <==> request.version != Http11)
           && (AnswerCode(request, v) == Http501 <==>
                 request.version == Http11 && request.httpMethod !in {Get, Head})
           && AnswerCode(request, v) != Http414)
      && (request.code != Http200 ==>
           && request.code in {Http400, Http414, Http501, Http505} && AnswerCode(request, v) == request.code)
  {
    hide Walk, Components, MethodOf, VersionOf, Token, WithoutSpaces, LineEndAccepted;
    AcceptedRequest(text, after);
  }

  /** What the answer to a request tells. With the code 200, and no other, it gives the file found at
      the target, and its content for GET only. */
  lemma AnswerTells(text: string, after: char, v: FolderVal, header: HttpHeader, content: HttpContent)
    requires Answerable(ParsedRequest(text, after)) && IsAnswerTo(header, content, ParsedRequest(text, after), v)
    ensures var request := ParsedRequest(text, after);
      && header.code == AnswerCode(request, v) && header.version == Http11
      && header.server == Some("MyAwesomeWebServer") && header.date.Some? && |header.date.value| <= 255
      && (header.code != Http200 ==>
           && header.contentLength == 0 && header.contentType.None? && header.contentEncoding.None?
           && content.body.None? && content.filePath.None?)
      && (header.code == Http200 ==>
           var found := Walk(v, Components(request.requestTarget.value));
           && found.Some? && header.contentLength == found.value.size && header.contentType == found.value.mime
           && header.contentEncoding == Some(if found.value.encoding == Gzip then "gzip" else "identity")
           && (request.httpMethod == Head ==> content.body.None? && content.filePath.None?)
           && (request.httpMethod == Get ==>
                && content.length == found.value.size
                && if found.value.state == NotLoaded
                   then content.filePath == Some(found.value.path) && content.body.None?
                   else content.filePath.None? && content.body == found.value.content))
  {
    hide Walk, Components, MethodOf, VersionOf, Token, WithoutSpaces, LineEndAccepted;
    AnswerDecision(text, after, v);
  }

  // ---------------------------------------------------------------------------
  // Serialisation
  // ---------------------------------------------------------------------------

  function Digit(d: nat): char
    requires d < 10
  {
    "0123456789"[d]
  }

  function Decimal(n: nat): (s: string)
    ensures s != ""
  {
    if n < 10 then [Digit(n)] else Decimal(n / 10) + [Digit(n % 10)]
  }

  /** `%d` */
  function Printed(n: int): string {
    if n < 0 then "-" + Decimal(-n) else Decimal(n)
  }

  function StatusLine(code: HttpCode): string {
    HTTP_SERVER_VERSION + " " + Printed(CodeValue(code)) + " " + CodeDescription(code)
  }

  lemma ThreeDigits(n: nat)
    requires 100 <= n < 1000
    ensures Printed(n) == [Digit(n / 100), Digit(n / 10 % 10), Digit(n % 10)]
  {
    assert Decimal(n / 100) == [Digit(n / 100)];
    assert n / 10 / 10 == n / 100;
    assert Decimal(n / 10) == [Digit(n / 100)] + [Digit(n / 10 % 10)];
  }

  /** The codes, as they are printed. */
  lemma CodesPrinted(code: HttpCode)
    requires code != NoCode
    ensures Printed(CodeValue(code)) ==
      match code
      case Http200 => "200"
      case Http400 => "400"
      case Http401 => "401"
      case Http404 => "404"
      case Http405 => "405"
      case Http411 => "411"
      case Http414 => "414"
      case Http500 => "500"
      case Http501 => "501"
      case Http503 => "503"
      case Http505 => "505"
  {
    hide Decimal, Printed;
    ThreeDigits(CodeValue(code));
  }

  /** The status line for each code. */
  lemma StatusLineIs(code: HttpCode)
    requires code != NoCode
    ensures StatusLine(code) == "HTTP/1.1" + " " +
      (match code
       case Http200 => "200"
       case Http400 => "400"
       case Http401 => "401"
       case Http404 => "404"
       case Http405 => "405"
       case Http411 => "411"
       case Http414 => "414"
       case Http500 => "500"
       case Http501 => "501"
       case Http503 => "503"
       case Http505 => "505")
      + " " +
      (match code
       case Http200 => "OK"
       case Http400 => "Bad request"
       case Http401 => "Unauthorized"
       case Http404 => "Not found"
       case Http405 => "Method not allowed"
       case Http411 => "Length required"
       case Http414 => "Too-long URI"
       case Http500 => "Internal server error"
       case Http501 => "Not implemented"
       case Http503 => "Service unavailable"
       case Http505 => "HTTP version not supported")
  {
    hide Printed, CodeValue;
    CodesPrinted(code);
  }

  /** The lines sent when a file is found, and when there is none. */
  lemma FileLines()
    ensures StatusLine(Http200) == "HTTP/1.1 200 OK"
    ensures StatusLine(Http404) == "HTTP/1.1 404 Not found"
  {
    hide Printed, CodeValue, CodeDescription, StatusLine;
    StatusLineIs(Http200);
    StatusLineIs(Http404);
  }

  /** The lines sent when a request is malformed, and when its target is too long. */
  lemma ErrorLines()
    ensures StatusLine(Http400) == "HTTP/1.1 400 Bad request"
    ensures StatusLine(Http414) == "HTTP/1.1 414 Too-long URI"
  {
    hide Printed, CodeValue, CodeDescription, StatusLine;
    StatusLineIs(Http400);
    StatusLineIs(Http414);
  }

  /** The lines sent for a method, and for a version, that is not supported. */
  lemma UnsupportedMethodLine()
    ensures StatusLine(Http501) == "HTTP/1.1 501 Not implemented"
  {
    hide Printed, CodeValue, CodeDescription, StatusLine;
    StatusLineIs(Http501);
  }

  lemma UnsupportedVersionLine()
    ensures StatusLine(Http505) == "HTTP/1.1 505 " + "HTTP version not supported"
  {
    hide Printed, CodeValue, CodeDescription, StatusLine;
    StatusLineIs(Http505);
    assert "HTTP/1.1" + " " + "505" + " " == "HTTP/1.1 505 ";
  }

  datatype Field = Field(name: string, value: string)

  function OptionalField(name: string, value: Option<string>): seq<Field> {
    if value.Some? then [Field(name, value.value)] else []
  }

  /** The fields of a header that are written, in order. */
  function FieldsOf(h: HttpHeader): seq<Field> {
    (if h.contentLength >= 0 then [Field("Content-Length", Printed(h.contentLength))] else [])
    + OptionalField("Content-Type", h.contentType)
    + OptionalField("Content-Encoding", h.contentEncoding)
    + OptionalField("Date", h.date)
    + OptionalField("Server", h.server)
  }

  function FieldLine(f: Field): string {
    f.name + ": " + f.value
  }

  function FieldsText(fields: seq<Field>): string {
    if fields == [] then "" else FieldLine(fields[0]) + "\r\n" + FieldsText(fields[1..])
  }

  /** The serialised header. */
  function HeaderText(h: HttpHeader): string {
    StatusLine(h.code) + "\r\n" + FieldsText(FieldsOf(h)) + "\r\n"
  }

  /** The whole header of an answer without body, as it is sent. */
  lemma ErrorText(code: HttpCode, date: string)
    ensures HeaderText(ErrorHeader(code, date)) ==
      StatusLine(code) + "\r\n"
      + ("Content-Length: 0" + "\r\n" + ("Date: " + date + "\r\n" + ("Server: MyAwesomeWebServer" + "\r\n" + "")))
      + "\r\n"
  {
    hide FieldsText, StatusLine;
    var fields := FieldsOf(ErrorHeader(code, date));
    assert Printed(0) == "0";
    assert fields == [Field("Content-Length", "0")] + [Field("Date", date), Field("Server", SERVER_NAME)];
    FieldsTextOf(fields);
    DateAndServer(date);
    assert "Content-Length" + ": " + "0" == "Content-Length: 0";
  }

  lemma DateAndServer(date: string)
    ensures FieldsText([Field("Date", date), Field("Server", SERVER_NAME)]) ==
      "Date: " + date + "\r\n" + ("Server: MyAwesomeWebServer" + "\r\n" + "")
  {
    hide FieldsText;
    var fields := [Field("Date", date), Field("Server", SERVER_NAME)];
    FieldsTextOf(fields);
    FieldsTextOf(fields[1..]);
    FieldsTextOf(fields[1..][1..]);
    assert "Date" + ": " == "Date: " && "Server" + ": " + SERVER_NAME == "Server: MyAwesomeWebServer";
  }

  lemma FieldsTextOf(fields: seq<Field>)
    ensures FieldsText(fields) ==
      if fields == [] then ""
      else fields[0].name + ": " + fields[0].value + "\r\n" + FieldsText(fields[1..])
  {
  }

  /** The whole header of an answer giving a file. */
  lemma FileText(f: FileVal, date: string)
    requires f.size >= 0 && f.mime.Some?
    ensures HeaderText(FileHeader(f, date)) ==
      "HTTP/1.1 200 OK" + "\r\n"
      + ("Content-Length: " + Decimal(f.size) + "\r\n"
         + ("Content-Type: " + f.mime.value + "\r\n"
            + ("Content-Encoding: " + (if f.encoding == Gzip then "gzip" else "identity") + "\r\n"
               + ("Date: " + date + "\r\n" + ("Server: MyAwesomeWebServer" + "\r\n" + "")))))
      + "\r\n"
  {
    hide FieldsText, Decimal, StatusLine;
    FileLines();
    DateAndServer(date);
    var encoding := if f.encoding == Gzip then "gzip" else "identity";
    var last := [Field("Date", date), Field("Server", SERVER_NAME)];
    ThreeFields(Decimal(f.size), f.mime.value, encoding, last);
    assert FieldsOf(FileHeader(f, date)) ==
      [Field("Content-Length", Decimal(f.size)), Field("Content-Type", f.mime.value),
       Field("Content-Encoding", encoding)] + last;
  }

  lemma ThreeFields(length: string, mime: string, encoding: string, rest: seq<Field>)
    ensures FieldsText([Field("Content-Length", length), Field("Content-Type", mime),
                        Field("Content-Encoding", encoding)] + rest) ==
      "Content-Length: " + length + "\r\n"
      + ("Content-Type: " + mime + "\r\n" + ("Content-Encoding: " + encoding + "\r\n" + FieldsText(rest)))
  {
    hide FieldsText;
    var a, b, c := Field("Content-Length", length), Field("Content-Type", mime), Field("Content-Encoding", encoding);
    assert [a, b, c] + rest == [a] + ([b] + ([c] + rest));
    FieldsTextOf([a] + ([b] + ([c] + rest)));
    FieldsTextOf([b] + ([c] + rest));
    FieldsTextOf([c] + rest);
    assert "Content-Length" + ": " == "Content-Length: " && "Content-Type" + ": " == "Content-Type: ";
    assert "Content-Encoding" + ": " == "Content-Encoding: ";
  }

  /** `snprintf` of a text at some place of a buffer, where `size` bytes remain. */
  method SnPrintf(buffer: array<char>, at: nat, size: nat, text: string) returns (length: nat)
    requires at + size <= buffer.Length
    modifies buffer
    ensures length == |text|
    ensures buffer[..at] == old(buffer[..at])
    ensures size > 0 ==>
      var kept := Min(|text|, size - 1);
      buffer[at..at + kept] == text[..kept] && buffer[at + kept] == '\0'
  {
    if size > 0 {
      var kept := Min(|text|, size - 1);
      forall i | 0 <= i < kept {
        buffer[at + i] := text[i];
      }
      buffer[at + kept] := '\0';
    }
    length := |text|;
  }

  /** The beginning of a buffer holds a text, NUL-terminated. */
  ghost predicate Holds(buffer: array<char>, text: string)
    reads buffer
  {
    |text| < buffer.Length && buffer[..|text|] == text && buffer[|text|] == '\0'
  }

  /** Appends to a text that a buffer holds, when there is enough room. */
  method Append(buffer: array<char>, at: nat, size: nat, text: string, ghost before: string) returns (length: nat)
    requires at + size <= buffer.Length && |text| < size
    requires |before| == at && buffer[..at] == before
    modifies buffer
    ensures length == |text| && Holds(buffer, before + text)
  {
    length := SnPrintf(buffer, at, size, text);
    assert buffer[..at + |text|] == buffer[..at] + buffer[at..at + |text|];
  }

  /** Writes as much of the status line as there is room for, and returns its length in all cases. */
  method WriteHttpAnswerFirstLine(header: HttpHeader, buffer: array<char>, maxLength: nat) returns (written: nat)
    requires maxLength <= buffer.Length
    modifies buffer
    ensures written == |StatusLine(header.code) + "\r\n"|
    ensures maxLength > 0 ==> Holds(buffer, (StatusLine(header.code) + "\r\n")[..Min(written, maxLength - 1)])
  {
    hide StatusLine;
    ghost var text := StatusLine(header.code) + "\r\n";
    written := SnPrintf(buffer, 0, maxLength, StatusLine(header.code) + "\r\n");
    assert maxLength > 0 ==> buffer[0..0 + Min(|text|, maxLength - 1)] == buffer[..Min(|text|, maxLength - 1)];
  }

  lemma {:induction false} FieldsTextAppend(a: seq<Field>, b: seq<Field>)
    ensures FieldsText(a + b) == FieldsText(a) + FieldsText(b)
    decreases |a|
  {
    if a == [] {
      assert a + b == b;
    } else {
      assert (a + b)[1..] == a[1..] + b;
      FieldsTextAppend(a[1..], b);
      var line := FieldLine(a[0]) + "\r\n";
      assert line + (FieldsText(a[1..]) + FieldsText(b)) == line + FieldsText(a[1..]) + FieldsText(b);
    }
  }

  /** Writes a field after those already written, if its value is present. */
  method WriteOptionalField(buffer: array<char>, at: nat, size: nat, name: string, value: Option<string>,
                            ghost before: string)
    returns (length: nat)
    requires at + size <= buffer.Length && |FieldsText(OptionalField(name, value))| < size
    requires |before| == at && Holds(buffer, before)
    modifies buffer
    ensures length == |FieldsText(OptionalField(name, value))|
    ensures Holds(buffer, before + FieldsText(OptionalField(name, value)))
  {
    if value.None? {
      assert before + "" == before;
      return 0;
    }
    var line := name + ": " + value.value + "\r\n";
    assert FieldsText([Field(name, value.value)]) == line + "" == line;
    length := Append(buffer, at, size, line, before);
  }

  method WriteHttpOptionFields(header: HttpHeader, buffer: array<char>, at: nat, maxLength: nat, ghost before: string)
    returns (written: nat)
    requires at + maxLength <= buffer.Length && |FieldsText(FieldsOf(header))| < maxLength
    requires |before| == at && Holds(buffer, before)
    modifies buffer
    ensures written == |FieldsText(FieldsOf(header))|
    ensures Holds(buffer, before + FieldsText(FieldsOf(header)))
  {
    hide FieldsText, Holds;
    FieldsByParts(header, before);
    ghost var text := LengthText(header);
    var length := if header.contentLength >= 0 then Some(Printed(header.contentLength)) else None;
    written := WriteOptionalField(buffer, at, maxLength, "Content-Length", length, before);
    var n := WriteOptionalField(buffer, at + written, maxLength - written, "Content-Type", header.contentType,
                                before + text);
    text, written := text + FieldsText(OptionalField("Content-Type", header.contentType)), written + n;
    n := WriteOptionalField(buffer, at + written, maxLength - written, "Content-Encoding", header.contentEncoding,
                            before + text);
    text, written := text + FieldsText(OptionalField("Content-Encoding", header.contentEncoding)), written + n;
    n := WriteOptionalField(buffer, at + written, maxLength - written, "Date", header.date, before + text);
    text, written := text + FieldsText(OptionalField("Date", header.date)), written + n;
    n := WriteOptionalField(buffer, at + written, maxLength - written, "Server", header.server, before + text);
    written := written + n;
  }

  ghost function LengthText(h: HttpHeader): string {
    FieldsText(OptionalField("Content-Length", if h.contentLength >= 0 then Some(Printed(h.contentLength)) else None))
  }

  lemma FieldsByParts(h: HttpHeader, before: string)
    ensures var a, b, c, d, e := LengthText(h), FieldsText(OptionalField("Content-Type", h.contentType)),
                  FieldsText(OptionalField("Content-Encoding", h.contentEncoding)),
                  FieldsText(OptionalField("Date", h.date)), FieldsText(OptionalField("Server", h.server));
            && FieldsText(FieldsOf(h)) == a + b + c + d + e
            && before + a + b == before + (a + b)
            && before + (a + b) + c == before + (a + b + c)
            && before + (a + b + c) + d == before + (a + b + c + d)
            && before + (a + b + c + d) + e == before + (a + b + c + d + e)
  {
    hide FieldsText;
    var a := OptionalField("Content-Length", if h.contentLength >= 0 then Some(Printed(h.contentLength)) else None);
    var b, c := OptionalField("Content-Type", h.contentType), OptionalField("Content-Encoding", h.contentEncoding);
    var d, e := OptionalField("Date", h.date), OptionalField("Server", h.server);
    FieldsTextAppend(a, b);
    FieldsTextAppend(a + b, c);
    FieldsTextAppend(a + b + c, d);
    FieldsTextAppend(a + b + c + d, e);
  }

  /** Writes the whole header and returns its length. */
  method FillHttpAnswerHeaderBuffer(answer: HttpMessage, buffer: array<char>, maxLength: nat) returns (written: nat)
    requires maxLength <= buffer.Length && |HeaderText(answer.header)| < maxLength
    modifies buffer
    ensures written == |HeaderText(answer.header)| && Holds(buffer, HeaderText(answer.header))
  {
    hide StatusLine, FieldsText, FieldsOf;
    var header := answer.header;
    ghost var first := StatusLine(header.code) + "\r\n";
    written := WriteHttpAnswerFirstLine(header, buffer, maxLength);
    assert first[..written] == first;
    var n := WriteHttpOptionFields(header, buffer, written, maxLength - written, first);
    written := written + n;
    n := Append(buffer, written, maxLength - written, "\r\n", first + FieldsText(FieldsOf(header)));
    written := written + n;
  }

  // ---------------------------------------------------------------------------
  // Room for the header
  // ---------------------------------------------------------------------------

  const ANSWER_HEADER_BUFFER_SIZE := 2048

  function Pow10(k: nat): nat {
    if k == 0 then 1 else 10 * Pow10(k - 1)
  }

  lemma {:induction false} DecimalLength(n: nat, k: nat)
    requires k > 0 && n < Pow10(k)
    ensures |Decimal(n)| <= k
    decreases k
  {
    if n >= 10 {
      DecimalLength(n / 10, k - 1);
    }
  }

  lemma IntLength(n: nat)
    requires n <= INT_MAX
    ensures |Decimal(n)| <= 10
  {
    assert Pow10(10) == 10000000000 by {
      assert Pow10(5) == 100000;
    }
    DecimalLength(n, 10);
  }

  lemma {:induction false} WalkStaysInside(v: FolderVal, names: seq<string>)
    requires names != [] && Walk(v, names).Some?
    ensures Walk(v, names).value in AllFiles(v)
    decreases |names|
  {
    if |names| > 1 {
      var i := FirstIndex(FolderNames(v), names[0]);
      WalkStaysInside(v.subfolders[i], names[1..]);
      InsideBelow(v.subfolders, i, Walk(v, names).value);
    }
  }

  lemma {:induction false} InsideBelow(folders: seq<FolderVal>, i: nat, f: FileVal)
    requires i < |folders| && f in AllFiles(folders[i])
    ensures f in FilesBelow(folders)
    decreases i
  {
    if i > 0 {
      InsideBelow(folders[1..], i - 1, f);
    }
  }

  /** The header of every answer made from a coherent cache fits in the default buffer, with its
      NUL: `snprintf` never truncates it, and the room left is positive at each step. */
  lemma HeaderFits(header: HttpHeader, content: HttpContent, request: HttpHeader, v: FolderVal)
    requires Answerable(request) && IsAnswerTo(header, content, request, v) && FilesOk(AllFiles(v))
    ensures |HeaderText(header)| < 2048 == ANSWER_HEADER_BUFFER_SIZE
  {
    hide Walk, Components, AllFiles, Decimal, AnswerCode;
    var found := FileFor(request, v);
    if found.Some? {
      WalkStaysInside(v, Components(request.requestTarget.value));
      assert FileOk(found.value);
      IntLength(found.value.size);
    } else {
      IntLength(0);
    }
    FieldsLength(header);
    StatusLength(header.code);
  }

  lemma StatusLength(code: HttpCode)
    ensures |StatusLine(code)| <= 50
  {
    var n := CodeValue(code);
    IntLength(if n < 0 then -n else n);
  }

  ghost function OptionLength(value: Option<string>): nat {
    if value.Some? then |value.value| else 0
  }

  lemma FieldsLength(h: HttpHeader)
    requires h.contentLength >= 0
    ensures |FieldsText(FieldsOf(h))| <= |Decimal(h.contentLength)| + OptionLength(h.contentType)
            + OptionLength(h.contentEncoding) + OptionLength(h.date) + OptionLength(h.server) + 100
  {
    hide FieldsText, OptionalField, FieldsOf;
    FieldsByParts(h, "");
    OptionalLength("Content-Length", Some(Printed(h.contentLength)));
    OptionalLength("Content-Type", h.contentType);
    OptionalLength("Content-Encoding", h.contentEncoding);
    OptionalLength("Date", h.date);
    OptionalLength("Server", h.server);
  }

  lemma OptionalLength(name: string, value: Option<string>)
    ensures |FieldsText(OptionalField(name, value))| <= |name| + OptionLength(value) + 4
  {
    if value.Some? {
      var line := FieldLine(Field(name, value.value)) + "\r\n";
      assert FieldsText([Field(name, value.value)]) == line + "" == line;
    }
  }
}
