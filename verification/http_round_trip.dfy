/** Reading back the header of an answer (sections 6 and 6.1 of RFC 2616). */
module HttpRoundTrip {
  import opened Toolbox
  import opened HttpTypes
  import opened RequestParsing
  import opened Http

  /** A line is free of CR and LF. */
  predicate Clean(s: string) {
    forall i | 0 <= i < |s| :: s[i] != '\r' && s[i] != '\n'
  }

  predicate CleanOption(value: Option<string>) {
    value.Some? ==> Clean(value.value)
  }

  /** No field value would break a line. */
  predicate CleanHeader(h: HttpHeader) {
    CleanOption(h.contentType) && CleanOption(h.contentEncoding) && CleanOption(h.date) && CleanOption(h.server)
  }

  /** Lines followed by an empty line. */
  function Block(lines: seq<string>): string {
    if lines == [] then "\r\n" else lines[0] + "\r\n" + Block(lines[1..])
  }

  function FieldLines(fields: seq<Field>): seq<string> {
    if fields == [] then [] else [FieldLine(fields[0])] + FieldLines(fields[1..])
  }

  function Lines(h: HttpHeader): seq<string> {
    [StatusLine(h.code)] + FieldLines(FieldsOf(h))
  }

  lemma {:induction false} FieldsTextIsBlock(fields: seq<Field>)
    ensures FieldsText(fields) + "\r\n" == Block(FieldLines(fields))
    decreases |fields|
  {
    if fields != [] {
      var line := FieldLine(fields[0]) + "\r\n";
      assert FieldLines(fields)[1..] == FieldLines(fields[1..]);
      FieldsTextIsBlock(fields[1..]);
      assert line + FieldsText(fields[1..]) + "\r\n" == line + (FieldsText(fields[1..]) + "\r\n");
    }
  }

  lemma HeaderTextIsBlock(h: HttpHeader)
    ensures HeaderText(h) == Block(Lines(h))
  {
    hide FieldsOf, StatusLine;
    FieldsTextIsBlock(FieldsOf(h));
    var first := StatusLine(h.code) + "\r\n";
    assert Lines(h)[1..] == FieldLines(FieldsOf(h));
    assert first + FieldsText(FieldsOf(h)) + "\r\n" == first + (FieldsText(FieldsOf(h)) + "\r\n");
  }

  // ---------------------------------------------------------------------------
  // The end of the header
  // ---------------------------------------------------------------------------

  ghost predicate ProperLines(lines: seq<string>) {
    forall i | 0 <= i < |lines| :: lines[i] != "" && Clean(lines[i])
  }

  lemma BlankAfterLine(line: string, rest: string, i: int)
    requires line != "" && Clean(line) && rest != ""
    requires rest[0] == '\r' ==> rest == "\r\n"
    ensures BlankLineEndsAt(line + "\r\n" + rest, i) <==>
      || BlankLineEndsAt(rest, i - |line| - 2)
      || (rest == "\r\n" && i == |line| + 3)
  {
    var text := line + "\r\n" + rest;
    assert text[|line|] == '\r' && text[|line| + 1] == '\n';
    assert forall j | 0 <= j < |line| :: text[j] == line[j];
    assert forall j | 0 <= j < |rest| :: text[|line| + 2 + j] == rest[j];
  }

  lemma {:induction false} BlockEnds(lines: seq<string>, i: int)
    requires lines != [] && ProperLines(lines)
    ensures BlankLineEndsAt(Block(lines), i) <==> i == |Block(lines)| - 1
    decreases |lines|
  {
    var rest := Block(lines[1..]);
    assert rest != "" && (rest[0] == '\r' ==> lines[1..] == []) by {
      if lines[1..] != [] {
        assert lines[1] != "" && Clean(lines[1]);
        assert rest[0] == lines[1][0];
      }
    }
    BlankAfterLine(lines[0], rest, i);
    if lines[1..] != [] {
      BlockEnds(lines[1..], i - |lines[0]| - 2);
    }
  }

  ghost predicate CleanFields(fields: seq<Field>) {
    forall i | 0 <= i < |fields| :: Clean(fields[i].name) && Clean(fields[i].value)
  }

  lemma CleanOptionalField(name: string, value: Option<string>)
    requires Clean(name) && CleanOption(value)
    ensures CleanFields(OptionalField(name, value))
  {
  }

  lemma CleanAppend(a: string, b: string)
    requires Clean(a) && Clean(b)
    ensures Clean(a + b)
  {
  }

  lemma {:induction false} FieldLinesProper(fields: seq<Field>)
    requires CleanFields(fields)
    ensures ProperLines(FieldLines(fields))
    decreases |fields|
  {
    if fields != [] {
      FieldLinesProper(fields[1..]);
      var line := FieldLine(fields[0]);
      assert Clean(line) && line != "";
      assert forall i | 0 < i <= |FieldLines(fields[1..])| :: FieldLines(fields)[i] == FieldLines(fields[1..])[i - 1];
    }
  }

  lemma {:induction false} DecimalIsDigits(n: nat)
    ensures forall i | 0 <= i < |Decimal(n)| :: '0' <= Decimal(n)[i] <= '9'
    decreases n
  {
    DigitInRange(n % 10);
    if n >= 10 {
      DecimalIsDigits(n / 10);
    }
  }

  lemma DigitInRange(d: nat)
    requires d < 10
    ensures '0' <= Digit(d) <= '9' && Digit(d) as int - '0' as int == d
  {
  }

  lemma PrintedIsClean(n: int)
    ensures Clean(Printed(n))
  {
    DecimalIsDigits(if n < 0 then -n else n);
  }

  lemma FieldsAreClean(h: HttpHeader)
    requires CleanHeader(h)
    ensures CleanFields(FieldsOf(h))
  {
    hide Printed, OptionalField, Clean;
    NamesAreClean();
    PrintedIsClean(h.contentLength);
    var length := if h.contentLength >= 0 then [Field("Content-Length", Printed(h.contentLength))] else [];
    assert CleanFields(length);
    CleanOptionalField("Content-Type", h.contentType);
    CleanOptionalField("Content-Encoding", h.contentEncoding);
    CleanOptionalField("Date", h.date);
    CleanOptionalField("Server", h.server);
  }

  lemma NamesAreClean()
    ensures Clean("Content-Length") && Clean("Content-Type") && Clean("Content-Encoding")
    ensures Clean("Date") && Clean("Server")
  {
  }

  lemma LinesProper(h: HttpHeader)
    requires CleanHeader(h)
    ensures ProperLines(Lines(h))
  {
    hide FieldLines, StatusLine, FieldsOf, Clean, CleanHeader;
    FieldsAreClean(h);
    StatusIsClean(h.code);
    FieldLinesProper(FieldsOf(h));
  }

  lemma DescriptionIsClean(code: HttpCode)
    ensures Clean(CodeDescription(code))
  {
    match code
    case Http200 => assert Clean("OK");
    case Http400 => assert Clean("Bad request");
    case Http401 => assert Clean("Unauthorized");
    case Http404 => assert Clean("Not found");
    case Http405 => assert Clean("Method not allowed");
    case Http411 => assert Clean("Length required");
    case Http414 => assert Clean("Too-long URI");
    case Http500 => assert Clean("Internal server error");
    case Http501 => assert Clean("Not implemented");
    case Http503 => assert Clean("Service unavailable");
    case Http505 => assert Clean("HTTP version not supported");
    case NoCode => assert Clean("No HTTP code");
  }

  lemma StatusIsClean(code: HttpCode)
    ensures Clean(StatusLine(code)) && StatusLine(code) != "" && StatusLine(code)[0] == 'H'
  {
    hide Printed, CodeDescription;
    var number := Printed(CodeValue(code));
    PrintedIsClean(CodeValue(code));
    DescriptionIsClean(code);
    CleanAppend("HTTP/1.1 ", number);
    CleanAppend("HTTP/1.1 " + number, " ");
    CleanAppend("HTTP/1.1 " + number + " ", CodeDescription(code));
    assert HTTP_SERVER_VERSION + " " == "HTTP/1.1 ";
  }

  /** The empty line ending the header is the first one, and is at the very end of the text. */
  lemma HeaderEndsOnce(h: HttpHeader, i: int)
    requires CleanHeader(h)
    ensures BlankLineEndsAt(HeaderText(h), i) <==> i == |HeaderText(h)| - 1
    ensures HeaderText(h)[0] == 'H'
  {
    hide HeaderText, FieldLines, FieldsOf, StatusLine;
    HeaderTextIsBlock(h);
    LinesProper(h);
    BlockEnds(Lines(h), i);
    StatusIsClean(h.code);
    assert Block(Lines(h))[0] == StatusLine(h.code)[0];
  }

  // ---------------------------------------------------------------------------
  // Decoding
  // ---------------------------------------------------------------------------

  /** Splitting on each CRLF. */
  function SplitCrlf(s: string): (lines: seq<string>)
    ensures lines != []
    decreases |s|
  {
    if |s| < 2 then [s]
    else if s[0] == '\r' && s[1] == '\n' then [""] + SplitCrlf(s[2..])
    else
      var rest := SplitCrlf(s[1..]);
      [[s[0]] + rest[0]] + rest[1..]
  }

  lemma {:induction false} SplitLine(line: string, rest: string)
    requires Clean(line)
    ensures SplitCrlf(line + "\r\n" + rest) == [line] + SplitCrlf(rest)
    decreases |line|
  {
    var s := line + "\r\n" + rest;
    if line == "" {
      assert s[2..] == rest;
    } else {
      assert s[0] == line[0];
      assert s[1..] == line[1..] + "\r\n" + rest;
      SplitLine(line[1..], rest);
      assert line == [line[0]] + line[1..];
    }
  }

  lemma {:induction false} SplitBlock(lines: seq<string>)
    requires ProperLines(lines)
    ensures SplitCrlf(Block(lines)) == lines + ["", ""]
    decreases |lines|
  {
    hide SplitCrlf;
    if lines == [] {
      SplitEmpty();
    } else {
      SplitLine(lines[0], Block(lines[1..]));
      SplitBlock(lines[1..]);
      assert lines == [lines[0]] + lines[1..];
    }
  }

  lemma SplitEmpty()
    ensures SplitCrlf("\r\n") == ["", ""]
  {
    assert "\r\n"[2..] == "";
    assert SplitCrlf("") == [""];
  }

  /** The part of a string before the first occurrence of a character, and the part after it. */
  function Before(s: string, c: char): (r: string)
    ensures |r| <= |s|
  {
    if s == "" || s[0] == c then "" else [s[0]] + Before(s[1..], c)
  }

  function After(s: string, c: char): string {
    var k := |Before(s, c)|;
    if k < |s| then s[k + 1..] else ""
  }

  lemma {:induction false} CutAtFirst(a: string, c: char, b: string)
    requires c !in a
    ensures Before(a + [c] + b, c) == a && After(a + [c] + b, c) == b
    decreases |a|
  {
    var s := a + [c] + b;
    if a == "" {
      assert s[0] == c;
      assert s[1..] == b;
    } else {
      assert s[0] == a[0] && a[0] in a;
      assert s[1..] == a[1..] + [c] + b;
      CutAtFirst(a[1..], c, b);
      assert a == [a[0]] + a[1..];
      assert s[|a| + 1..] == b;
    }
  }

  /** Value of a decimal number. */
  function DecimalValue(s: string): int {
    if s == "" then 0 else 10 * DecimalValue(s[..|s| - 1]) + (s[|s| - 1] as int - '0' as int)
  }

  lemma {:induction false} DecimalRoundTrip(n: nat)
    ensures DecimalValue(Decimal(n)) == n
    decreases n
  {
    DigitInRange(n % 10);
    if n >= 10 {
      DecimalRoundTrip(n / 10);
      assert Decimal(n)[..|Decimal(n)| - 1] == Decimal(n / 10);
    } else {
      assert Decimal(n)[..0] == "";
    }
  }

  function DecodeField(line: string): Field {
    var value := After(line, ':');
    Field(Before(line, ':'), if value == "" then "" else value[1..])
  }

  function DecodeFields(lines: seq<string>): seq<Field> {
    if lines == [] || lines[0] == "" then [] else [DecodeField(lines[0])] + DecodeFields(lines[1..])
  }

  /** The code and the fields of a serialised header. */
  function DecodeHeader(text: string): (int, seq<Field>) {
    var lines := SplitCrlf(text);
    (DecimalValue(Before(After(lines[0], ' '), ' ')), DecodeFields(lines[1..]))
  }

  lemma {:induction false} DecodeFieldLines(fields: seq<Field>, rest: seq<string>)
    requires PlainNames(fields)
    requires rest != [] && rest[0] == ""
    ensures DecodeFields(FieldLines(fields) + rest) == fields
    decreases |fields|
  {
    hide Before, After;
    if fields == [] {
      assert FieldLines(fields) + rest == rest;
    } else {
      var f := fields[0];
      var line := FieldLine(f);
      assert line == f.name + [':'] + (" " + f.value);
      CutAtFirst(f.name, ':', " " + f.value);
      assert (" " + f.value)[1..] == f.value;
      assert (FieldLines(fields) + rest)[1..] == FieldLines(fields[1..]) + rest;
      DecodeFieldLines(fields[1..], rest);
    }
  }

  ghost predicate PlainNames(fields: seq<Field>) {
    forall i | 0 <= i < |fields| :: ':' !in fields[i].name
  }

  lemma PlainOptionalField(name: string, value: Option<string>)
    requires ':' !in name
    ensures PlainNames(OptionalField(name, value))
  {
  }

  lemma PlainAppend(a: seq<Field>, b: seq<Field>)
    requires PlainNames(a) && PlainNames(b)
    ensures PlainNames(a + b)
  {
  }

  lemma FieldsHavePlainNames(h: HttpHeader)
    ensures PlainNames(FieldsOf(h))
  {
    hide Printed, OptionalField, PlainNames;
    var a := if h.contentLength >= 0 then [Field("Content-Length", Printed(h.contentLength))] else [];
    var b, c := OptionalField("Content-Type", h.contentType), OptionalField("Content-Encoding", h.contentEncoding);
    var d, e := OptionalField("Date", h.date), OptionalField("Server", h.server);
    PlainLength(h.contentLength);
    PlainOptionalField("Content-Type", h.contentType);
    PlainOptionalField("Content-Encoding", h.contentEncoding);
    PlainOptionalField("Date", h.date);
    PlainOptionalField("Server", h.server);
    PlainAppend(a, b);
    PlainAppend(a + b, c);
    PlainAppend(a + b + c, d);
    PlainAppend(a + b + c + d, e);
  }

  lemma PlainLength(length: int)
    ensures PlainNames(if length >= 0 then [Field("Content-Length", Printed(length))] else [])
  {
    hide Printed;
  }

  lemma DecodeStatus(code: HttpCode)
    requires code != NoCode
    ensures DecimalValue(Before(After(StatusLine(code), ' '), ' ')) ==
      match code
      case Http200 => 200
      case Http400 => 400
      case Http401 => 401
      case Http404 => 404
      case Http405 => 405
      case Http411 => 411
      case Http414 => 414
      case Http500 => 500
      case Http501 => 501
      case Http503 => 503
      case Http505 => 505
  {
    hide Before, After, DecimalValue, Decimal, CodeDescription;
    var number := Printed(CodeValue(code));
    DecimalIsDigits(CodeValue(code));
    DecimalRoundTrip(CodeValue(code));
    CutAtFirst("HTTP/1.1", ' ', number + [' '] + CodeDescription(code));
    assert StatusLine(code) == "HTTP/1.1" + [' '] + (number + [' '] + CodeDescription(code));
    CutAtFirst(number, ' ', CodeDescription(code));
  }

  /** The value of the first field with a name. */
  function FieldValue(fields: seq<Field>, name: string): Option<string> {
    if fields == [] then None
    else if fields[0].name == name then Some(fields[0].value)
    else FieldValue(fields[1..], name)
  }

  lemma {:induction false} FieldValueAppend(a: seq<Field>, b: seq<Field>, name: string)
    ensures FieldValue(a + b, name) ==
            if FieldValue(a, name).Some? then FieldValue(a, name) else FieldValue(b, name)
    decreases |a|
  {
    if a == [] {
      assert a + b == b;
    } else {
      assert (a + b)[1..] == a[1..] + b;
      FieldValueAppend(a[1..], b, name);
    }
  }

  lemma FieldValueOptional(fieldName: string, value: Option<string>, name: string)
    ensures FieldValue(OptionalField(fieldName, value), name) == if fieldName == name then value else None
  {
  }

  /** The length, which is written unless it is negative. */
  function LengthOption(h: HttpHeader): Option<string> {
    if h.contentLength >= 0 then Some(Printed(h.contentLength)) else None
  }

  /** Each field of a header is found under its own name. */
  lemma FieldsTellTheHeader(h: HttpHeader, name: string)
    ensures FieldValue(FieldsOf(h), name) ==
      if name == "Content-Length" then LengthOption(h)
      else if name == "Content-Type" then h.contentType
      else if name == "Content-Encoding" then h.contentEncoding
      else if name == "Date" then h.date
      else if name == "Server" then h.server
      else None
  {
    hide FieldValue, OptionalField, Printed;
    var a := OptionalField("Content-Length", LengthOption(h));
    var b, c := OptionalField("Content-Type", h.contentType), OptionalField("Content-Encoding", h.contentEncoding);
    var d, e := OptionalField("Date", h.date), OptionalField("Server", h.server);
    LengthField(h);
    FieldValueAppend(a, b, name);
    FieldValueAppend(a + b, c, name);
    FieldValueAppend(a + b + c, d, name);
    FieldValueAppend(a + b + c + d, e, name);
    FieldValueOptional("Content-Length", LengthOption(h), name);
    FieldValueOptional("Content-Type", h.contentType, name);
    FieldValueOptional("Content-Encoding", h.contentEncoding, name);
    FieldValueOptional("Date", h.date, name);
    FieldValueOptional("Server", h.server, name);
  }

  lemma LengthField(h: HttpHeader)
    ensures (if h.contentLength >= 0 then [Field("Content-Length", Printed(h.contentLength))] else [])
         == OptionalField("Content-Length", LengthOption(h))
  {
    hide Printed;
  }

  /** The round trip of the header: splitting the text on CRLF and reading its lines gives back
      the code and every field that was written, in order; under the name of each field of the
      header one reads its value, and the length of the body is read as a number. */
  lemma AnswerHeaderRoundTrip(h: HttpHeader)
    requires CleanHeader(h) && h.code != NoCode
    ensures DecodeHeader(HeaderText(h)).0 ==
      match h.code
      case Http200 => 200
      case Http400 => 400
      case Http401 => 401
      case Http404 => 404
      case Http405 => 405
      case Http411 => 411
      case Http414 => 414
      case Http500 => 500
      case Http501 => 501
      case Http503 => 503
      case Http505 => 505
    ensures var fields := DecodeHeader(HeaderText(h)).1;
      && fields == FieldsOf(h)
      && (h.contentLength >= 0 ==>
           FieldValue(fields, "Content-Length").Some?
           && DecimalValue(FieldValue(fields, "Content-Length").value) == h.contentLength)
      && FieldValue(fields, "Content-Type") == h.contentType
      && FieldValue(fields, "Content-Encoding") == h.contentEncoding
      && FieldValue(fields, "Date") == h.date
      && FieldValue(fields, "Server") == h.server
  {
    hide HeaderText, FieldLines, SplitCrlf, DecodeFields, DecimalValue, Before, After, StatusLine, Decimal, CodeValue,
         FieldsOf, CleanHeader, ProperLines, PlainNames, FieldValue;
    var fieldLines := FieldLines(FieldsOf(h));
    HeaderTextIsBlock(h);
    LinesProper(h);
    SplitBlock(Lines(h));
    assert (Lines(h) + ["", ""])[1..] == fieldLines + ["", ""];
    DecodeStatus(h.code);
    FieldsHavePlainNames(h);
    DecodeFieldLines(FieldsOf(h), ["", ""]);
    if h.contentLength >= 0 {
      DecimalRoundTrip(h.contentLength);
    }
    FieldsTellTheHeader(h, "Content-Length");
    FieldsTellTheHeader(h, "Content-Type");
    FieldsTellTheHeader(h, "Content-Encoding");
    FieldsTellTheHeader(h, "Date");
    FieldsTellTheHeader(h, "Server");
  }
}
