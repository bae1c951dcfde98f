/** Reading requests (`src/parse_header.c`): detecting the end of a header, and parsing the
    Request-Line (section 5.1 of RFC 2616).

    A `char*` that moves along a C string is modelled by what remains of this string. */
module RequestParsing {
  import opened Toolbox
  import opened Disk
  import opened HttpTypes

  // ---------------------------------------------------------------------------
  // End of the header
  // ---------------------------------------------------------------------------

  const HTTP_HEADER_MIN_LENGTH := 18

  /** A double CRLF ends at index `i`. */
  predicate BlankLineEndsAt(text: string, i: int) {
    3 <= i < |text| && text[i - 3] == '\r' && text[i - 2] == '\n' && text[i - 1] == '\r' && text[i] == '\n'
  }

  /** The only double CRLF of a text ends at index `end`. */
  ghost predicate OnlyBlankLine(text: string, end: int) {
    BlankLineEndsAt(text, end) && forall i | BlankLineEndsAt(text, i) :: i == end
  }

  /** What the backward search by steps of two finds: a double CRLF followed by an even number
      of bytes, in a long enough text. */
  ghost predicate HeaderSeen(text: string) {
    && HTTP_HEADER_MIN_LENGTH <= |text|
    && exists i :: BlankLineEndsAt(text, i) && (|text| - 1 - i) % 2 == 0
  }

  method BufferContainsFullHttpHeader(buffer: array<char>, startOffset: nat, contentLength: nat)
    returns (found: bool)
    requires contentLength <= buffer.Length
    requires startOffset < 3 || 6 <= startOffset
    ensures found <==>
      && 18 <= contentLength
      && exists i :: BlankLineEndsAt(buffer[..contentLength], i) && (contentLength - 1 - i) % 2 == 0
                     && startOffset <= i + 3
    ensures startOffset == 0 ==> (found <==> HeaderSeen(buffer[..contentLength]))
  {
    if contentLength < HTTP_HEADER_MIN_LENGTH {
      return false;
    }
    ghost var text := buffer[..contentLength];
    var index := contentLength - 1;
    var endIndex := if startOffset - 3 >= 0 then startOffset - 3 else 3;
    while index >= endIndex
      invariant index == contentLength - 1 || endIndex - 2 <= index < contentLength
      invariant (contentLength - 1 - index) % 2 == 0
      invariant forall i | index < i && (contentLength - 1 - i) % 2 == 0 :: !BlankLineEndsAt(text, i)
    {
      assert text[index] == buffer[index] && text[index - 1] == buffer[index - 1];
      assert text[index - 2] == buffer[index - 2] && text[index - 3] == buffer[index - 3];
      if buffer[index - 3] == '\r' && buffer[index - 2] == '\n'
         && buffer[index - 1] == '\r' && buffer[index] == '\n' {
        assert BlankLineEndsAt(text, index);
        return true;
      }
      index := index - 2;
    }
    return false;
  }

  /** A complete header is detected exactly when an even number of bytes follows it. */
  lemma HeaderSeenIff(text: string, end: int)
    requires HTTP_HEADER_MIN_LENGTH <= |text|
    requires OnlyBlankLine(text, end)
    ensures HeaderSeen(text) <==> (|text| - 1 - end) % 2 == 0
  {
  }

  /** A request with a body of one byte is not detected. */
  lemma HeaderMissed()
    ensures var text := "GET / HTTP/1.1\r\n\r\nx";
            && HTTP_HEADER_MIN_LENGTH <= |text| && BlankLineEndsAt(text, 17) && !HeaderSeen(text)
  {
    var text := "GET / HTTP/1.1\r\n\r\nx";
    assert text[17] == '\n';
    forall i | BlankLineEndsAt(text, i)
      ensures i == 17
    {
    }
  }

  // ---------------------------------------------------------------------------
  // Tables of accepted values
  // ---------------------------------------------------------------------------

  /** A table ends with an entry without key, whose value stands for unknown keys. */
  datatype OptionEntry<T> = OptionEntry(key: Option<string>, value: T)

  const ACCEPTED_METHODS: seq<OptionEntry<HttpMethod>> := [
    OptionEntry(Some("GET"), Get),
    OptionEntry(Some("HEAD"), Head),
    OptionEntry(Some("POST"), Post),
    OptionEntry(Some("PUT"), Put),
    OptionEntry(Some("DELETE"), Delete),
    OptionEntry(Some("CONNECT"), Connect),
    OptionEntry(Some("OPTIONS"), Options),
    OptionEntry(Some("TRACE"), Trace),
    OptionEntry(None, UnknownMethod)]

  const ACCEPTED_VERSIONS: seq<OptionEntry<HttpVersion>> := [
    OptionEntry(Some("HTTP/1.0"), Http10),
    OptionEntry(Some("HTTP/1.1"), Http11),
    OptionEntry(Some("HTTP/2.0"), Http20),
    OptionEntry(None, UnknownVersion)]

  predicate Terminated<T>(options: seq<OptionEntry<T>>) {
    options != [] && options[|options| - 1].key.None?
  }

  /** The value of the first entry with this key, or of the final entry. */
  function OptionValue<T>(options: seq<OptionEntry<T>>, key: string): T
    requires Terminated(options)
  {
    if options[0].key.None? || options[0].key.value == key then options[0].value
    else OptionValue(options[1..], key)
  }

  method FindOptionValueFromString<T>(options: seq<OptionEntry<T>>, text: string) returns (value: T)
    requires Terminated(options)
    ensures value == OptionValue(options, text)
  {
    var index := 0;
    while options[index].key.Some?
      invariant index < |options|
      invariant OptionValue(options, text) == OptionValue(options[index..], text)
      decreases |options| - index
    {
      if options[index].key.value == text {
        return options[index].value;
      }
      assert options[index..][1..] == options[index + 1..];
      index := index + 1;
    }
    return options[index].value;
  }

  function MethodOf(token: string): HttpMethod {
    OptionValue(ACCEPTED_METHODS, token)
  }

  function VersionOf(token: string): HttpVersion {
    OptionValue(ACCEPTED_VERSIONS, token)
  }

  // ---------------------------------------------------------------------------
  // Tokens
  // ---------------------------------------------------------------------------

  /** `isspace` in the C locale. */
  predicate IsSpace(c: char) {
    c == ' ' || c == '\t' || c == '\n' || c == '\U{0B}' || c == '\U{0C}' || c == '\r'
  }

  predicate NoSpace(s: string) {
    forall i | 0 <= i < |s| :: !IsSpace(s[i])
  }

  function SkipWhite(s: string): (r: string)
    ensures |r| <= |s|
    ensures r == "" || !IsSpace(r[0])
  {
    if s != "" && IsSpace(s[0]) then SkipWhite(s[1..]) else s
  }

  /** The longest prefix without white space. */
  function Word(s: string): (w: string)
    ensures |w| <= |s|
    ensures NoSpace(w)
  {
    if s == "" || IsSpace(s[0]) then "" else [s[0]] + Word(s[1..])
  }

  /** The next token, white space before it being skipped (`sscanf` with `%ms`). */
  function Token(s: string): (token: Option<string>)
    ensures token.Some? ==> token.value != "" && |token.value| <= |s| && NoSpace(token.value)
  {
    var word := Word(SkipWhite(s));
    if word == "" then None else Some(word)
  }

  method ScanString(s: string) returns (token: Option<string>)
    ensures token == Token(s)
  {
    var start := s;
    while start != "" && IsSpace(start[0])
      invariant SkipWhite(start) == SkipWhite(s)
      decreases |start|
    {
      start := start[1..];
    }
    var length := 0;
    while length < |start| && !IsSpace(start[length])
      invariant length <= |start|
      invariant Word(start) == start[..length] + Word(start[length..])
    {
      assert start[length..][1..] == start[length + 1..];
      length := length + 1;
    }
    assert Word(start) == start[..length];
    token := if length == 0 then None else Some(start[..length]);
  }

  /** What separates the tokens. */
  predicate AllWhite(s: string) {
    forall i | 0 <= i < |s| :: s[i] in " \t\n\U{0B}\U{0C}\r"
  }

  lemma WhiteChars(c: char)
    ensures IsSpace(c) <==> c in " \t\n\U{0B}\U{0C}\r"
  {
    var white := " \t\n\U{0B}\U{0C}\r";
    assert white[0] == ' ' && white[1] == '\t' && white[2] == '\n';
    assert white[3] == '\U{0B}' && white[4] == '\U{0C}' && white[5] == '\r';
  }

  lemma {:induction false} SkipWhiteIs(white: string, rest: string)
    requires AllWhite(white) && (rest == "" || !IsSpace(rest[0]))
    ensures SkipWhite(white + rest) == rest
    decreases |white|
  {
    if white == "" {
      assert white + rest == rest;
    } else {
      WhiteChars(white[0]);
      assert (white + rest)[1..] == white[1..] + rest;
      SkipWhiteIs(white[1..], rest);
    }
  }

  /** The token is the first word between white space, of any of the six kinds. */
  lemma TokenIsFirstWord(white: string, word: string, rest: string)
    requires AllWhite(white) && IsToken(word) && (rest == "" || rest[0] in " \t\n\U{0B}\U{0C}\r")
    ensures Token(white + word + rest) == Some(word)
  {
    if rest != "" {
      WhiteChars(rest[0]);
    }
    assert white + word + rest == white + (word + rest);
    assert (word + rest)[0] == word[0];
    SkipWhiteIs(white, word + rest);
    TokenIs(word, rest);
    assert SkipWhite(word + rest) == word + rest;
  }

  lemma NoTokenInWhite(white: string)
    requires AllWhite(white)
    ensures Token(white).None?
  {
    assert white + "" == white;
    SkipWhiteIs(white, "");
  }

  predicate IsToken(s: string) {
    s != "" && NoSpace(s)
  }

  lemma {:induction false} WordIs(token: string, rest: string)
    requires NoSpace(token)
    requires rest == "" || IsSpace(rest[0])
    ensures Word(token + rest) == token
    decreases |token|
  {
    if token == "" {
      assert token + rest == rest;
    } else {
      assert (token + rest)[1..] == token[1..] + rest;
      WordIs(token[1..], rest);
      assert token == [token[0]] + token[1..];
    }
  }

  lemma TokenIs(token: string, rest: string)
    requires IsToken(token) && (rest == "" || IsSpace(rest[0]))
    ensures Token(token + rest) == Some(token)
  {
    assert (token + rest)[0] == token[0];
    WordIs(token, rest);
  }

  predicate AllSpaces(s: string) {
    forall i | 0 <= i < |s| :: s[i] == ' '
  }

  lemma {:induction false} SpacesAreConsumed(spaces: string, rest: string)
    requires AllSpaces(spaces) && (rest == "" || rest[0] != ' ')
    ensures WithoutSpaces(spaces + rest) == rest
    decreases |spaces|
  {
    if spaces == "" {
      assert spaces + rest == rest;
    } else {
      assert (spaces + rest)[1..] == spaces[1..] + rest;
      SpacesAreConsumed(spaces[1..], rest);
    }
  }

  // ---------------------------------------------------------------------------
  // First line
  // ---------------------------------------------------------------------------

  /** The character at a small distance of a pointer into a C string; `after` is the byte that
      follows the NUL in memory. */
  function CharAt(s: string, after: char, i: nat): char {
    if i < |s| then s[i] else if i == |s| then '\0' else after
  }

  /** The test made at the end of the line: either character is enough. */
  predicate LineEndAccepted(s: string, after: char) {
    CharAt(s, after, 0) == '\r' || CharAt(s, after, 1) == '\n'
  }

  /** The header and the code resulting from a first line. */
  function ParsedFirstLine(header: HttpHeader, s: string, after: char): (HttpHeader, HttpCode) {
    var word1 := Token(s);
    if word1.None? then (header, Http400)
    else
      var header1 := header.(httpMethod := MethodOf(word1.value));
      if header1.httpMethod == UnknownMethod then (header1, Http501)
      else ParsedTarget(header1, WithoutSpaces(s[|word1.value|..]), after)
  }

  function ParsedTarget(header: HttpHeader, s: string, after: char): (HttpHeader, HttpCode) {
    var word := Token(s);
    if word.None? then (header, Http400)
    else if |word.value| > MAX_PATH_LENGTH then (header, Http414)
    else
      var header1 := header.(requestType := OriginForm, requestTarget := word);
      ParsedVersion(header1, WithoutSpaces(s[|word.value|..]), after)
  }

  function ParsedVersion(header: HttpHeader, s: string, after: char): (HttpHeader, HttpCode) {
    var word := Token(s);
    if word.None? then (header, Http400)
    else
      var header1 := header.(version := VersionOf(word.value));
      if header1.version == UnknownVersion then (header1, Http505)
      else if LineEndAccepted(WithoutSpaces(s[|word.value|..]), after) then (header1, Http200)
      else (header1, Http400)
  }

  method ParseHttpHeaderFirstLine(message: HttpMessage, text: string, after: char) returns (code: HttpCode)
    modifies message`header
    ensures (message.header, code) == ParsedFirstLine(old(message.header), text, after)
  {
    var buffer := text;

    var methodString := ScanString(buffer);
    if methodString.None? {
      return Http400;
    }
    var httpMethod := FindOptionValueFromString(ACCEPTED_METHODS, methodString.value);
    message.header := message.header.(httpMethod := httpMethod);
    if message.header.httpMethod == UnknownMethod {
      return Http501;
    }
    buffer := ConsumeLeadingWhiteSpace(buffer[|methodString.value|..]);

    var targetString := ScanString(buffer);
    if targetString.None? {
      return Http400;
    }
    if |targetString.value| > MAX_PATH_LENGTH {
      return Http414;
    }
    message.header := message.header.(requestType := OriginForm, requestTarget := targetString);
    buffer := ConsumeLeadingWhiteSpace(buffer[|targetString.value|..]);

    var versionString := ScanString(buffer);
    if versionString.None? {
      return Http400;
    }
    var version := FindOptionValueFromString(ACCEPTED_VERSIONS, versionString.value);
    message.header := message.header.(version := version);
    if message.header.version == UnknownVersion {
      return Http505;
    }
    buffer := ConsumeLeadingWhiteSpace(buffer[|versionString.value|..]);

    if CharAt(buffer, after, 0) != '\r' && CharAt(buffer, after, 1) != '\n' {
      return Http400;
    }
    return Http200;
  }

  /** A first line: three tokens separated by spaces, then whatever follows them. */
  function FirstLine(m: string, gap1: string, t: string, gap2: string, v: string, gap3: string, tail: string): string {
    m + (gap1 + (t + (gap2 + (v + (gap3 + tail)))))
  }

  ghost predicate LineShape(m: string, gap1: string, t: string, gap2: string, v: string, gap3: string, tail: string) {
    && IsToken(m) && IsToken(t) && IsToken(v)
    && AllSpaces(gap1) && AllSpaces(gap2) && AllSpaces(gap3) && gap1 != "" && gap2 != ""
    && (tail == "" || tail[0] != ' ')
    && (gap3 != "" || tail == "" || IsSpace(tail[0]))
  }

  lemma NextToken(token: string, gap: string, rest: string)
    requires IsToken(token) && AllSpaces(gap) && (rest == "" || rest[0] != ' ')
    requires gap != "" || rest == "" || IsSpace(rest[0])
    ensures Token(token + (gap + rest)) == Some(token)
    ensures WithoutSpaces((token + (gap + rest))[|token|..]) == rest
  {
    TokenIs(token, gap + rest);
    assert (token + (gap + rest))[|token|..] == gap + rest;
    SpacesAreConsumed(gap, rest);
  }

  /** What is answered to a line of the right shape: the method is checked first, then the
      length of the target, then the version, then the end of the line. */
  lemma FirstLineDecision(header: HttpHeader, m: string, gap1: string, t: string, gap2: string, v: string,
                          gap3: string, tail: string, after: char)
    requires LineShape(m, gap1, t, gap2, v, gap3, tail)
    ensures var (h, code) := ParsedFirstLine(header, FirstLine(m, gap1, t, gap2, v, gap3, tail), after);
            && h.httpMethod == MethodOf(m)
            && code == (if MethodOf(m) == UnknownMethod then Http501
                        else if |t| > 1024 then Http414
                        else if VersionOf(v) == UnknownVersion then Http505
                        else if LineEndAccepted(tail, after) then Http200
                        else Http400)
            && (code == Http200 ==>
                  h == header.(httpMethod := MethodOf(m), requestType := OriginForm, requestTarget := Some(t),
                               version := VersionOf(v)))
  {
    hide MethodOf, VersionOf, Token, WithoutSpaces;
    NextToken(v, gap3, tail);
    NextToken(t, gap2, v + (gap3 + tail));
    NextToken(m, gap1, t + (gap2 + (v + (gap3 + tail))));
  }

  lemma WhiteAfterSpaces(white: string)
    requires AllWhite(white)
    ensures AllWhite(WithoutSpaces(white))
  {
    OnlySpacesAreSkipped(white);
  }

  /** A line with no token, with one, or with two, lacks something: this is answered 400, unless the
      method is unknown, or the target too long. */
  lemma FewTokensDecision(header: HttpHeader, m: string, gap: string, t: string, white: string, after: char)
    requires AllWhite(white)
    ensures ParsedFirstLine(header, white, after).1 == Http400
    ensures IsToken(m) ==>
      ParsedFirstLine(header, m + white, after).1 == if MethodOf(m) == UnknownMethod then Http501 else Http400
    ensures IsToken(m) && IsToken(t) && AllSpaces(gap) && gap != "" ==>
      ParsedFirstLine(header, m + (gap + (t + white)), after).1 ==
      if MethodOf(m) == UnknownMethod then Http501 else if |t| > 1024 then Http414 else Http400
  {
    hide MethodOf, VersionOf, Token, WithoutSpaces, AllWhite, IsToken;
    NoTokenInWhite(white);
    WhiteAfterSpaces(white);
    NoTokenInWhite(WithoutSpaces(white));
    if IsToken(m) {
      LastToken(m, white);
    }
    if IsToken(m) && IsToken(t) && AllSpaces(gap) && gap != "" {
      NextTokenOf(m, gap, t, white);
      LastToken(t, white);
    }
  }

  lemma LastToken(token: string, white: string)
    requires IsToken(token) && AllWhite(white)
    ensures Token(token + white) == Some(token) && (token + white)[|token|..] == white
  {
    if white != "" {
      WhiteChars(white[0]);
    }
    TokenIs(token, white);
  }

  lemma NextTokenOf(m: string, gap: string, t: string, rest: string)
    requires IsToken(m) && IsToken(t) && AllSpaces(gap) && gap != ""
    ensures Token(m + (gap + (t + rest))) == Some(m)
    ensures WithoutSpaces((m + (gap + (t + rest)))[|m|..]) == t + rest
  {
    assert (t + rest)[0] == t[0];
    NextToken(m, gap, t + rest);
  }

  /** White space other than spaces is skipped before a token but not counted, so the next token is
      searched too early: the version found in this line is the target. */
  lemma TabIsNotCounted(after: char)
    ensures ParsedFirstLine(EMPTY_REQUEST_HEADER, "GET\t/ HTTP/1.1\r\n", after).1 == Http505
  {
    hide MethodOf, VersionOf, Token, WithoutSpaces;
    var rest := " HTTP/1.1\r\n";
    assert "GET\t/ HTTP/1.1\r\n" == "GET" + ("\t" + ("/" + rest));
    TabInLine(rest, after);
  }

  lemma TabInLine(rest: string, after: char)
    requires rest != "" && rest[0] == ' '
    ensures ParsedFirstLine(EMPTY_REQUEST_HEADER, "GET" + ("\t" + ("/" + rest)), after).1 == Http505
  {
    hide MethodOf, VersionOf, Token, WithoutSpaces;
    var tail := "\t" + ("/" + rest);
    MethodTable("GET");
    VersionTable("/");
    TokenIs("GET", tail);
    assert ("GET" + tail)[3..] == tail && tail == "\t" + "/" + rest && tail[1..] == "/" + rest;
    NoSpacesFirst(tail);
    TokenIsFirstWord("\t", "/", rest);
    NoSpacesFirst("/" + rest);
    TokenIs("/", rest);
  }

  /** Likewise, in this one the target found is the end of the method, and the version is the target. */
  lemma FirstSpaceIsNotCounted(after: char)
    ensures ParsedFirstLine(EMPTY_REQUEST_HEADER, " GET / HTTP/1.1\r\n", after).1 == Http505
  {
    hide MethodOf, VersionOf, Token, WithoutSpaces;
    var rest := " HTTP/1.1\r\n";
    assert " GET / HTTP/1.1\r\n" == " " + "GET" + (" " + ("/" + rest));
    SpaceBeforeLine(rest, after);
  }

  lemma SpaceBeforeLine(rest: string, after: char)
    requires rest != "" && rest[0] == ' '
    ensures ParsedFirstLine(EMPTY_REQUEST_HEADER, " " + "GET" + (" " + ("/" + rest)), after).1 == Http505
  {
    hide MethodOf, VersionOf, Token, WithoutSpaces;
    var tail := " " + ("/" + rest);
    MethodTable("GET");
    VersionTable("/");
    TokenIsFirstWord(" ", "GET", tail);
    assert (" " + "GET" + tail)[3..] == "T" + tail;
    NoSpacesFirst("T" + tail);
    TokenIs("T", tail);
    assert ("T" + tail)[1..] == tail;
    SpacesAreConsumed(" ", "/" + rest);
    TokenIs("/", rest);
  }

  lemma NoSpacesFirst(s: string)
    requires s != "" && s[0] != ' '
    ensures WithoutSpaces(s) == s
  {
  }

  /** The text of an accepted method. */
  function MethodName(m: HttpMethod): string {
    match m
    case Get => "GET"
    case Head => "HEAD"
    case Post => "POST"
    case Put => "PUT"
    case Delete => "DELETE"
    case Connect => "CONNECT"
    case Options => "OPTIONS"
    case Trace => "TRACE"
    case UnknownMethod => ""
    case NoMethod => ""
  }

  function VersionName(v: HttpVersion): string {
    match v
    case Http10 => "HTTP/1.0"
    case Http11 => "HTTP/1.1"
    case Http20 => "HTTP/2.0"
    case UnknownVersion => ""
  }

  /** The tables know exactly the names of the methods and of the versions. */
  lemma TablesInvertNames(token: string)
    requires token != ""
    ensures forall m :: MethodOf(token) == m && m != UnknownMethod <==> MethodName(m) == token
    ensures forall v :: VersionOf(token) == v && v != UnknownVersion <==> VersionName(v) == token
  {
    MethodTable(token);
    VersionTable(token);
  }

  lemma {:induction false} OptionValueAt<T>(options: seq<OptionEntry<T>>, key: string, i: nat)
    requires Terminated(options) && i < |options|
    requires forall j | 0 <= j < i :: options[j].key.Some? && options[j].key.value != key
    requires options[i].key.None? || options[i].key.value == key
    ensures OptionValue(options, key) == options[i].value
    decreases i
  {
    if i > 0 {
      OptionValueAt(options[1..], key, i - 1);
    }
  }

  lemma MethodTable(token: string)
    ensures MethodOf(token) ==
      if token == "GET" then Get else if token == "HEAD" then Head else if token == "POST" then Post
      else if token == "PUT" then Put else if token == "DELETE" then Delete else if token == "CONNECT" then Connect
      else if token == "OPTIONS" then Options else if token == "TRACE" then Trace else UnknownMethod
  {
    hide OptionValue;
    var i := if token == "GET" then 0 else if token == "HEAD" then 1 else if token == "POST" then 2
      else if token == "PUT" then 3 else if token == "DELETE" then 4 else if token == "CONNECT" then 5
      else if token == "OPTIONS" then 6 else if token == "TRACE" then 7 else 8;
    OptionValueAt(ACCEPTED_METHODS, token, i);
  }

  lemma VersionTable(token: string)
    ensures VersionOf(token) ==
      if token == "HTTP/1.0" then Http10 else if token == "HTTP/1.1" then Http11
      else if token == "HTTP/2.0" then Http20 else UnknownVersion
  {
    hide OptionValue;
    var i := if token == "HTTP/1.0" then 0 else if token == "HTTP/1.1" then 1
      else if token == "HTTP/2.0" then 2 else 3;
    OptionValueAt(ACCEPTED_VERSIONS, token, i);
  }

  /** The round trip of the Request-Line: a printed line is parsed to the fields it was printed
      from, whatever follows the CRLF. */
  lemma RequestLineRoundTrip(m: HttpMethod, t: string, v: HttpVersion, gap1: string, gap2: string, gap3: string,
                             rest: string, after: char)
    requires m != UnknownMethod && m != NoMethod && v != UnknownVersion
    requires IsToken(t) && |t| <= MAX_PATH_LENGTH
    requires AllSpaces(gap1) && AllSpaces(gap2) && AllSpaces(gap3) && gap1 != "" && gap2 != ""
    ensures ParsedFirstLine(EMPTY_REQUEST_HEADER,
                            FirstLine(MethodName(m), gap1, t, gap2, VersionName(v), gap3, "\r\n" + rest), after)
         == (EMPTY_REQUEST_HEADER.(httpMethod := m, requestType := OriginForm, requestTarget := Some(t), version := v),
             Http200)
  {
    hide MethodOf, VersionOf, ParsedFirstLine;
    TablesInvertNames(MethodName(m));
    TablesInvertNames(VersionName(v));
    FirstLineDecision(EMPTY_REQUEST_HEADER, MethodName(m), gap1, t, gap2, VersionName(v), gap3, "\r\n" + rest, after);
  }

  predicate StartsWithCrlf(s: string) {
    |s| >= 2 && s[0] == '\r' && s[1] == '\n'
  }

  /** A corollary of `FirstLineDecision`: the end of a line is checked as section 5.1 of RFC 2616
      asks exactly when both of its characters are right, or both are wrong, since one of them is
      enough for the server. */
  lemma LineEndCheckedIff(m: string, gap1: string, t: string, gap2: string, v: string,
                          gap3: string, tail: string, after: char)
    requires LineShape(m, gap1, t, gap2, v, gap3, tail)
    requires MethodOf(m) != UnknownMethod && |t| <= MAX_PATH_LENGTH && VersionOf(v) != UnknownVersion
    ensures (ParsedFirstLine(EMPTY_REQUEST_HEADER, FirstLine(m, gap1, t, gap2, v, gap3, tail), after).1 == Http200
             <==> StartsWithCrlf(tail))
       <==> (CharAt(tail, after, 0) == '\r' <==> CharAt(tail, after, 1) == '\n')
  {
    hide MethodOf, VersionOf, ParsedFirstLine, LineShape, FirstLine;
    FirstLineDecision(EMPTY_REQUEST_HEADER, m, gap1, t, gap2, v, gap3, tail, after);
  }

  /** For instance, this line is accepted. */
  lemma LineEndNotCrlf(after: char)
    ensures ParsedFirstLine(EMPTY_REQUEST_HEADER, "GET / HTTP/1.1 X\n", after).1 == Http200
  {
    hide ParsedFirstLine;
    assert FirstLine("GET", " ", "/", " ", "HTTP/1.1", " ", "X\n") == "GET / HTTP/1.1 X\n";
    TablesInvertNames("GET");
    TablesInvertNames("HTTP/1.1");
    FirstLineDecision(EMPTY_REQUEST_HEADER, "GET", " ", "/", " ", "HTTP/1.1", " ", "X\n", after);
  }

  /** What a successful parse guarantees. */
  lemma AcceptedRequest(s: string, after: char)
    ensures var (h, code) := ParsedFirstLine(EMPTY_REQUEST_HEADER, s, after);
            code == Http200 ==>
              && h.httpMethod != UnknownMethod && h.version != UnknownVersion && h.requestType == OriginForm
              && h.requestTarget.Some? && IsToken(h.requestTarget.value) && |h.requestTarget.value| <= 1024
  {
    hide MethodOf, VersionOf;
  }
}
