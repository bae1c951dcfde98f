/** Reading from and writing to one client (`src/server.c`). A method returning `exited` as true
    stands for a call that ends the whole server with an error. */
module Serving {
  import opened Toolbox
  import opened Subprocess
  import opened CacheSpec
  import opened Lookup
  import opened FileCaching
  import opened HttpTypes
  import opened RequestParsing
  import opened Http
  import opened Sending
  import opened OperatingSystem
  import opened ClientTable

  /** What a step may change of a client. */
  datatype Snapshot = Snapshot(
    state: ClientState, buffer: string, length: nat, nbReads: nat,
    answer: HttpHeader, content: HttpContent, offset: nat,
    headerWrites: seq<nat>, bodyWrites: seq<nat>, received: string)

  ghost function Snap(client: Client): Snapshot
    reads client`state, client`requestBufferLength, client`nbReads, client`answerHeaderBufferOffset
    reads client`headerWrites, client`bodyWrites, client`received, client.requestBuffer, client.httpAnswer
  {
    Snapshot(client.state, client.requestBuffer[..], client.requestBufferLength, client.nbReads,
             client.httpAnswer.header, client.httpAnswer.content, client.answerHeaderBufferOffset,
             client.headerWrites, client.bodyWrites, client.received)
  }

  // ---------------------------------------------------------------------------
  // Reading
  // ---------------------------------------------------------------------------

  /** `after` is the byte which follows the C string stored in a buffer, if the buffer goes so far. */
  predicate ByteAfter(buffer: string, after: char) {
    var length := |CString(buffer)|;
    length + 1 < |buffer| ==> after == buffer[length + 1]
  }

  /** An answer was made for the request in a buffer. */
  ghost predicate Answers(header: HttpHeader, content: HttpContent, buffer: string, after: char, v: FolderVal) {
    var request := ParsedRequest(CString(buffer), after);
    ByteAfter(buffer, after) && Answerable(request) && IsAnswerTo(header, content, request, v)
  }

  /** A client whose buffer holds a request that was just answered. */
  function AfterAnswer(before: Snapshot, header: HttpHeader, content: HttpContent): Snapshot {
    before.(state := Answering, answer := header, content := content, offset := 0,
            headerWrites := [], bodyWrites := [], received := "")
  }

  /** A client whose request was processed: once its header is complete it gets a fresh answer, and
      until then it goes on waiting. */
  ghost predicate Processed(before: Snapshot, after: Snapshot, v: FolderVal) {
    if before.length <= |before.buffer| && HeaderSeen(before.buffer[..before.length]) then
      && after == AfterAnswer(before, after.answer, after.content)
      && exists byte :: Answers(after.answer, after.content, before.buffer, byte, v)
    else after == before.(state := WaitingForRequest)
  }

  method ParseHttpRequest(request: HttpMessage, text: string, after: char) returns (code: HttpCode)
    modifies request
    ensures (request.header, code) == ParsedFirstLine(EMPTY_REQUEST_HEADER, text, after)
  {
    request.InitRequest();
    code := ParseHttpHeaderFirstLine(request, text, after);
  }

  /** What a step on a client needs from the cache. */
  ghost predicate CacheFor(client: Client, server: Server)
    reads server.cache, server.cache.Repr
  {
    && server.cache.Valid() && server.cache.root.view == server.view && FilesOk(AllFiles(server.view))
    && client.Own() !! server.cache.Repr
  }

  /** Parses the request, and makes the answer and its header. */
  method AnswerRequest(server: Server, client: Client, text: string, after: char)
    requires client.Apart() && CacheFor(client, server)
    requires client.answerHeaderBuffer.Length == server.answerHeaderBufferSize >= ANSWER_HEADER_BUFFER_SIZE
    modifies client`answerHeaderBufferLength, client`answerHeaderBufferOffset
    modifies client`headerWrites, client`bodyWrites, client`received
    modifies client.httpRequest, client.answerHeaderBuffer, client.httpAnswer
    ensures CacheFor(client, server)
    ensures client.AnswerOk(server.view)
    ensures client.answerHeaderBufferOffset == 0 && client.received == ""
    ensures client.headerWrites == [] && client.bodyWrites == []
    ensures client.httpRequest.header == ParsedRequest(text, after)
  {
    hide HeaderText, IsAnswerTo, Answerable, AllFiles, ParsedFirstLine, FilesOk, Holds, Folder.Valid, PossibleCode,
         AnswerCode, Walk, Components;
    var code := ParseHttpRequest(client.httpRequest, text, after);
    client.httpRequest.header := client.httpRequest.header.(code := code);
    AnswerDecision(text, after, server.view);

    ProduceHttpAnswerFromRequest(client.httpAnswer, client.httpRequest, server.cache);
    CodeIsPossible(client.httpAnswer.header, client.httpAnswer.content, text, after, server.view);
    HeaderFits(client.httpAnswer.header, client.httpAnswer.content, client.httpRequest.header,
               server.view);

    var length := FillHttpAnswerHeaderBuffer(client.httpAnswer, client.answerHeaderBuffer,
                                             server.answerHeaderBufferSize);
    client.answerHeaderBufferLength := length;
    client.answerHeaderBufferOffset := 0;
    client.headerWrites, client.bodyWrites, client.received := [], [], "";
  }

  /** Answers a request once its header is complete; until then, waits for more. */
  method ProcessClientRequest(server: Server, client: Client)
    requires client.Apart() && CacheFor(client, server)
    requires client.requestBufferOffset == 0 && client.requestBufferLength <= client.requestBuffer.Length
    requires client.answerHeaderBuffer.Length == server.answerHeaderBufferSize >= ANSWER_HEADER_BUFFER_SIZE
    modifies client`state, client`answerHeaderBufferLength, client`answerHeaderBufferOffset
    modifies client`headerWrites, client`bodyWrites, client`received
    modifies client.httpRequest, client.answerHeaderBuffer, client.httpAnswer
    ensures CacheFor(client, server)
    ensures client.state == Answering ==> client.AnswerOk(server.view)
    ensures !HeaderSeen(client.requestBuffer[..client.requestBufferLength]) ==>
              unchanged(client.httpRequest) && unchanged(client.httpAnswer)
    ensures Processed(old(Snap(client)), Snap(client), server.view)
  {
    hide Folder.Valid, AllFiles, FilesOk, Client.AnswerOk, HeaderSeen, Answers;
    client.state := ProcessingRequest;
    var found := BufferContainsFullHttpHeader(client.requestBuffer, client.requestBufferOffset,
                                              client.requestBufferLength);
    if !found {
      client.state := WaitingForRequest;
      return;
    }

    var text := CString(client.requestBuffer[..]);
    var after: char := *;
    if |text| + 1 < client.requestBuffer.Length {
      after := client.requestBuffer[|text| + 1];
    }
    AnswerRequest(server, client, text, after);

    client.state := Answering;
    AnswersRequest(client, after, server.view);
  }

  lemma AnswersRequest(client: Client, after: char, v: FolderVal)
    requires client.AnswerOk(v) && ByteAfter(client.requestBuffer[..], after)
    requires client.httpRequest.header == ParsedRequest(CString(client.requestBuffer[..]), after)
    ensures Answers(client.httpAnswer.header, client.httpAnswer.content, client.requestBuffer[..], after, v)
  {
    hide HeaderText, IsAnswerTo, Answerable, ParsedFirstLine, Sent, Holds;
  }

  lemma CodeIsPossible(header: HttpHeader, content: HttpContent, text: string, after: char, v: FolderVal)
    requires Answerable(ParsedRequest(text, after))
    requires IsAnswerTo(header, content, ParsedRequest(text, after), v)
    ensures PossibleCode(header.code)
  {
    hide Walk, Components, ParsedFirstLine;
    AnswerDecision(text, after, v);
  }

  /** The content of the request buffer after `data` was read. */
  function Received(before: string, data: string): string
    requires |data| < |before|
  {
    data + ['\0'] + before[|data| + 1..]
  }

  /** Since each read is stored at the start of the buffer, only what the last one delivered is
      parsed. */
  lemma OnlyLastReadIsParsed(before: string, data: string)
    requires |data| < |before| && '\0' !in data
    ensures CString(Received(before, data)) == data
  {
    CStringUnique(Received(before, data), data);
  }

  /** A double CRLF that was in the buffer before, after the place where `size` bytes and their NUL
      are stored, and from which an even number of bytes remain to the end of the `length` first. */
  ghost predicate OldEndSeen(before: string, size: nat, length: nat)
    requires length <= |before|
  {
    exists i :: size + 4 <= i && OldEndAt(before[..length], i)
  }

  ghost predicate OldEndAt(text: string, i: int) {
    BlankLineEndsAt(text, i) && (|text| - 1 - i) % 2 == 0
  }

  /** But the end of the header is searched in as many bytes as were read since the beginning. For
      bytes ending with their only double CRLF, read after `n` others, a header is seen exactly when
      there are 18 bytes in all and `n` is even, or the buffer still has an older double CRLF at the
      right distance. */
  lemma ReadIsSeenIff(before: string, data: string, n: nat)
    requires |data| < |before| && n + |data| <= |before| && OnlyBlankLine(data, |data| - 1)
    ensures HeaderSeen(Received(before, data)[..n + |data|])
       <==> 18 <= n + |data| && (n % 2 == 0 || OldEndSeen(before, |data|, n + |data|))
  {
    var text := Received(before, data)[..n + |data|];
    forall i
      ensures BlankLineEndsAt(text, i) <==>
              i == |data| - 1 || (|data| + 4 <= i && BlankLineEndsAt(before[..n + |data|], i))
    {
      EndsAfterRead(before, data, n, i);
    }
    if OldEndSeen(before, |data|, n + |data|) {
      var i :| |data| + 4 <= i && OldEndAt(before[..n + |data|], i);
      assert BlankLineEndsAt(text, i);
    }
    if n % 2 == 0 {
      assert BlankLineEndsAt(text, |data| - 1);
    }
    if HeaderSeen(text) {
      var i :| BlankLineEndsAt(text, i) && (|text| - 1 - i) % 2 == 0;
      assert i == |data| - 1 || OldEndAt(before[..n + |data|], i);
    }
  }

  /** The double CRLF of a buffer are those of the data just read and, beyond it, the older ones. */
  lemma EndsAfterRead(before: string, data: string, n: nat, i: int)
    requires |data| < |before| && n + |data| <= |before| && OnlyBlankLine(data, |data| - 1)
    ensures BlankLineEndsAt(Received(before, data)[..n + |data|], i) <==>
            i == |data| - 1 || (|data| + 4 <= i && BlankLineEndsAt(before[..n + |data|], i))
  {
    var text := Received(before, data)[..n + |data|];
    assert forall j | 0 <= j < |data| :: text[j] == data[j];
    assert n > 0 ==> text[|data|] == '\0';
    assert forall j | |data| < j < |text| :: text[j] == before[j];
    assert BlankLineEndsAt(data, |data| - 1);
    if 3 <= i < |data| {
      assert BlankLineEndsAt(text, i) <==> BlankLineEndsAt(data, i);
    }
  }

  const FIRST_REQUEST := "GET /a HTTP/1.1\r\n\r\n"
  const SECOND_REQUEST := "GET / HTTP/1.1\r\n\r\n"

  /** For instance, in an empty buffer the first of these requests is seen, and then the second one
      is not: its client waits for an answer, and the server for the end of the request. */
  lemma SecondRequestIsMissed(size: nat)
    requires |FIRST_REQUEST| + |SECOND_REQUEST| <= size
    ensures var first := Received(seq(size, _ => '\0'), FIRST_REQUEST);
            && HeaderSeen(first[..|FIRST_REQUEST|])
            && !HeaderSeen(Received(first, SECOND_REQUEST)[..|FIRST_REQUEST| + |SECOND_REQUEST|])
  {
    hide HeaderSeen;
    var empty := seq(size, _ => '\0');
    var first := Received(empty, FIRST_REQUEST);
    var length := |FIRST_REQUEST| + |SECOND_REQUEST|;
    ReadIsSeenIff(empty, FIRST_REQUEST, 0);
    ReadIsSeenIff(first, SECOND_REQUEST, |FIRST_REQUEST|);
    forall i | |SECOND_REQUEST| + 4 <= i
      ensures !OldEndAt(first[..length], i)
    {
      if i < length {
        assert first[..length][i] == '\0';
      }
    }
  }

  const LONG_REQUEST := "GET /index.htm HTTP/1.1\r\n\r\n"

  /** Whereas this longer request leaves its end in the buffer: after it the same second request,
      although it also comes after an odd number of bytes, is seen. */
  lemma SecondRequestIsSeen(size: nat)
    requires |LONG_REQUEST| + |SECOND_REQUEST| <= size
    ensures |LONG_REQUEST| % 2 == 1
    ensures var first := Received(seq(size, _ => '\0'), LONG_REQUEST);
            && HeaderSeen(first[..|LONG_REQUEST|])
            && HeaderSeen(Received(first, SECOND_REQUEST)[..|LONG_REQUEST| + |SECOND_REQUEST|])
  {
    hide HeaderSeen;
    var empty := seq(size, _ => '\0');
    var first := Received(empty, LONG_REQUEST);
    var length := |LONG_REQUEST| + |SECOND_REQUEST|;
    ReadIsSeenIff(empty, LONG_REQUEST, 0);
    ReadIsSeenIff(first, SECOND_REQUEST, |LONG_REQUEST|);
    var i := |LONG_REQUEST| - 1;
    assert first[..length][..|LONG_REQUEST|] == LONG_REQUEST;
    assert first[..length][i] == LONG_REQUEST[i] && first[..length][i - 1] == LONG_REQUEST[i - 1];
    assert first[..length][i - 2] == LONG_REQUEST[i - 2] && first[..length][i - 3] == LONG_REQUEST[i - 3];
    assert OldEndAt(first[..length], i);
  }

  method StoreData(client: Client, data: string)
    requires client.requestBufferOffset + |data| < client.requestBuffer.Length && client.requestBufferOffset == 0
    modifies client.requestBuffer, client`requestBufferLength, client`nbReads
    ensures client.requestBuffer[..] == Received(old(client.requestBuffer[..]), data)
    ensures client.requestBufferLength == old(client.requestBufferLength) + |data|
    ensures client.nbReads == old(client.nbReads) + if data == "" then 0 else 1
  {
    forall i | 0 <= i < |data| {
      client.requestBuffer[client.requestBufferOffset + i] := data[i];
    }
    client.requestBuffer[client.requestBufferOffset + |data|] := '\0';
    client.requestBufferLength := client.requestBufferLength + |data|;
    client.nbReads := client.nbReads + if data == "" then 0 else 1;
  }

  /** How many bytes may be asked for: those not counted as read, but one for a NUL. */
  function Room(s: Snapshot): nat {
    if s.length < |s.buffer| then |s.buffer| - 1 - s.length else 0
  }

  lemma RoomOf(client: Client)
    requires client.requestBufferLength < client.requestBuffer.Length
    ensures Room(Snap(client)) == client.requestBuffer.Length - 1 - client.requestBufferLength
  {
  }

  /** A client whose buffer received some data. */
  function AfterData(before: Snapshot, data: string): Snapshot
    requires |data| < |before.buffer|
  {
    before.(buffer := Received(before.buffer, data), length := before.length + |data|, nbReads := before.nbReads + 1)
  }

  /** Stores some data and processes the request. */
  method HandleData(server: Server, client: Client, data: string)
    requires CacheFor(client, server) && client.Ok(server.view)
    requires client.requestBufferLength + |data| < client.requestBuffer.Length
    requires client.answerHeaderBuffer.Length == server.answerHeaderBufferSize >= ANSWER_HEADER_BUFFER_SIZE
    requires data != ""
    modifies client`requestBufferLength, client`nbReads, client.requestBuffer
    modifies client`state, client`answerHeaderBufferLength, client`answerHeaderBufferOffset
    modifies client`headerWrites, client`bodyWrites, client`received
    modifies client.httpRequest, client.answerHeaderBuffer, client.httpAnswer
    ensures CacheFor(client, server) && client.Ok(server.view)
    ensures Processed(AfterData(old(Snap(client)), data), Snap(client), server.view)
  {
    hide Folder.Valid, AllFiles, FilesOk, Client.AnswerOk, HeaderSeen, Received, Answers;
    StoreData(client, data);
    ProcessClientRequest(server, client);
  }

  /** Reads what the client sent: nothing means that it left, and it is removed. */
  method ReadFromClient(server: Server, client: Client, ghost k: nat) returns (data: string)
    requires server.Valid() && k < |server.list| && server.list[k] == client
    modifies server`clients, server`nbClients, server`list, server`closed, server.os
    modifies server.list`previous, server.list`next
    modifies client, client.requestBuffer, client.httpRequest, client.answerHeaderBuffer, client.httpAnswer
    ensures server.Valid()
    ensures |data| < client.requestBuffer.Length - old(client.requestBufferLength)
    ensures server.os.log == old(server.os.log)
                             + [DataRead(client.fd, Room(old(Snap(client))), data)]
                             + if data == "" then [Closed(client.fd)] else []
    ensures data == "" ==> server.list == Without(old(server.list), k)
                           && server.closed == old(server.closed) + multiset{client}
    ensures data != "" ==>
      && server.list == old(server.list) && server.closed == old(server.closed)
      && Processed(AfterData(old(Snap(client)), data), Snap(client), server.view)
  {
    hide Client.Own, Client.AnswerOk, Folder.Valid, AllFiles, FilesOk, Received, Processed;
    hide Server.Table, Server.Books, Server.CacheOk, Snap, AfterData, Room;
    ClientFacts(server, k);
    RoomOf(client);
    data := server.os.Read(client.fd, server.requestBufferSize - client.requestBufferLength - 1);
    if data == "" {
      StoreData(client, data);
      DropClient(server, client, k);
      return;
    }
    HandleData(server, client, data);
  }

  // ---------------------------------------------------------------------------
  // Writing
  // ---------------------------------------------------------------------------

  predicate HeaderIsSent(client: Client)
    reads client`answerHeaderBufferOffset, client`answerHeaderBufferLength
  {
    client.answerHeaderBufferOffset == client.answerHeaderBufferLength
  }

  /** Advances the offset after a call to `write`, and the history. */
  method RecordHeaderWrite(client: Client, n: nat, ghost taken: string, ghost v: FolderVal)
    requires client.AnswerOk(v) && client.answerHeaderBufferOffset + n <= client.answerHeaderBufferLength
    requires n < client.answerHeaderBuffer.Length && taken == client.answerHeaderBuffer[..n]
    modifies client`answerHeaderBufferOffset, client`headerWrites, client`received
    ensures client.AnswerOk(v) && taken <= HeaderText(client.httpAnswer.header)
    ensures client.answerHeaderBufferOffset == old(client.answerHeaderBufferOffset) + n
    ensures client.headerWrites == old(client.headerWrites) + [n]
    ensures client.received == old(client.received) + taken
  {
    hide HeaderText, IsAnswerTo, Answerable;
    ghost var text := HeaderText(client.httpAnswer.header);
    assert client.answerHeaderBuffer[..n] == client.answerHeaderBuffer[..|text|][..n];
    assert taken == Kept(text, n);
    ghost var body := Sent(BodyText(client.httpAnswer.content), client.bodyWrites);
    SentMore(text, client.headerWrites, n);
    assert n == 0 || body == "";
    ghost var sent := Sent(text, client.headerWrites);
    assert sent + body + Kept(text, n) == sent + Kept(text, n) + body;
    client.answerHeaderBufferOffset := client.answerHeaderBufferOffset + n;
    client.headerWrites := client.headerWrites + [n];
    client.received := client.received + taken;
  }

  /** The history of the body: the offset is not advanced. */
  ghost method RecordBodyWrite(client: Client, taken: string, v: FolderVal)
    requires client.AnswerOk(v) && HeaderIsSent(client)
    requires taken <= BodyText(client.httpAnswer.content)
    modifies client`bodyWrites, client`received
    ensures client.AnswerOk(v)
    ensures client.bodyWrites == old(client.bodyWrites) + [|taken|]
    ensures client.received == old(client.received) + taken
  {
    hide HeaderText, IsAnswerTo, Answerable, Holds;
    var text := Sent(HeaderText(client.httpAnswer.header), client.headerWrites);
    var body := BodyText(client.httpAnswer.content);
    SentMore(body, client.bodyWrites, |taken|);
    var sent := Sent(body, client.bodyWrites);
    assert taken == Kept(body, |taken|);
    assert text + sent + taken == text + (sent + taken);
    client.bodyWrites := client.bodyWrites + [|taken|];
    client.received := client.received + taken;
  }

  /** An answer whose body is nowhere: an error, or the answer to HEAD. */
  predicate NoBody(content: HttpContent) {
    content.body.None? && content.filePath.None?
  }

  /** The possible contents of an answer: no body, a body in memory, or a file. */
  lemma ContentFacts(client: Client, v: FolderVal)
    requires client.AnswerOk(v) && FilesOk(AllFiles(v))
    ensures var content := client.httpAnswer.content;
      && content.offset == 0 && content.length >= 0
      && (content.contentIsLoaded <==> content.body.Some?)
      && (content.body.Some? ==> content.filePath.None? && content.length == |content.body.value|)
  {
    hide HeaderText, Walk, Components, AllFiles, AnswerCode;
    var request := client.httpRequest.header;
    var found := FileFor(request, v);
    if found.Some? {
      WalkStaysInside(v, Components(request.requestTarget.value));
      assert FileOk(found.value);
    }
  }

  /** A call to `write` offered this text, and some of it was accepted. */
  predicate Took(event: Event, fd: int, offered: string) {
    event.Wrote? && event.fd == fd && event.offered == offered && event.data <= offered
  }

  /** A call to `write` offered this text, and the connection was found to be reset, and closed. */
  predicate WasReset(events: seq<Event>, fd: int, offered: string) {
    events == [WriteFailed(fd, offered, true), Closed(fd)]
  }

  /** A single call to `sendfile`, asked for `length` bytes, took some of the file, or found that the
      connection was reset. */
  predicate FileTaken(disk: map<string, string>, event: Event, fd: int, fileFd: int, path: string, length: int) {
    match event
    case FileSent(to, from, count, data) =>
      to == fd && from == fileFd && count == length && |data| <= count && (path in disk ==> data <= disk[path])
    case SendFailed(to, from, count, connectionReset) =>
      to == fd && from == fileFd && count == length && connectionReset
    case _ => false
  }

  /** The calls made for a body once the header is sent, and whether the client remains: it is
      removed because its connection was reset, or after its file was sent. */
  predicate BodyEvents(disk: map<string, string>, fd: int, content: HttpContent, events: seq<Event>, listed: bool) {
    if NoBody(content) then events == [] && listed
    else if content.body.Some? then
      if listed then |events| == 1 && Took(events[0], fd, content.body.value)
      else WasReset(events, fd, content.body.value)
    else
      && !listed && |events| == 4 && events[0].Opened? && events[0].path == content.filePath.value
      && FileTaken(disk, events[1], fd, events[0].fd, content.filePath.value, content.length)
      && events[2] == Closed(events[0].fd) && events[3] == Closed(fd)
  }

  /** What is offered of a header, `offset` bytes being counted as sent: as many bytes as remain, but
      from its beginning. */
  function Offered(text: string, offset: nat): string {
    if offset <= |text| then text[..|text| - offset] else ""
  }

  /** The calls made by one write step, `offset` bytes of the header being counted as sent. */
  predicate WriteEvents(disk: map<string, string>, fd: int, text: string, offset: nat, content: HttpContent,
                        events: seq<Event>, listed: bool) {
    if WasReset(events, fd, Offered(text, offset)) then !listed
    else
      && events != [] && Took(events[0], fd, Offered(text, offset)) && offset <= |text|
      && if offset + |events[0].data| < |text| then |events| == 1 && listed
         else BodyEvents(disk, fd, content, events[1..], listed)
  }

  /** The calls made for a file when one of them fails and ends the server. */
  predicate FileFails(fd: int, path: string, length: int, events: seq<Event>) {
    || events == [OpenFailed(path)]
    || (|events| == 2 && events[0].Opened? && events[0].path == path
        && events[1].SendFailed? && events[1].fd == fd && events[1].fileFd == events[0].fd
        && events[1].count == length && !events[1].connectionReset)
  }

  /** Likewise for a body. */
  predicate BodyFails(fd: int, content: HttpContent, events: seq<Event>) {
    if content.body.Some? then events == [WriteFailed(fd, content.body.value, false)]
    else content.filePath.Some? && FileFails(fd, content.filePath.value, content.length, events)
  }

  /** Likewise for a write step. */
  predicate WriteFails(fd: int, text: string, offset: nat, content: HttpContent, events: seq<Event>) {
    || events == [WriteFailed(fd, Offered(text, offset), false)]
    || (&& events != [] && Took(events[0], fd, Offered(text, offset)) && offset + |events[0].data| == |text|
        && BodyFails(fd, content, events[1..]))
  }

  /** Nothing remains to be sent after the header. */
  predicate Bodiless(content: HttpContent) {
    NoBody(content) || content.body == Some("")
  }

  /** A client after some bytes of its header were taken. */
  function AfterHeader(before: Snapshot, event: Event): Snapshot
    requires event.Wrote?
  {
    before.(headerWrites := before.headerWrites + [|event.data|], offset := before.offset + |event.data|,
            received := before.received + event.data)
  }

  /** A client after the calls made for its body. */
  function AfterBody(before: Snapshot, events: seq<Event>): Snapshot {
    before.(bodyWrites := before.bodyWrites + (if events == [] then [] else [TakenAt(events, 0)]),
            received := before.received + Delivered(events))
  }

  /** A client after a write step that leaves it listed. */
  function AfterWrite(before: Snapshot, events: seq<Event>): Snapshot {
    var offset := before.offset + TakenAt(events, 0);
    before.(headerWrites := before.headerWrites + [TakenAt(events, 0)],
            bodyWrites := before.bodyWrites + (if |events| == 1 then [] else [TakenAt(events, 1)]),
            offset := offset, received := before.received + Delivered(events),
            state := if offset == |HeaderText(before.answer)| && Bodiless(before.content)
                     then WaitingForRequest else Answering)
  }

  /** The bytes that a call sent. */
  function Payload(event: Event): string {
    match event
    case Wrote(_, _, data) => data
    case FileSent(_, _, _, data) => data
    case _ => ""
  }

  /** How many bytes a call to `write` took. */
  function TakenAt(events: seq<Event>, i: nat): nat {
    if i < |events| && events[i].Wrote? then |events[i].data| else 0
  }

  /** The bytes that some calls sent. */
  function Delivered(events: seq<Event>): string {
    if events == [] then "" else Payload(events[0]) + Delivered(events[1..])
  }

  /** When its file is sent a client is removed after a single call, and received the whole file
      exactly if this call took all of it. */
  lemma FileSentIffOneCall(disk: map<string, string>, fd: int, text: string, offset: nat, content: HttpContent,
                           events: seq<Event>, listed: bool)
    requires WriteEvents(disk, fd, text, offset, content, events, listed)
    requires content.body.None? && content.filePath.Some? && content.filePath.value in disk
    requires |disk[content.filePath.value]| == content.length
    requires |events| > 1 && events[0].Wrote?
    ensures !listed && |events| == 5 && (events[2].FileSent? || events[2].SendFailed?)
    ensures Delivered(events) == events[0].data + disk[content.filePath.value]
       <==> (if events[2].FileSent? then |events[2].data| == content.length else content.length == 0)
  {
    var file := disk[content.filePath.value];
    var first, last := events[0].data, Payload(events[2]);
    FiveEvents(events);
    assert (first + last)[|first|..] == last && (first + file)[|first|..] == file;
  }

  lemma FiveEvents(events: seq<Event>)
    requires |events| == 5 && Payload(events[1]) == Payload(events[3]) == Payload(events[4]) == ""
    ensures Delivered(events) == Payload(events[0]) + Payload(events[2])
  {
    hide Payload;
    assert Delivered(events[4..]) == "" by { assert events[4..][1..] == []; }
    assert Delivered(events[3..]) == "" by { assert events[3..][1..] == events[4..]; }
    assert Delivered(events[2..]) == Payload(events[2]) by { assert events[2..][1..] == events[3..]; }
    assert Delivered(events[1..]) == Payload(events[2]) by { assert events[1..][1..] == events[2..]; }
  }

  /** Writes what is left of the header, starting again from the beginning of its buffer. */
  method WriteHttpHeaderToClient(server: Server, client: Client, ghost k: nat)
    returns (sent: bool, exited: bool, ghost listed: bool, ghost event: Event)
    requires server.Valid() && k < |server.list| && server.list[k] == client && client.state == Answering
    modifies server`clients, server`nbClients, server`list, server`closed, server.os
    modifies server.list`previous, server.list`next
    modifies client`answerHeaderBufferOffset, client`headerWrites, client`received
    ensures server.Valid() && (sent ==> !exited && listed)
    ensures exited ==> listed
    ensures if listed then server.list == old(server.list) && server.closed == old(server.closed)
            else server.list == Without(old(server.list), k)
                 && server.closed == old(server.closed) + multiset{client}
    ensures server.os.log == old(server.os.log) + [event] + if listed then [] else [Closed(client.fd)]
    ensures
      var text, offset := HeaderText(client.httpAnswer.header), old(client.answerHeaderBufferOffset);
      && offset <= |text|
      && (exited ==> event == WriteFailed(client.fd, Offered(text, offset), false))
      && (!listed ==> event == WriteFailed(client.fd, Offered(text, offset), true))
      && (listed && !exited ==>
           && client.state == Answering && Took(event, client.fd, Offered(text, offset))
           && offset + |event.data| <= |text| && Snap(client) == AfterHeader(old(Snap(client)), event)
           && (sent <==> offset + |event.data| == |text|)
           && (sent <==> HeaderIsSent(client)))
  {
    hide Server.Valid, Client.AnswerOk, HeaderText;
    ListedFacts(server, k);
    var nbBytesToSend := client.answerHeaderBufferLength - client.answerHeaderBufferOffset;
    var data := client.answerHeaderBuffer[..nbBytesToSend];
    var nbBytesSent, connectionReset := server.os.Write(client.fd, data);
    event := server.os.log[|server.os.log| - 1];
    if nbBytesSent < 0 {
      if connectionReset {
        DropListed(server, client, k);
        return false, false, false, event;
      }
      return false, true, true, event;
    }
    assert data[..nbBytesSent] == client.answerHeaderBuffer[..nbBytesSent];
    HeaderBytesAccepted(server, client, k, nbBytesSent, data[..nbBytesSent]);
    return HeaderIsSent(client), false, true, event;
  }

  lemma ListedFacts(server: Server, k: nat)
    requires server.Valid() && k < |server.list|
    ensures var client := server.list[k];
      && client.fd in server.os.open && server.cache.Valid() && server.os !in server.cache.Repr
      && (client.state == Answering ==>
           && client.AnswerOk(server.view)
           && client.answerHeaderBufferOffset <= client.answerHeaderBufferLength < client.answerHeaderBuffer.Length
           && client.answerHeaderBufferLength == |HeaderText(client.httpAnswer.header)|
           && client.answerHeaderBuffer[..client.answerHeaderBufferLength - client.answerHeaderBufferOffset]
              == Offered(HeaderText(client.httpAnswer.header), client.answerHeaderBufferOffset))
  {
    hide HeaderText, IsAnswerTo, Answerable, Sent, Sum, FilesOk, AllFiles;
    var client := server.list[k];
    if client.state == Answering {
      var text := HeaderText(client.httpAnswer.header);
      var n := |text| - client.answerHeaderBufferOffset;
      assert client.answerHeaderBuffer[..n] == client.answerHeaderBuffer[..|text|][..n];
    }
  }

  /** Removes a client that is in a proper state. */
  method DropListed(server: Server, client: Client, ghost k: nat)
    requires server.Valid() && k < |server.list| && server.list[k] == client
    modifies server`clients, server`nbClients, server`list, server`closed, server.os
    modifies server.list`previous, server.list`next
    ensures server.Valid() && server.list == Without(old(server.list), k)
    ensures server.closed == old(server.closed) + multiset{client}
    ensures server.os.log == old(server.os.log) + [Closed(client.fd)]
  {
    hide Separate, Chained, Client.Own, Client.Ok, Folder.Valid, AllFiles, FilesOk;
    DropClient(server, client, k);
  }

  method HeaderBytesAccepted(server: Server, client: Client, ghost k: nat, n: nat, ghost taken: string)
    requires server.Valid() && k < |server.list| && server.list[k] == client && client.state == Answering
    requires client.answerHeaderBufferOffset + n <= client.answerHeaderBufferLength < client.answerHeaderBuffer.Length
    requires taken == client.answerHeaderBuffer[..n]
    modifies client`answerHeaderBufferOffset, client`headerWrites, client`received
    ensures server.Valid() && server.cache.Valid() && client.AnswerOk(server.view)
    ensures client.answerHeaderBufferOffset == old(client.answerHeaderBufferOffset) + n
    ensures client.answerHeaderBufferLength == |HeaderText(client.httpAnswer.header)|
    ensures client.headerWrites == old(client.headerWrites) + [n]
    ensures client.received == old(client.received) + taken && taken <= HeaderText(client.httpAnswer.header)
  {
    hide Client.Own, Client.AnswerOk, Folder.Valid, AllFiles, FilesOk, Server.Table, Server.Books, Server.CacheOk,
         HeaderText;
    ClientFacts(server, k);
    RecordHeaderWrite(client, n, taken, server.view);
    HeaderLength(client, server.view);
  }

  lemma HeaderLength(client: Client, v: FolderVal)
    requires client.AnswerOk(v)
    ensures client.answerHeaderBufferLength == |HeaderText(client.httpAnswer.header)|
  {
  }

  method BodyBytesAccepted(server: Server, client: Client, ghost k: nat, ghost taken: string)
    requires server.Valid() && k < |server.list| && server.list[k] == client && client.state == Answering
    requires HeaderIsSent(client) && taken <= BodyText(client.httpAnswer.content)
    modifies client`bodyWrites, client`received
    ensures server.Valid() && server.cache.Valid() && client.AnswerOk(server.view)
    ensures client.bodyWrites == old(client.bodyWrites) + [|taken|]
    ensures client.received == old(client.received) + taken
  {
    hide Client.Own, Client.AnswerOk, Folder.Valid, AllFiles, FilesOk, Server.Table, Server.Books, Server.CacheOk;
    ClientFacts(server, k);
    RecordBodyWrite(client, taken, server.view);
  }

  /** Sends a file. The test made after the call is about the header, not about the file: once
      the header is sent, the descriptor of the file is closed and the client is removed, after
      a single call and however many bytes it took. */
  method SendFileToClient(server: Server, client: Client, ghost k: nat)
    returns (exited: bool, ghost listed: bool, ghost events: seq<Event>)
    requires server.Valid() && k < |server.list| && server.list[k] == client
    requires client.httpAnswer.content.length - client.httpAnswer.content.offset >= 0
    requires client.httpAnswer.content.filePath.Some?
    modifies server`clients, server`nbClients, server`list, server`closed, server.os
    modifies server.list`previous, server.list`next
    modifies client.httpAnswer`content
    ensures server.os.log == old(server.os.log) + events
    ensures exited ==>
      var content := old(client.httpAnswer.content);
      && server.Closable() && listed
      && FileFails(client.fd, content.filePath.value, content.length - content.offset, events)
    ensures if listed then server.list == old(server.list) && server.closed == old(server.closed)
            else server.list == Without(old(server.list), k)
                 && server.closed == old(server.closed) + multiset{client}
    ensures !exited ==>
      var content := old(client.httpAnswer.content);
      && |events| >= 2
      && events[0].Opened? && events[0].path == content.filePath.value
      && FileTaken(server.os.disk, events[1], client.fd, events[0].fd, content.filePath.value,
                   content.length - content.offset)
      && (!listed <==> old(HeaderIsSent(client)) || events[1].SendFailed?)
      && (!listed ==> server.Valid() && events[2..] == [Closed(events[0].fd), Closed(client.fd)])
      && (listed ==> |events| == 2 && server.os.open == old(server.os.open) + {events[0].fd}
                     && client.httpAnswer.content == content.(offset := content.offset + |events[1].data|))
  {
    hide Server.Valid, Client.AnswerOk, AllFiles, FilesOk, Server.Table, Fds, Without;
    ListedFacts(server, k);
    ValidIsClosable(server);
    var content := client.httpAnswer.content;
    listed, events := true, [];
    var fileFd := server.os.OpenFile(content.filePath.value);
    if fileFd < 0 {
      return true, listed, [OpenFailed(content.filePath.value)];
    }
    var nbBytesSent, connectionReset, data :=
      server.os.SendFile(client.fd, fileFd, content.filePath.value, content.length - content.offset);
    events := [Opened(content.filePath.value, fileFd), server.os.log[|server.os.log| - 1]];
    assert server.os.log == old(server.os.log) + events;
    if nbBytesSent < 0 && !connectionReset {
      return true, listed, events;
    }
    if HeaderIsSent(client) || (nbBytesSent < 0 && connectionReset) {
      server.os.Close(fileFd);
      assert server.os.open == old(server.os.open);
      DropListed(server, client, k);
      events := events + [Closed(fileFd), Closed(client.fd)];
      return false, false, events;
    }
    client.httpAnswer.content := content.(offset := content.offset + nbBytesSent);
    return false, listed, events;
  }

  /** Writes the body kept in memory: again from its beginning, since the offset stays 0. */
  method WriteBodyToClient(server: Server, client: Client, ghost k: nat, data: string)
    returns (exited: bool, listed: bool, ghost events: seq<Event>)
    requires server.Valid() && k < |server.list| && server.list[k] == client && client.state == Answering
    requires HeaderIsSent(client) && client.httpAnswer.content.body == Some(data)
    modifies server`clients, server`nbClients, server`list, server`closed, server.os
    modifies server.list`previous, server.list`next
    modifies client`bodyWrites, client`received
    ensures server.Valid() && (exited ==> listed && events == [WriteFailed(client.fd, data, false)])
    ensures if listed then server.list == old(server.list) && server.closed == old(server.closed)
            else server.list == Without(old(server.list), k)
                 && server.closed == old(server.closed) + multiset{client}
    ensures server.os.log == old(server.os.log) + events
    ensures !listed ==> WasReset(events, client.fd, data)
    ensures listed && !exited ==>
      && |events| == 1 && Took(events[0], client.fd, data) && client.AnswerOk(server.view)
      && Snap(client) == AfterBody(old(Snap(client)), events)
  {
    hide Server.Valid, Client.AnswerOk, AllFiles, FilesOk;
    BodyFacts(server, k);
    var nbBytesSent, connectionReset := server.os.Write(client.fd, data);
    listed, events := true, [server.os.log[|server.os.log| - 1]];
    if nbBytesSent < 0 {
      if connectionReset {
        DropListed(server, client, k);
        return false, false, events + [Closed(client.fd)];
      }
      return true, listed, events;
    }
    BodyBytesAccepted(server, client, k, data[..nbBytesSent]);
    DeliveredByOne(events[0]);
    assert events == [events[0]];
    return false, listed, events;
  }

  lemma NothingForBody(s: Snapshot)
    ensures AfterBody(s, []) == s
  {
    assert s.bodyWrites + [] == s.bodyWrites && s.received + "" == s.received;
  }

  lemma DeliveredByOne(event: Event)
    requires event.Wrote?
    ensures Delivered([event]) == event.data && Delivered([]) == ""
  {
    var events := [event];
    assert events[1..] == [];
  }

  /** Writes the body, or sends the file that holds it. */
  method WriteHttpContentToClient(server: Server, client: Client, ghost k: nat)
    returns (sent: bool, exited: bool, ghost listed: bool, ghost events: seq<Event>)
    requires server.Valid() && k < |server.list| && server.list[k] == client && client.state == Answering
    requires HeaderIsSent(client)
    modifies server`clients, server`nbClients, server`list, server`closed, server.os
    modifies server.list`previous, server.list`next
    modifies client`bodyWrites, client`received, client.httpAnswer`content
    ensures server.os.log == old(server.os.log) + events
    ensures exited ==>
      server.Closable() && listed && BodyFails(client.fd, old(client.httpAnswer.content), events)
    ensures if listed then server.list == old(server.list) && server.closed == old(server.closed)
            else server.list == Without(old(server.list), k)
                 && server.closed == old(server.closed) + multiset{client}
    ensures !exited ==>
      var content := old(client.httpAnswer.content);
      && server.Valid()
      && BodyEvents(server.os.disk, client.fd, content, events, listed)
      && (sent <==> listed && Bodiless(content))
      && (listed ==>
           && client.state == Answering && client.AnswerOk(server.view)
           && Snap(client) == AfterBody(old(Snap(client)), events))
  {
    hide Server.Valid, Server.Closable, Client.AnswerOk, AllFiles, FilesOk, Without, Snap, AfterBody;
    BodyFacts(server, k);
    ListedFacts(server, k);
    NothingForBody(Snap(client));
    var content := client.httpAnswer.content;
    listed, events := true, [];
    if content.contentIsLoaded {
      if content.body.None? {
        return true, false, listed, events;
      }
      assert content.body.value[..content.length - content.offset] == content.body.value;
      var remains;
      exited, remains, events :=
        WriteBodyToClient(server, client, k, content.body.value[..content.length - content.offset]);
      ValidIsClosable(server);
      if exited || !remains {
        return false, exited, remains, events;
      }
      return content.offset == content.length, false, remains, events;
    } else {
      if content.filePath.None? {
        return true, false, listed, events;
      }
      exited, listed, events := SendFileToClient(server, client, k);
      return false, exited, listed, events;
    }
  }

  lemma ValidIsClosable(server: Server)
    requires server.Valid()
    ensures server.Closable()
  {
    hide Client.Ok, AllFiles, FilesOk, Folder.Valid, Chained, Separate;
  }

  lemma BodyFacts(server: Server, k: nat)
    requires server.Valid() && k < |server.list| && server.list[k].state == Answering
    ensures server.list[k].fd in server.os.open && server.cache.Valid() && server.os !in server.cache.Repr
    ensures var content := server.list[k].httpAnswer.content;
      && content.offset == 0 && content.length >= 0
      && (content.contentIsLoaded ==> content.filePath.None?) && (content.body.Some? ==> content.contentIsLoaded)
      && (content.body.Some? ==> content.length == |content.body.value|)
  {
    hide Client.AnswerOk, Folder.Valid, AllFiles, FilesOk, Chained, Separate;
    ListedFacts(server, k);
    ContentFacts(server.list[k], server.view);
  }

  /** Writes what can be written of an answer: the header first and then, in the same step if it
      is complete, the body. */
  method WriteToClient(server: Server, client: Client, ghost k: nat)
    returns (exited: bool, ghost listed: bool, ghost events: seq<Event>)
    requires server.Valid() && k < |server.list| && server.list[k] == client && client.state == Answering
    modifies server`clients, server`nbClients, server`list, server`closed, server.os
    modifies server.list`previous, server.list`next
    modifies client`state, client`answerHeaderBufferOffset, client`headerWrites
    modifies client`bodyWrites, client`received, client.httpAnswer`content
    ensures server.os.log == old(server.os.log) + events
    ensures exited ==>
      && server.Closable() && listed
      && WriteFails(client.fd, HeaderText(client.httpAnswer.header), old(client.answerHeaderBufferOffset),
                    old(client.httpAnswer.content), events)
    ensures if listed then server.list == old(server.list) && server.closed == old(server.closed)
            else server.list == Without(old(server.list), k)
                 && server.closed == old(server.closed) + multiset{client}
    ensures !exited ==>
      && server.Valid()
      && WriteEvents(server.os.disk, client.fd, HeaderText(client.httpAnswer.header),
                     old(client.answerHeaderBufferOffset), old(client.httpAnswer.content), events, listed)
      && (listed ==> client.AnswerOk(server.view) && Snap(client) == AfterWrite(old(Snap(client)), events))
  {
    hide Server.Valid, Server.Closable, Client.AnswerOk, AllFiles, FilesOk, HeaderText, BodyEvents, NoBody,
         WriteEvents, Delivered, Without, HeaderIsSent, AfterWrite, TakenAt, Offered, Bodiless, BodyFails,
         WriteFails, AfterBody, AfterHeader;
    BodyFacts(server, k);
    ghost var before := Snap(client);
    var headerIsSent;
    ghost var event;
    events := [];
    headerIsSent, exited, listed, event := WriteHttpHeaderToClient(server, client, k);
    if exited {
      ValidIsClosable(server);
      events := [event];
      HeaderFails(client.fd, before, event);
      return;
    }
    ghost var bodyEvents: seq<Event> := [];
    var bodyIsSent := false;
    if headerIsSent {
      assert server.os.log == old(server.os.log) + [event];
      bodyIsSent, exited, listed, bodyEvents := WriteHttpContentToClient(server, client, k);
      if exited {
        events := [event] + bodyEvents;
        BodyStepFails(client.fd, before, event, bodyEvents);
        return;
      }
    } else if listed {
      ListedFacts(server, k);
    }
    events := [event] + (if event.Wrote? then bodyEvents else [Closed(client.fd)]);
    if headerIsSent && bodyIsSent {
      BackToWaiting(server, client, k);
    }
    StepIsWrite(server.os.disk, client.fd, before, event, bodyEvents, listed);
  }

  lemma HeaderFails(fd: int, before: Snapshot, event: Event)
    requires event == WriteFailed(fd, Offered(HeaderText(before.answer), before.offset), false)
    ensures WriteFails(fd, HeaderText(before.answer), before.offset, before.content, [event])
  {
  }

  lemma BodyStepFails(fd: int, before: Snapshot, event: Event, bodyEvents: seq<Event>)
    requires Took(event, fd, Offered(HeaderText(before.answer), before.offset))
    requires before.offset + |event.data| == |HeaderText(before.answer)|
    requires BodyFails(fd, before.content, bodyEvents)
    ensures WriteFails(fd, HeaderText(before.answer), before.offset, before.content, [event] + bodyEvents)
  {
    hide HeaderText, BodyFails;
    assert ([event] + bodyEvents)[1..] == bodyEvents;
  }

  /** A call for the header then, if it is complete, those for the body, make a step. */
  lemma StepIsWrite(disk: map<string, string>, fd: int, before: Snapshot, event: Event, bodyEvents: seq<Event>,
                    listed: bool)
    requires before.offset <= |HeaderText(before.answer)|
    requires var offered := Offered(HeaderText(before.answer), before.offset);
      if event == WriteFailed(fd, offered, true) then bodyEvents == [] && !listed
      else
        && Took(event, fd, offered)
        && if before.offset + |event.data| < |HeaderText(before.answer)| then bodyEvents == [] && listed
           else BodyEvents(disk, fd, before.content, bodyEvents, listed)
    ensures var events := [event] + (if event.Wrote? then bodyEvents else [Closed(fd)]);
      && WriteEvents(disk, fd, HeaderText(before.answer), before.offset, before.content, events, listed)
      && (listed ==>
           var offset := before.offset + |event.data|;
           && event.Wrote?
           && (bodyEvents == [] ==>
                 AfterBody(AfterHeader(before, event), bodyEvents) == AfterHeader(before, event))
           && AfterWrite(before, events) ==
              AfterBody(AfterHeader(before, event), bodyEvents)
              .(state := if offset == |HeaderText(before.answer)| && Bodiless(before.content)
                         then WaitingForRequest else Answering))
  {
    hide HeaderText;
    var events := [event] + bodyEvents;
    assert events[0] == event && events[1..] == bodyEvents;
    assert before.bodyWrites + [] == before.bodyWrites;
    assert listed ==> before.received + event.data + "" == before.received + event.data;
    var rest := Delivered(bodyEvents);
    assert event.Wrote? ==> before.received + (event.data + rest) == before.received + event.data + rest;
  }

  method BackToWaiting(server: Server, client: Client, ghost k: nat)
    requires server.Valid() && k < |server.list| && server.list[k] == client && client.AnswerOk(server.view)
    modifies client`state
    ensures server.Valid() && client.AnswerOk(server.view)
    ensures Snap(client) == old(Snap(client)).(state := WaitingForRequest)
  {
    hide Client.Own, Client.AnswerOk, Folder.Valid, AllFiles, FilesOk, Server.Table, Server.Books, Server.CacheOk;
    ClientFacts(server, k);
    client.state := WaitingForRequest;
  }
}
