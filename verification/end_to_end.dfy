/** Results that involve the whole path of a request, from the directory the cache was built from
    to the bytes received by a client. */
module EndToEnd {
  import opened Toolbox
  import opened Subprocess
  import opened Disk
  import opened CacheSpec
  import opened Lookup
  import opened BuildLookup
  import opened DiskLookup
  import opened HttpTypes
  import opened RequestParsing
  import opened Http
  import opened HttpRoundTrip
  import opened Sending
  import opened ClientTable
  import opened Serving
  import opened OperatingSystem
  import opened EventLoop
  import opened Runs

  /** The text of a request for a target, whatever follows its first line. */
  function RequestText(m: HttpMethod, target: string, rest: string): string {
    FirstLine(MethodName(m), " ", target, " ", "HTTP/1.1", "", "\r\n" + rest)
  }

  /** What an answer giving a file tells about it: its size, its type and its compression, and
      for GET its content, or its path if it is not in memory. */
  ghost predicate Gives(header: HttpHeader, content: HttpContent, m: HttpMethod, f: FileVal) {
    && header.code == Http200 && header.version == Http11
    && header.contentLength == f.size && header.contentType == f.mime
    && header.contentEncoding == Some(if f.state == LoadedCompressed then "gzip" else "identity")
    && header.server == Some("MyAwesomeWebServer") && header.date.Some?
    && (m == Head ==> NoBody(content))
    && (m == Get ==> content.length == f.size && content.body == f.content
                     && content.filePath == if f.state == NotLoaded then Some(f.path) else None)
  }

  /** What is said in memory of the file at index `k` of a directory: its name and type, and the bytes
      of the file, or what was kept of its gzip form if it has 64 bytes or more, or nothing when it is
      larger than the space left by the files before it. */
  ghost predicate Holdings(items: seq<Item>, free: int, k: nat, f: FileVal, e: Entry) {
    && KeptAt(items, free, k, f, e)
    && (f.state == NotLoaded <==> |e.data| > free - Held(Greedy(items, free)[..k]))
    && (f.state == LoadedRaw <==> |e.data| <= free - Held(Greedy(items, free)[..k]) && |e.data| < 64)
    && f.name == e.name && f.mime == MimeType(e.mime)
    && f.content == (match f.state
                     case NotLoaded => None
                     case LoadedRaw => Some(e.data)
                     case LoadedCompressed => Some(Kept(e.gzip, |e.data|)))
    && (f.state == NotLoaded ==> f.size == |e.data|)
  }

  /** Asking for a regular file of the directory, by its names joined by slashes, is answered with
      what the cache keeps of this very file: its header for HEAD, its header and its content for
      GET. */
  lemma EveryFileIsServed(entries: seq<Entry>, root: string, free: int, names: seq<string>, e: Entry,
                          m: HttpMethod, rest: string, after: char, header: HttpHeader, content: HttpContent)
    returns (f: FileVal, k: nat)
    requires root != "" && WellNamed(entries) && (m == Get || m == Head)
    requires names != [] && OnDisk(entries, names, e)
    requires var target := "/" + Join(names); IsToken(target) && |target| <= MAX_PATH_LENGTH
    ensures AllProper(names) && Holdings(Flatten(entries, root), free, k, f, e)
    ensures var v := Build(entries, root, free);
            var request := ParsedRequest(RequestText(m, "/" + Join(names), rest), after);
            && Answerable(request) && FileFor(request, v) == Some(f) && AnswerCode(request, v) == Http200
            && (IsAnswerTo(header, content, request, v) ==> Gives(header, content, m, f))
  {
    hide Build, At, WellNamed, Walk, Components, ParsedFirstLine, FirstLine, MethodName, Coherent, OnDisk, Join,
         IsToken, KeptAt, Flatten, AllProper;
    var target := "/" + Join(names);
    f, k := DiskFileIsFound(entries, root, free, names, e);
    assert VersionName(Http11) == "HTTP/1.1";
    RequestLineRoundTrip(m, target, Http11, " ", " ", "", rest, after);
    BuiltFileIsOk(entries, root, free, f, Components(target));
    FieldsOfFile(f);
    ContentOfFile(Flatten(entries, root), free, k, f, e);
  }

  lemma ContentOfFile(items: seq<Item>, free: int, k: nat, f: FileVal, e: Entry)
    requires KeptAt(items, free, k, f, e)
    ensures Holdings(items, free, k, f, e)
  {
    hide Greedy;
    KeptFile(items, free, k, f, e);
  }

  lemma BuiltFileIsOk(entries: seq<Entry>, root: string, free: int, f: FileVal, names: seq<string>)
    requires root != "" && names != []
    requires Walk(Build(entries, root, free), names) == Some(f)
    ensures Coherent(f)
  {
    hide Coherent, Walk;
    BuildFilesOk(entries, root, free);
    WalkStaysInside(Build(entries, root, free), names);
  }

  lemma FieldsOfFile(f: FileVal)
    requires Coherent(f)
    ensures f.encoding == Gzip <==> f.state == LoadedCompressed
    ensures f.content.Some? <==> f.state != NotLoaded
  {
  }

  /** The shortest requests have the 18 bytes asked for. */
  lemma RequestIsLong(m: HttpMethod, target: string, rest: string)
    requires (m == Get || m == Head) && |target| >= 2
    requires var data := RequestText(m, target, rest); BlankLineEndsAt(data, |data| - 1)
    ensures HTTP_HEADER_MIN_LENGTH <= |RequestText(m, target, rest)|
  {
    RequestEnd(m, target);
  }

  lemma RequestEnd(m: HttpMethod, target: string)
    ensures var data := RequestText(m, target, ""); !BlankLineEndsAt(data, |data| - 1)
  {
    var data := RequestText(m, target, "");
    assert data == (MethodName(m) + " " + target + " ") + "HTTP/1.1\r\n";
    assert data[|data| - 3] == "HTTP/1.1\r\n"[7];
  }

  lemma JoinNotEmpty(names: seq<string>)
    requires names != [] && AllProper(names)
    ensures Join(names) != ""
  {
    assert ProperName(names[0]);
  }

  /** What becomes of bytes ending with their only double CRLF, read at once after `n` other bytes.
      They are answered exactly if there are 18 bytes in all and `n` is even, or the buffer still has
      an older double CRLF at the right distance; and then as if nothing had come before them. So a
      request that arrives in several pieces is answered as its last piece alone would be. */
  lemma ReadIsAnswered(before: Snapshot, data: string, after: Snapshot, v: FolderVal) returns (byte: char)
    requires '\0' !in data && OnlyBlankLine(data, |data| - 1) && |data| <= Room(before)
    requires Processed(AfterData(before, data), after, v)
    ensures var n := before.length;
            after.state == Answering <==>
              && 18 <= n + |data|
              && (n % 2 == 0 || OldEndSeen(before.buffer, |data|, n + |data|))
    ensures after.state == Answering ==>
      && after == AfterAnswer(AfterData(before, data), after.answer, after.content)
      && (|data| + 1 < |before.buffer| ==> byte == before.buffer[|data| + 1])
      && Answerable(ParsedRequest(data, byte))
      && IsAnswerTo(after.answer, after.content, ParsedRequest(data, byte), v)
  {
    hide ParsedFirstLine, HeaderSeen, OldEndSeen, IsAnswerTo, Answerable;
    OnlyLastReadIsParsed(before.buffer, data);
    ReadIsSeenIff(before.buffer, data, before.length);
    byte := '\0';
    if after.state == Answering {
      byte :| Answers(after.answer, after.content, AfterData(before, data).buffer, byte, v);
    }
  }

  /** These bytes were read from the client at position `i` of a round. */
  ghost predicate WasRead(r: Record, i: nat, data: string) {
    && i < |r.report.orig| == |r.calls| == |r.after| == |r.report.before|
    && r.calls[i] != [] && r.calls[i][0].DataRead? && r.calls[i][0].data == data
  }

  /** A step that begins with a read is a read. */
  lemma WhatWasRead(r: Record, i: nat, data: string)
    requires r.Valid() && WasRead(r, i, data) && data != ""
    ensures r.report.orig[i] in r.list && |data| <= Room(r.report.before[i])
    ensures Processed(AfterData(r.report.before[i], data), r.after[i], r.report.setting.view)
  {
    hide Processed, HeaderText, PossibleReport, EntryFor;
    assert r.report.Served(i, r.list, r.after[i], r.calls[i]);
  }

  /** From the bytes a client sent to its answer, in any round of a run: a request for a file, read at
      once after `n` bytes had been read, is answered exactly if `n` is even, or the buffer still has
      the end of a longer request at the right distance, and then the answer gives this file. In
      particular the first request of a client is answered. */
  lemma RequestIsServed(entries: seq<Entry>, root: string, free: int, names: seq<string>, e: Entry,
                        m: HttpMethod, rest: string, r: Record, i: nat)
    returns (f: FileVal, k: nat)
    requires root != "" && WellNamed(entries) && (m == Get || m == Head)
    requires names != [] && OnDisk(entries, names, e)
    requires var target := "/" + Join(names); IsToken(target) && |target| <= MAX_PATH_LENGTH
    requires var data := RequestText(m, "/" + Join(names), rest);
             '\0' !in data && OnlyBlankLine(data, |data| - 1) && WasRead(r, i, data)
    requires r.Valid() && r.report.setting.view == Build(entries, root, free)
    ensures Holdings(Flatten(entries, root), free, k, f, e)
    ensures r.report.orig[i] in r.list
    ensures var data, before := RequestText(m, "/" + Join(names), rest), r.report.before[i];
            && before.length + |data| < |before.buffer|
            && (r.after[i].state == Answering <==>
                  before.length % 2 == 0 || OldEndSeen(before.buffer, |data|, before.length + |data|))
    ensures r.after[i].state == Answering ==>
      && Gives(r.after[i].answer, r.after[i].content, m, f)
      && r.after[i].offset == 0 && r.after[i].received == ""
  {
    hide Build, WellNamed, ParsedFirstLine, FirstLine, OnDisk, IsToken, Flatten, Holdings, Gives, FileFor,
         AnswerCode, AllProper, BlankLineEndsAt, OldEndSeen, RequestText, Join, Processed, Record.Valid;
    var data := RequestText(m, "/" + Join(names), rest);
    var v, after := Build(entries, root, free), r.after[i];
    f, k := EveryFileIsServed(entries, root, free, names, e, m, rest, '\0', after.answer, after.content);
    JoinNotEmpty(names);
    RequestIsLong(m, "/" + Join(names), rest);
    WhatWasRead(r, i, data);
    var byte := ReadIsAnswered(r.report.before[i], data, after, v);
    f, k := EveryFileIsServed(entries, root, free, names, e, m, rest, byte, after.answer, after.content);
  }

  // ---------------------------------------------------------------------------
  // From the request to the bytes received
  // ---------------------------------------------------------------------------

  /** Each call took all that it was offered, or asked to send. */
  predicate TookAll(event: Event) {
    match event
    case Wrote(_, offered, data) => data == offered
    case FileSent(_, _, count, data) => |data| == count
    case WriteFailed(_, _, _) => false
    case SendFailed(_, _, _, _) => false
    case _ => true
  }

  /** The body that an answer announces. */
  function WholeBody(content: HttpContent, disk: map<string, string>): string {
    if content.body.Some? then content.body.value
    else if content.filePath.Some? && content.filePath.value in disk then disk[content.filePath.value]
    else ""
  }

  /** When the calls of the first write step take all, the header and the body are sent. */
  lemma WholeAnswerSent(disk: map<string, string>, fd: int, text: string, content: HttpContent,
                        events: seq<Event>, listed: bool)
    requires WriteEvents(disk, fd, text, 0, content, events, listed) && forall event | event in events :: TookAll(event)
    requires content.body.None? && content.filePath.Some? ==>
      content.filePath.value in disk && |disk[content.filePath.value]| == content.length
    ensures Delivered(events) == text + WholeBody(content, disk)
  {
    var rest := events[1..];
    assert TookAll(events[0]);
    assert Offered(text, 0) == text;
    if NoBody(content) {
      DeliveredByOne(events[0]);
      assert events == [events[0]];
    } else if content.body.Some? {
      assert rest[0] == events[1] && TookAll(events[1]);
      DeliveredByOne(rest[0]);
      assert rest == [rest[0]];
    } else {
      assert rest[1] == events[2] && TookAll(events[2]);
      assert events[1] == rest[0] && events[3] == rest[2] && events[4] == rest[3];
      FiveEvents(events);
    }
  }

  /** The files of the disk, by path, as they were when the cache was built. */
  ghost predicate DiskHolds(disk: map<string, string>, items: seq<Item>) {
    forall k | 0 <= k < |items| :: items[k].path in disk && disk[items[k].path] == items[k].data
  }

  /** What a client that asked for a file should receive after the header. */
  function BodyOf(m: HttpMethod, f: FileVal, e: Entry): string
    requires e.RegularFile?
  {
    if m == Head then "" else if f.state == LoadedCompressed then Kept(e.gzip, |e.data|) else e.data
  }

  lemma BodyIsThatOfFile(m: HttpMethod, header: HttpHeader, content: HttpContent, f: FileVal, e: Entry,
                         items: seq<Item>, free: int, k: nat, disk: map<string, string>)
    requires (m == Get || m == Head) && Gives(header, content, m, f)
    requires Holdings(items, free, k, f, e) && DiskHolds(disk, items)
    ensures WholeBody(content, disk) == BodyOf(m, f, e)
    ensures content.body.None? && content.filePath.Some? ==>
      content.filePath.value in disk && |disk[content.filePath.value]| == content.length
  {
    hide Greedy;
    assert items[k].path in disk && disk[items[k].path] == items[k].data;
  }

  /** The whole exchange: a client whose request for a file was answered in a round, and to which the
      next round could write at once all it was offered, received exactly the header of its answer and
      the content of this file: what was kept of its gzip form if this is announced, and otherwise its
      bytes, from memory or from the disk. */
  lemma FileIsReceived(entries: seq<Entry>, root: string, free: int, names: seq<string>, e: Entry,
                       m: HttpMethod, rest: string, r: Record, i: nat, s: Record, j: nat)
    returns (f: FileVal, k: nat)
    requires root != "" && WellNamed(entries) && (m == Get || m == Head)
    requires names != [] && OnDisk(entries, names, e)
    requires var target := "/" + Join(names); IsToken(target) && |target| <= MAX_PATH_LENGTH
    requires var data := RequestText(m, "/" + Join(names), rest);
             '\0' !in data && OnlyBlankLine(data, |data| - 1) && WasRead(r, i, data)
    requires r.Valid() && r.report.setting.view == Build(entries, root, free) && r.after[i].state == Answering
    requires s.Valid() && r.Continues(s.report.orig, s.report.before) && r.report.setting == s.report.setting
    requires j < |s.report.orig| == |s.calls| && s.report.orig[j] == r.report.orig[i] && s.report.Sized()
    requires s.report.Due(j) == WriteAnswer && forall event | event in s.calls[j] :: TookAll(event)
    requires DiskHolds(r.report.setting.disk, Flatten(entries, root))
    ensures Holdings(Flatten(entries, root), free, k, f, e)
    ensures Gives(r.after[i].answer, r.after[i].content, m, f)
    ensures Delivered(s.calls[j]) == HeaderText(r.after[i].answer) + BodyOf(m, f, e)
  {
    hide Build, WellNamed, OnDisk, IsToken, Flatten, Holdings, Gives, OldEndSeen, OnlyBlankLine, RequestText, Join,
         Record.Valid, HeaderText, TookAll, DiskHolds, WriteEvents, Delivered, WholeBody, BodyOf;
    f, k := RequestIsServed(entries, root, free, names, e, m, rest, r, i);
    var answer, content := r.after[i].answer, r.after[i].content;
    var listed := WhatIsWritten(s, j);
    assert s.report.before[j] == r.after[i];
    BodyIsThatOfFile(m, answer, content, f, e, Flatten(entries, root), free, k, r.report.setting.disk);
    WholeAnswerSent(r.report.setting.disk, s.report.orig[j].fd, HeaderText(answer), content, s.calls[j], listed);
  }

  lemma WhatIsWritten(s: Record, j: nat) returns (listed: bool)
    requires s.Valid() && s.report.Sized() && j < |s.report.orig| == |s.calls| && s.report.Due(j) == WriteAnswer
    ensures var before := s.report.before[j];
            WriteEvents(s.report.setting.disk, s.report.orig[j].fd, HeaderText(before.answer), before.offset,
                        before.content, s.calls[j], listed)
  {
    hide HeaderText, WriteEvents, PossibleReport, EntryFor, Processed;
    assert s.report.Served(j, s.list, s.after[j], s.calls[j]);
    listed := s.report.orig[j] in s.list;
  }

  /** Conversely, an answer with the code 200 gives the file whose position is the list of names
      of the target. */
  lemma OnlyFilesAreServed(entries: seq<Entry>, root: string, free: int, text: string, after: char)
    requires root != "" && WellNamed(entries)
    ensures var v := Build(entries, root, free);
            var request := ParsedRequest(text, after);
            && Answerable(request)
            && (AnswerCode(request, v) == Http200 ==>
                 && request.requestTarget.Some? && FileFor(request, v).Some?
                 && At(v, DropEmpty(Split(request.requestTarget.value)), FileFor(request, v).value))
  {
    hide Build, At, WellNamed, Walk, Components, ParsedFirstLine, DropEmpty, Split;
    var v := Build(entries, root, free);
    var request := ParsedRequest(text, after);
    AnswerDecision(text, after, v);
    if AnswerCode(request, v) == Http200 {
      FoundIffAtPosition(entries, root, free, request.requestTarget.value, FileFor(request, v).value);
    }
  }

  /** An answer being sent is coherent: it has one of six codes, its offset is within its header,
      and its body is either absent or the content, or the path, of a file of the cache, whose
      size is announced by the header. */
  lemma AnswerIsCoherent(client: Client, v: FolderVal)
    requires client.Ok(v) && client.state == Answering && FilesOk(AllFiles(v))
    ensures PossibleCode(client.httpAnswer.header.code)
    ensures 0 <= client.answerHeaderBufferOffset <= client.answerHeaderBufferLength <= client.answerHeaderBuffer.Length
    ensures var content := client.httpAnswer.content;
      && content.offset == 0
      && (NoBody(content) ||
           exists f :: f in AllFiles(v) && content.length == client.httpAnswer.header.contentLength == f.size
             && (if f.state == NotLoaded then content.filePath == Some(f.path) && content.body.None?
                 else content.filePath.None? && content.body == f.content && |f.content.value| == f.size))
  {
    hide HeaderText, Walk, Components, AllFiles, AnswerCode, Sent;
    var request := client.httpRequest.header;
    var found := FileFor(request, v);
    if found.Some? {
      WalkStaysInside(v, Components(request.requestTarget.value));
      assert FileOk(found.value);
    }
  }

  /** What a client received of an answer whose body is in memory, or absent, provided that the
      values of its fields have no line break: the header is intact exactly if one call to `write`
      took all of it, and the whole answer exactly if, moreover, what the calls took of the body,
      each one from its beginning, makes this body. */
  lemma AnswerIntactIff(s: Snapshot)
    requires Told(s) && CleanHeader(s.answer)
    ensures var text, body := HeaderText(s.answer), BodyText(s.content);
      && (text <= s.received <==> InOneWrite(text, s.headerWrites))
      && (s.received == text + body <==> InOneWrite(text, s.headerWrites) && Sent(body, s.bodyWrites) == body)
      && (body != "" && Borderless(body) ==>
            (s.received == text + body <==> InOneWrite(text, s.headerWrites) && OnlyOneWrite(body, s.bodyWrites)))
  {
    hide HeaderText, CleanHeader, InOneWrite, OnlyOneWrite, Borderless, AtMost;
    var text, body := HeaderText(s.answer), BodyText(s.content);
    var start, end := Sent(text, s.headerWrites), Sent(body, s.bodyWrites);
    HeaderPart(s.answer, s.headerWrites);
    if body != "" && Borderless(body) {
      ReceivedIffOnlyOneWrite(body, s.bodyWrites);
    }
    if |start| == |text| {
      assert (start + end)[..|text|] == start && (start + end)[|text|..] == end;
      assert (text + body)[..|text|] == text && (text + body)[|text|..] == body;
    } else {
      assert s.bodyWrites == [] && end == "";
    }
  }

  /** In particular for the answers that are completed, in any round of a run: those without body, or
      with an empty one. When the server waits again, the client received as many bytes as the header
      has, and these are the header exactly if one call took all of it. */
  lemma FinishedIntactIff(history: seq<Record>, setting: Setting, b: nat, i: nat)
    requires RunOk(history, setting) && b < |history| && history[0].report.orig == []
    requires history[b].report.Sized() && i < |history[b].report.orig| == |history[b].after|
    requires history[b].report.orig[i] in history[b].list && history[b].report.Due(i) == WriteAnswer
    requires history[b].after[i].state == WaitingForRequest && CleanHeader(history[b].after[i].answer)
    ensures var s := history[b].after[i];
      && Told(s) && Bodiless(s.content) && |s.received| == |HeaderText(s.answer)|
      && (s.received == HeaderText(s.answer) <==> InOneWrite(HeaderText(s.answer), s.headerWrites))
  {
    hide HeaderText, CleanHeader, InOneWrite, RunOk, Record.Valid, Told, WriteEvents, Delivered, Sent, Bodiless;
    ToldInRun(history, setting, b);
    var r := history[b];
    var s := r.after[i];
    StepIsTold(r, i);
    CompleteHeader(s);
    HeaderPart(s.answer, s.headerWrites);
  }

  lemma StepIsTold(r: Record, i: nat)
    requires r.Valid() && r.report.Sized() && i < |r.report.orig| == |r.after| && Told(r.report.before[i])
    requires r.report.orig[i] in r.list && r.report.Due(i) == WriteAnswer && r.after[i].state == WaitingForRequest
    ensures Told(r.after[i]) && Bodiless(r.after[i].content) && r.after[i].offset == |HeaderText(r.after[i].answer)|
  {
    hide HeaderText, WriteEvents, PossibleReport, EntryFor, Told, Bodiless, Delivered;
    assert r.report.Served(i, r.list, r.after[i], r.calls[i]);
    TurnIsTold(r.report.orig[i].fd, r.report.setting, WriteAnswer, r.report.before[i], r.after[i], r.calls[i]);
  }

  /** All the header was sent, and there is nothing else to send. */
  lemma CompleteHeader(s: Snapshot)
    requires Told(s) && Bodiless(s.content) && s.offset == |HeaderText(s.answer)|
    ensures Sum(s.headerWrites) == |HeaderText(s.answer)|
    ensures s.received == Sent(HeaderText(s.answer), s.headerWrites)
  {
    hide HeaderText;
    EmptyBodySent(s.bodyWrites);
    assert BodyText(s.content) == "";
    assert Sent(HeaderText(s.answer), s.headerWrites) + "" == Sent(HeaderText(s.answer), s.headerWrites);
  }

  lemma {:induction false} EmptyBodySent(counts: seq<nat>)
    ensures Sent("", counts) == ""
    decreases |counts|
  {
    if counts != [] {
      EmptyBodySent(counts[..|counts| - 1]);
    }
  }

  /** What was received of a header, complete or not. */
  lemma HeaderPart(h: HttpHeader, counts: seq<nat>)
    requires CleanHeader(h) && Sum(counts) <= |HeaderText(h)|
    ensures |Sent(HeaderText(h), counts)| == Sum(counts)
    ensures Sent(HeaderText(h), counts) == HeaderText(h) <==> InOneWrite(HeaderText(h), counts)
  {
    hide HeaderText, CleanHeader;
    SumBoundsEach(counts);
    SentLength(HeaderText(h), counts);
    if Sum(counts) == |HeaderText(h)| {
      HeaderReceivedIffOneWrite(h, counts);
    }
  }
}
