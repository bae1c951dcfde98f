/** What the history of a run tells (`src/server.c`). */
module Runs {
  import opened Toolbox
  import opened CacheSpec
  import opened HttpTypes
  import opened RequestParsing
  import opened Sending
  import opened Http
  import opened OperatingSystem
  import opened Subprocess
  import opened ClientTable
  import opened Serving
  import opened EventLoop

  // ---------------------------------------------------------------------------
  // One round
  // ---------------------------------------------------------------------------

  /** What is polled for a client, and what is made of it. One that hung up is closed and nothing else,
      whatever else was reported; one that waits, and sent something, is read from for all the room
      left in its buffer but a NUL; one that is answered, and may be written to, is offered as many
      bytes of its header as remain. Nothing is done for the others. */
  lemma WhatIsDone(r: Record, i: nat)
    requires r.Valid() && i < |r.report.orig|
    ensures |r.calls| == |r.report.orig| == |r.report.before| == |r.after| && |r.report.polled| == |r.report.orig| + 1
    ensures var client, before, after, calls := r.report.orig[i], r.report.before[i], r.after[i], r.calls[i];
            var events, revents := r.report.polled[i + 1].events, r.report.polled[i + 1].revents;
      && (before.state == WaitingForRequest ==> r.report.polled[i + 1].fd == client.fd && events == {PollIn})
      && (before.state == Answering ==> r.report.polled[i + 1].fd == client.fd && events == {PollOut})
      && (if PollHup in revents then calls == [Closed(client.fd)] && client !in r.list
          else if before.state == WaitingForRequest && PollIn in revents then
            && calls != [] && calls[0].DataRead? && calls[0].fd == client.fd
            && (before.length < |before.buffer| ==> calls[0].asked == |before.buffer| - 1 - before.length)
          else if before.state == Answering && PollOut in revents then
            && calls != [] && (calls[0].Wrote? || calls[0].WriteFailed?) && calls[0].fd == client.fd
            && var text := HeaderText(before.answer);
               before.offset <= |text| ==> calls[0].offered == text[..|text| - before.offset]
          else calls == [] && client in r.list && after == before)
  {
    hide HeaderText, Processed, BodyEvents;
    assert r.report.Served(i, r.list, r.after[i], r.calls[i]);
    assert r.report.polled[i + 1].(revents := {}) ==
      EntryFor(r.report.orig[i].fd, r.report.before[i].state);
  }

  /** What becomes of a client that was read from. */
  lemma WhatIsRead(r: Record, i: nat)
    requires r.Valid() && i < |r.report.orig|
    ensures |r.calls| == |r.report.orig| == |r.report.before| == |r.after|
    ensures var client, before, after, calls := r.report.orig[i], r.report.before[i], r.after[i], r.calls[i];
      calls != [] && calls[0].DataRead? ==>
        var data := calls[0].data;
        && |data| <= calls[0].asked
        && if data == "" then client !in r.list && calls == [calls[0], Closed(client.fd)]
           else
             && client in r.list && calls == [calls[0]] && |data| < |before.buffer|
             && after.buffer == data + ['\0'] + before.buffer[|data| + 1..]
             && after.length == before.length + |data| && after.nbReads == before.nbReads + 1
             && (after.state == WaitingForRequest || after.state == Answering)
             && (after.state == WaitingForRequest ==>
                  && after.answer == before.answer && after.content == before.content
                  && after.received == before.received)
             && (after.state == Answering ==> after.offset == 0 && after.received == "")
             && (after.length <= |after.buffer| ==>
                  (after.state == Answering <==> HeaderSeen(after.buffer[..after.length])))
  {
    hide HeaderText, Answers, HeaderSeen;
    assert r.report.Served(i, r.list, r.after[i], r.calls[i]);
  }

  /** What becomes of a client that was written to. As long as its header is not complete it goes on
      being answered; when it is, a client whose answer has no body, or whose empty body is taken, waits
      for a request again; one whose body is in memory is offered the whole of it, and goes on being
      answered; and one to which a file is sent is removed. */
  lemma WhatIsSent(r: Record, i: nat)
    requires r.Valid() && i < |r.report.orig|
    ensures |r.calls| == |r.report.orig| == |r.report.before| == |r.after|
    ensures var fd, before, calls := r.report.orig[i].fd, r.report.before[i], r.calls[i];
            var listed, state, total := r.report.orig[i] in r.list, r.after[i].state, |HeaderText(before.answer)|;
      && (calls != [] && calls[0].WriteFailed? ==>
           calls == [calls[0], Closed(fd)] && calls[0].connectionReset && !listed)
      && (calls != [] && calls[0].Wrote? ==>
           && before.offset + |calls[0].data| <= total
           && (before.offset + |calls[0].data| < total ==> listed && calls == [calls[0]] && state == Answering)
           && (before.offset + |calls[0].data| == total ==>
                match before.content.body
                case Some(body) =>
                  && |calls| > 1 && (calls[1].Wrote? || calls[1].WriteFailed?) && calls[1].offered == body
                  && (calls[1].Wrote? ==>
                       && listed && calls == calls[..2]
                       && state == if body == "" then WaitingForRequest else Answering)
                  && (calls[1].WriteFailed? ==>
                       !listed && calls == calls[..2] + [Closed(fd)] && calls[1].connectionReset)
                case None =>
                  if before.content.filePath.None? then
                    listed && calls == [calls[0]] && state == WaitingForRequest
                  else
                    && !listed && |calls| == 5
                    && calls[1].Opened? && calls[1].path == before.content.filePath.value
                    && (calls[2].FileSent? || calls[2].SendFailed?) && calls[2].fd == fd
                    && calls[2].fileFd == calls[1].fd && calls[2].count == before.content.length
                    && calls[3] == Closed(calls[1].fd) && calls[4] == Closed(fd)))
  {
    hide HeaderText, Delivered;
    assert r.report.Served(i, r.list, r.after[i], r.calls[i]);
    var events := r.calls[i];
    if events != [] && events[0].Wrote? {
      assert events == [events[0]] + events[1..];
      assert |events| > 1 ==> events[1..][0] == events[1];
    }
  }

  /** What a client that goes on being listed after a write was sent: the bytes that each call took are
      counted, for the header only. */
  lemma WhatIsCounted(r: Record, i: nat)
    requires r.Valid() && i < |r.report.orig|
    ensures |r.calls| == |r.report.orig| == |r.report.before| == |r.after|
    ensures var before, after, calls := r.report.before[i], r.after[i], r.calls[i];
      calls != [] && calls[0].Wrote? && r.report.orig[i] in r.list ==>
        && after.offset == before.offset + |calls[0].data|
        && after.answer == before.answer && after.content == before.content
        && after.buffer == before.buffer && after.length == before.length && after.nbReads == before.nbReads
        && after.headerWrites == before.headerWrites + [|calls[0].data|]
        && after.received == before.received + calls[0].data
                             + (if |calls| == 2 && calls[1].Wrote? then calls[1].data else "")
        && after.bodyWrites == before.bodyWrites
                               + (if |calls| == 2 && calls[1].Wrote? then [|calls[1].data|] else [])
  {
    hide HeaderText, Offered, Delivered;
    assert r.report.Served(i, r.list, r.after[i], r.calls[i]);
    var events := r.calls[i];
    if events != [] && events[0].Wrote? && r.report.orig[i] in r.list {
      assert |events| > 1 ==> events[1..][0] == events[1];
      DeliveredByTwo(events);
    }
  }

  lemma DeliveredByTwo(events: seq<Event>)
    requires 1 <= |events| <= 2
    ensures Delivered(events) == Payload(events[0]) + if |events| == 1 then "" else Payload(events[1])
  {
    if |events| == 2 {
      assert events[1..] == [events[1]] && events[1..][1..] == [];
    } else {
      assert events[1..] == [];
    }
  }

  /** Who is listed after a round: the clients that were not closed, and first the new one. One is
      accepted exactly when the listening socket is ready and some slot is free. */
  lemma WhoIsListed(r: Record)
    requires r.Valid()
    ensures |r.calls| == |r.report.orig| && r.report.polled != []
    ensures r.report.polled[0].(revents := {}) == PollFd(r.report.setting.sockfd, {PollIn}, {})
    ensures |r.list| <= r.report.setting.maxNbClients
    ensures PollIn !in r.report.polled[0].revents ==> r.newcomer.None?
    ensures PollIn in r.report.polled[0].revents && r.newcomer.None? ==> |r.list| == r.report.setting.maxNbClients
    ensures r.newcomer.Some? ==> r.list != [] && r.list[0] == r.newcomer.value && r.newcomer.value !in r.report.orig
    ensures forall c | c in r.list ::
              r.newcomer == Some(c) || exists i :: 0 <= i < |r.report.orig| && r.report.orig[i] == c
                                                   && Closed(c.fd) !in r.calls[i]
    ensures forall i | 0 <= i < |r.report.orig| && Closed(r.report.orig[i].fd) !in r.calls[i] ::
              r.report.orig[i] in r.list
  {
    hide Performed, PossibleReport, EntryFor;
    forall i | 0 <= i < |r.report.orig|
      ensures r.report.orig[i] !in r.list <==> Closed(r.report.orig[i].fd) in r.calls[i]
    {
      var reason := RemovedIffClosed(r, i);
    }
    forall c | c in r.list && r.newcomer != Some(c)
      ensures exists i :: 0 <= i < |r.report.orig| && r.report.orig[i] == c && Closed(c.fd) !in r.calls[i]
    {
      var j :| 0 <= j < |r.list| && r.list[j] == c;
      FirstPlace(r, c, j);
      var i :| 0 <= i < |r.report.orig| && r.report.orig[i] == c;
    }
  }

  /** Why a client may be removed: it hung up, its connection ended, its buffer was full, its
      connection was reset, or a file was sent to it. */
  datatype Reason = HungUp | Ended | BufferFull | ConnectionReset | FileWasSent

  ghost predicate LeftFor(reason: Reason, fd: int, revents: set<PollEvent>, before: Snapshot, events: seq<Event>) {
    match reason
    case HungUp => PollHup in revents && events == [Closed(fd)]
    case Ended => Room(before) > 0 && events == [DataRead(fd, Room(before), ""), Closed(fd)]
    case BufferFull => Room(before) == 0 && events == [DataRead(fd, 0, ""), Closed(fd)]
    case ConnectionReset =>
      |events| >= 2 && exists offered :: events[|events| - 2..] == [WriteFailed(fd, offered, true), Closed(fd)]
    case FileWasSent =>
      && before.content.filePath.Some? && before.content.body.None? && |events| == 5
      && events[1].Opened? && events[1].path == before.content.filePath.value && events[4] == Closed(fd)
  }

  /** A client is removed in a round exactly when its descriptor is closed, and then for one of these
      reasons. */
  lemma RemovedIffClosed(r: Record, i: nat) returns (reason: Reason)
    requires r.Valid() && i < |r.report.orig|
    ensures |r.calls| == |r.report.orig| && |r.report.before| == |r.report.orig|
    ensures |r.report.polled| == |r.report.orig| + 1
    ensures r.report.orig[i] !in r.list <==> Closed(r.report.orig[i].fd) in r.calls[i]
    ensures r.report.orig[i] !in r.list ==>
              LeftFor(reason, r.report.orig[i].fd, r.report.polled[i + 1].revents, r.report.before[i], r.calls[i])
  {
    hide HeaderText, WriteEvents, Processed;
    var client, events, before := r.report.orig[i], r.calls[i], r.report.before[i];
    assert r.report.Served(i, r.list, r.after[i], events);
    reason := HungUp;
    match r.report.Due(i)
    case Nothing =>
    case HangUp =>
      assert events[0] == Closed(client.fd);
    case ReadRequest =>
      reason := if Room(before) > 0 then Ended else BufferFull;
      assert events == [events[0]] + events[1..];
      if events[0].data == "" {
        assert events[1..][0] == Closed(client.fd);
      }
    case WriteAnswer =>
      reason := WriteReason(r.report.setting.disk, client.fd, r.report.polled[i + 1].revents, before, events,
                            client in r.list);
  }

  lemma WriteReason(disk: map<string, string>, fd: int, revents: set<PollEvent>, before: Snapshot,
                    events: seq<Event>, listed: bool) returns (reason: Reason)
    requires WriteEvents(disk, fd, HeaderText(before.answer), before.offset, before.content, events, listed)
    ensures !listed <==> Closed(fd) in events
    ensures !listed ==> LeftFor(reason, fd, revents, before, events)
  {
    hide HeaderText, Offered;
    reason := ConnectionReset;
    var offered := Offered(HeaderText(before.answer), before.offset);
    if WasReset(events, fd, offered) {
      assert events[0] == WriteFailed(fd, offered, true) && events[1] == Closed(fd);
      assert events[|events| - 2..] == events;
    } else {
      var rest := events[1..];
      assert events == [events[0]] + rest;
      if !listed {
        if before.content.body.Some? {
          assert rest[0] == WriteFailed(fd, before.content.body.value, true) && rest[1] == Closed(fd);
          assert events[|events| - 2..] == rest;
        } else {
          reason := FileWasSent;
          assert rest[3] == Closed(fd) && rest[0] == events[1];
        }
      }
    }
  }

  /** When its buffer is full a client that sends something more is removed, although it has not left:
      the read asks for nothing, and gets nothing. This happens exactly when the bytes counted since
      the connection was accepted fill the buffer but for a NUL. */
  lemma FullBufferIsDropped(r: Record, i: nat)
    requires r.Valid() && i < |r.report.orig|
    ensures |r.calls| == |r.report.orig| && r.report.Sized()
    ensures r.report.Due(i) == ReadRequest && r.report.before[i].length < |r.report.before[i].buffer| ==>
      && |r.calls[i]| > 0 && r.calls[i][0].DataRead?
      && r.calls[i][0].asked == |r.report.before[i].buffer| - 1 - r.report.before[i].length
      && (r.calls[i][0].asked == 0 <==> r.report.before[i].length == |r.report.before[i].buffer| - 1)
      && (r.calls[i][0].asked == 0 ==> r.report.orig[i] !in r.list)
  {
    hide HeaderText, WriteEvents, Processed;
    assert r.report.Served(i, r.list, r.after[i], r.calls[i]);
  }

  /** For instance a client whose buffer has 19 bytes: whatever happens after its first request, it is
      removed by the next read. */
  lemma OneRequestFillsBuffer(before: Snapshot, later: Snapshot, fd: int, v: FolderVal, after: Snapshot,
                              events: seq<Event>, listed: bool)
    requires IsNew(before, 19) && later.length == AfterData(before, SECOND_REQUEST).length
    requires later.buffer == AfterData(before, SECOND_REQUEST).buffer
    requires ReadPerformed(fd, v, later, after, events, listed)
    ensures |SECOND_REQUEST| <= Room(before) && events == [DataRead(fd, 0, ""), Closed(fd)] && !listed
  {
    hide Processed;
    assert |later.buffer| == 19 && later.length == 18;
    assert events == [events[0]] + events[1..];
  }

  // ---------------------------------------------------------------------------
  // Several rounds
  // ---------------------------------------------------------------------------

  /** The client was answering, and its answer has a body in memory that is not empty. */
  predicate SendsBody(s: Snapshot) {
    s.state == Answering && s.content.body.Some? && s.content.body.value != ""
  }

  /** If the client is in the list of a round, it is found there as it was. */
  ghost predicate StillSends(r: Record, client: Client, answer: HttpHeader, content: HttpContent) {
    |r.report.before| == |r.report.orig| &&
    forall i | 0 <= i < |r.report.orig| && r.report.orig[i] == client ::
      SendsBody(r.report.before[i]) && r.report.before[i].answer == answer && r.report.before[i].content == content
  }

  /** One round does not change this: whatever a write takes, the body is not finished. */
  lemma SendsOn(r: Record, i: nat)
    requires r.Valid() && i < |r.report.orig| && |r.report.before| == |r.after| == |r.report.orig|
    requires SendsBody(r.report.before[i]) && r.report.orig[i] in r.list
    ensures SendsBody(r.after[i])
    ensures r.after[i].answer == r.report.before[i].answer && r.after[i].content == r.report.before[i].content
  {
    hide HeaderText, WriteEvents;
    assert r.report.Served(i, r.list, r.after[i], r.calls[i]);
  }

  lemma SendsInNextRound(r: Record, s: Record, client: Client, answer: HttpHeader, content: HttpContent)
    requires r.Valid() && r.Continues(s.report.orig, s.report.before)
    requires StillSends(r, client, answer, content) && client !in Newcomer(r)
    ensures StillSends(s, client, answer, content)
  {
    hide HeaderText, WriteEvents, Performed, SendsBody;
    var orig := s.report.orig;
    forall j | 0 <= j < |orig| && orig[j] == client
      ensures SendsBody(s.report.before[j])
      ensures s.report.before[j].answer == answer && s.report.before[j].content == content
    {
      assert client in r.list;
      ListedBefore(r, client);
      var i :| 0 <= i < |r.report.orig| && r.report.orig[i] == client;
      SendsOn(r, i);
      assert r.after[i] == s.report.before[j];
    }
  }

  lemma ListedBefore(r: Record, client: Client)
    requires r.Valid() && client in r.list && client !in Newcomer(r)
    ensures client in r.report.orig
  {
    hide Performed, PossibleReport, EntryFor;
    if r.newcomer.Some? {
      assert r.list == [r.list[0]] + r.list[1..];
    }
  }

  /** Once a client is being sent a body kept in memory that is not empty, it never waits for a
      request again: in every later round of the run it is either gone, or still being sent the
      same answer. */
  lemma {:induction false} SendsForever(history: seq<Record>, setting: Setting, a: nat, b: nat, client: Client,
                                        answer: HttpHeader, content: HttpContent)
    requires RunOk(history, setting) && a <= b < |history|
    requires client in history[a].report.orig && StillSends(history[a], client, answer, content)
    ensures StillSends(history[b], client, answer, content)
    decreases |history|, b
  {
    hide Record.Valid, Record.Continues, StillSends;
    var n := |history| - 1;
    if b < n {
      SendsForever(history[..n], setting, a, b, client, answer, content);
    } else if a < b {
      SendsForever(history[..n], setting, a, n - 1, client, answer, content);
      NotAcceptedAgain(history, setting, a, n - 1, client);
      RunOkStep(history, setting);
      SendsInNextRound(history[n - 1], history[n], client, answer, content);
    }
  }

  lemma RunOkStep(history: seq<Record>, setting: Setting)
    requires RunOk(history, setting) && |history| >= 2
    ensures var n := |history| - 1;
            history[n - 1].Valid() && history[n - 1].Continues(history[n].report.orig, history[n].report.before)
  {
    hide Record.Valid, Record.Continues;
    var n := |history| - 1;
    assert RunOk(history[..n], setting) && history[..n][n - 1] == history[n - 1];
  }

  /** A client that was listed is not accepted later. */
  lemma {:induction false} NotAcceptedAgain(history: seq<Record>, setting: Setting, a: nat, b: nat, client: Client)
    requires RunOk(history, setting) && a <= b < |history| && client in history[a].report.orig
    ensures client !in Newcomer(history[b])
    decreases |history|
  {
    hide Record.Continues;
    var n := |history| - 1;
    if b < n {
      NotAcceptedAgain(history[..n], setting, a, b, client);
    }
  }

  // ---------------------------------------------------------------------------
  // What is polled
  // ---------------------------------------------------------------------------

  /** Between two rounds a client waits for a request, or is being answered. */
  predicate IsServed(s: Snapshot) {
    s.state == WaitingForRequest || s.state == Answering
  }

  lemma TurnLeavesServed(r: Record, i: nat)
    requires r.Valid() && i < |r.report.orig| && |r.report.before| == |r.after| == |r.report.orig|
    requires IsServed(r.report.before[i]) && r.report.orig[i] in r.list
    ensures IsServed(r.after[i])
  {
    hide HeaderText, WriteEvents, Answers, Delivered;
    assert r.report.Served(i, r.list, r.after[i], r.calls[i]);
  }

  lemma RoundLeavesServed(r: Record, next: seq<Client>, snaps: seq<Snapshot>)
    requires r.Valid() && r.Continues(next, snaps) && |r.report.before| == |r.report.orig|
    requires forall i | 0 <= i < |r.report.orig| :: IsServed(r.report.before[i])
    ensures forall j | 0 <= j < |next| :: IsServed(snaps[j])
  {
    hide Performed, PossibleReport, EntryFor, IsServed;
    forall j | 0 <= j < |next|
      ensures IsServed(snaps[j])
    {
      FirstPlace(r, next[j], j);
      if next[j] in r.report.orig {
        TurnLeavesServed(r, Place(r.report.orig, next[j]));
      } else {
        NewIsServed(snaps[j], r.report.setting.requestBufferSize);
      }
    }
  }

  lemma NewIsServed(s: Snapshot, size: nat)
    requires IsNew(s, size)
    ensures IsServed(s)
  {
  }

  lemma {:induction false} ClientsAreServed(history: seq<Record>, setting: Setting, next: seq<Client>,
                                            snaps: seq<Snapshot>)
    requires RunOk(history, setting)
    requires if history == [] then next == [] && snaps == []
             else history[0].report.orig == [] && history[|history| - 1].Continues(next, snaps)
    ensures |snaps| == |next| && forall j | 0 <= j < |next| :: IsServed(snaps[j])
    decreases |history|
  {
    hide Record.Valid, Record.Continues, IsServed;
    if history != [] {
      var n := |history| - 1;
      var r, earlier := history[n], history[..n];
      if n > 0 {
        assert earlier[|earlier| - 1].Continues(r.report.orig, r.report.before);
      } else {
        CallsMatch(history, setting);
        BeforeSized(r);
      }
      ClientsAreServed(earlier, setting, r.report.orig, r.report.before);
      ContinuesSized(r, next, snaps);
      RoundLeavesServed(r, next, snaps);
    }
  }

  /** In every round of a run, which begins without client, each client is polled: for what it sends if
      it waits, and otherwise for what it can be sent. None is forgotten. */
  lemma {:induction false} ClientsArePolled(history: seq<Record>, setting: Setting, b: nat, i: nat)
    requires RunOk(history, setting) && b < |history| && history[0].report.orig == []
    requires i < |history[b].report.orig|
    ensures history[b].report.Sized()
    ensures var entry := history[b].report.polled[i + 1];
      && entry.fd == history[b].report.orig[i].fd
      && entry.events == (if history[b].report.before[i].state == WaitingForRequest then {PollIn} else {PollOut})
    decreases |history|
  {
    hide Record.Continues;
    var n := |history| - 1;
    if b < n {
      ClientsArePolled(history[..n], setting, b, i);
    } else {
      BeforeSized(history[n]);
      PossibleIsSized(history[n].report);
      ClientsAreServed(history[..n], setting, history[n].report.orig, history[n].report.before);
      WhatIsDone(history[n], i);
    }
  }

  // ---------------------------------------------------------------------------
  // What is read from a client
  // ---------------------------------------------------------------------------

  /** The bytes read by a step, if it is a read. */
  function DataOf(events: seq<Event>): seq<string> {
    if events != [] && events[0].DataRead? then [events[0].data] else []
  }

  /** What was read from a client in a round. */
  ghost function ReadIn(r: Record, client: Client): seq<string>
    requires |r.calls| == |r.report.orig|
  {
    if client in r.report.orig then DataOf(r.calls[Place(r.report.orig, client)]) else []
  }

  ghost function Place(list: seq<Client>, client: Client): (i: nat)
    requires client in list
    ensures i < |list| && list[i] == client
  {
    if list[0] == client then 0 else 1 + Place(list[1..], client)
  }

  /** What each read from a client delivered during some rounds. */
  ghost function Reads(history: seq<Record>, client: Client): seq<string>
    requires forall k | 0 <= k < |history| :: |history[k].calls| == |history[k].report.orig|
  {
    if history == [] then []
    else Reads(history[..|history| - 1], client) + ReadIn(history[|history| - 1], client)
  }

  function TotalLength(texts: seq<string>): nat {
    if texts == [] then 0 else TotalLength(texts[..|texts| - 1]) + |texts[|texts| - 1]|
  }

  lemma TotalMore(texts: seq<string>, text: string)
    ensures TotalLength(texts + [text]) == TotalLength(texts) + |text| && TotalLength(texts + []) == TotalLength(texts)
  {
    assert (texts + [text])[..|texts|] == texts && texts + [] == texts;
  }

  lemma {:induction false} CallsMatch(history: seq<Record>, setting: Setting)
    requires RunOk(history, setting)
    ensures forall k | 0 <= k < |history| :: |history[k].calls| == |history[k].report.orig| && history[k].Valid()
    decreases |history|
  {
    hide Record.Continues, PossibleReport;
    if history != [] {
      var n := |history| - 1;
      CallsMatch(history[..n], setting);
      assert forall k | 0 <= k < n :: history[..n][k] == history[k];
    }
  }

  /** The buffer of a client counts what was read from it. */
  predicate Counted(s: Snapshot, texts: seq<string>, requestBufferSize: nat) {
    && |s.buffer| == requestBufferSize && s.length == TotalLength(texts) < requestBufferSize
    && s.nbReads == |texts| <= s.length
  }

  /** No more was read than fits in a buffer with a NUL; a last read may have delivered nothing. */
  predicate Bounded(texts: seq<string>, requestBufferSize: nat) {
    TotalLength(texts) < requestBufferSize && |texts| <= requestBufferSize
  }

  lemma ReadCounts(fd: int, v: FolderVal, before: Snapshot, after: Snapshot, events: seq<Event>, listed: bool,
                   texts: seq<string>, size: nat)
    requires ReadPerformed(fd, v, before, after, events, listed) && Counted(before, texts, size)
    ensures listed ==> Counted(after, texts + DataOf(events), size)
    ensures Bounded(texts + DataOf(events), size)
  {
    hide Answers, TotalLength;
    TotalMore(texts, events[0].data);
  }

  lemma WriteIsNoRead(disk: map<string, string>, fd: int, text: string, offset: nat, content: HttpContent,
                      events: seq<Event>, listed: bool)
    requires WriteEvents(disk, fd, text, offset, content, events, listed)
    ensures DataOf(events) == []
  {
    hide BodyEvents, Offered;
  }

  lemma SameCount(before: Snapshot, after: Snapshot, texts: seq<string>, size: nat)
    requires Counted(before, texts, size)
    requires after.buffer == before.buffer && after.length == before.length && after.nbReads == before.nbReads
    ensures Counted(after, texts + [], size) && Bounded(texts + [], size)
  {
    hide TotalLength;
    assert texts + [] == texts;
  }

  /** One turn keeps the count, as long as the client remains. */
  lemma TurnCounts(fd: int, setting: Setting, action: Action, before: Snapshot, after: Snapshot,
                   events: seq<Event>, listed: bool, texts: seq<string>)
    requires Performed(action, fd, setting, before, after, events, listed)
    requires Counted(before, texts, setting.requestBufferSize)
    ensures listed ==> Counted(after, texts + DataOf(events), setting.requestBufferSize)
    ensures Bounded(texts + DataOf(events), setting.requestBufferSize)
  {
    hide HeaderText, Delivered, WriteEvents, ReadPerformed, Counted, Bounded;
    if action == ReadRequest {
      ReadCounts(fd, setting.view, before, after, events, listed, texts, setting.requestBufferSize);
    } else {
      if action == WriteAnswer {
        WriteIsNoRead(setting.disk, fd, HeaderText(before.answer), before.offset, before.content, events, listed);
      }
      SameCount(before, if listed then after else before, texts, setting.requestBufferSize);
    }
  }

  lemma RoundCounts(r: Record, client: Client, texts: seq<string>, next: seq<Client>, snaps: seq<Snapshot>)
    requires r.Valid() && r.Continues(next, snaps) && r.report.setting.requestBufferSize > 0
    requires client in r.report.orig ==>
      Counted(r.report.before[Place(r.report.orig, client)], texts, r.report.setting.requestBufferSize)
    requires client in Newcomer(r) ==> texts == []
    ensures forall j | 0 <= j < |next| && next[j] == client ::
              Counted(snaps[j], texts + ReadIn(r, client), r.report.setting.requestBufferSize)
  {
    hide Performed, Counted, Bounded, PossibleReport, EntryFor;
    var size := r.report.setting.requestBufferSize;
    assert texts + [] == texts;
    if client in r.report.orig {
      var i := Place(r.report.orig, client);
      assert r.report.Served(i, r.list, r.after[i], r.calls[i]);
      TurnCounts(client.fd, r.report.setting, r.report.Due(i), r.report.before[i], r.after[i], r.calls[i],
                 client in r.list, texts);
    } else {
      forall j | 0 <= j < |next| && next[j] == client
        ensures Counted(snaps[j], texts, size)
      {
        FirstPlace(r, client, j);
        NothingCounted(snaps[0], size);
      }
    }
  }

  lemma RoundIsBounded(r: Record, client: Client, texts: seq<string>)
    requires r.Valid() && Bounded(texts, r.report.setting.requestBufferSize)
    requires client in r.report.orig ==>
      Counted(r.report.before[Place(r.report.orig, client)], texts, r.report.setting.requestBufferSize)
    ensures Bounded(texts + ReadIn(r, client), r.report.setting.requestBufferSize)
  {
    hide Performed, Counted, Bounded, PossibleReport, EntryFor;
    assert texts + [] == texts;
    if client in r.report.orig {
      var i := Place(r.report.orig, client);
      assert r.report.Served(i, r.list, r.after[i], r.calls[i]);
      TurnCounts(client.fd, r.report.setting, r.report.Due(i), r.report.before[i], r.after[i], r.calls[i],
                 client in r.list, texts);
    }
  }

  lemma FirstPlace(r: Record, client: Client, j: nat)
    requires r.Valid() && j < |r.list| && r.list[j] == client
    ensures client in r.report.orig || (client in Newcomer(r) && j == 0)
  {
    hide Performed, PossibleReport, EntryFor;
    if j > 0 {
      assert r.list[1..][j - 1] == client;
    }
  }

  lemma NothingCounted(s: Snapshot, size: nat)
    requires IsNew(s, size) && size > 0
    ensures Counted(s, [], size)
  {
  }

  lemma {:induction false} NothingRead(history: seq<Record>, client: Client)
    requires forall k | 0 <= k < |history| ::
               |history[k].calls| == |history[k].report.orig| && client !in history[k].report.orig
    ensures Reads(history, client) == []
    decreases |history|
  {
    if history != [] {
      NothingRead(history[..|history| - 1], client);
    }
  }

  /** The buffer of a client counts all that was read from it since its connection was accepted. */
  lemma {:induction false} ReadsAreCounted(history: seq<Record>, setting: Setting, client: Client,
                                           next: seq<Client>, snaps: seq<Snapshot>)
    requires RunOk(history, setting) && setting.requestBufferSize > 0
    requires if history == [] then next == [] && snaps == []
             else history[0].report.orig == [] && history[|history| - 1].Continues(next, snaps)
    ensures forall k | 0 <= k < |history| :: |history[k].calls| == |history[k].report.orig|
    ensures |snaps| == |next|
    ensures forall j | 0 <= j < |next| && next[j] == client ::
              Counted(snaps[j], Reads(history, client), setting.requestBufferSize)
    decreases |history|
  {
    hide Record.Valid, Counted, Record.Continues;
    CallsMatch(history, setting);
    if history != [] {
      var n := |history| - 1;
      var r, earlier := history[n], history[..n];
      CallsMatch(earlier, setting);
      if n > 0 {
        assert earlier[|earlier| - 1].Continues(r.report.orig, r.report.before);
        ReadsAreCounted(earlier, setting, client, r.report.orig, r.report.before);
      }
      if client in Newcomer(r) {
        NewcomerIsNew(r, client);
        NothingRead(earlier, client);
      }
      ContinuesSized(r, next, snaps);
      RoundCounts(r, client, Reads(earlier, client), next, snaps);
    }
  }

  /** Over a whole run, which begins without client, no client is read from more than
      `requestBufferSize` times, nor more bytes than its buffer holds with a NUL. */
  lemma {:induction false} ReadsAreBounded(history: seq<Record>, setting: Setting, client: Client)
    requires RunOk(history, setting) && setting.requestBufferSize > 0
    requires history != [] ==> history[0].report.orig == []
    ensures forall k | 0 <= k < |history| :: |history[k].calls| == |history[k].report.orig|
    ensures Bounded(Reads(history, client), setting.requestBufferSize)
    decreases |history|
  {
    hide Record.Valid, Counted, Record.Continues, Bounded;
    CallsMatch(history, setting);
    if history == [] {
      EmptyIsBounded(setting.requestBufferSize);
    } else {
      var n := |history| - 1;
      var r, earlier := history[n], history[..n];
      CallsMatch(earlier, setting);
      if n > 0 {
        assert earlier[|earlier| - 1].Continues(r.report.orig, r.report.before);
        ReadsAreCounted(earlier, setting, client, r.report.orig, r.report.before);
      }
      ReadsAreBounded(earlier, setting, client);
      RoundIsBounded(r, client, Reads(earlier, client));
    }
  }

  lemma EmptyIsBounded(size: nat)
    requires size > 0
    ensures Bounded([], size)
  {
  }

  lemma NewcomerIsNew(r: Record, client: Client)
    requires r.Valid() && client in Newcomer(r)
    ensures client !in r.report.orig
  {
    hide Performed, PossibleReport, EntryFor;
  }

  lemma ContinuesSized(r: Record, next: seq<Client>, snaps: seq<Snapshot>)
    requires r.Continues(next, snaps)
    ensures |snaps| == |next|
  {
  }

  // ---------------------------------------------------------------------------
  // What is sent to a client
  // ---------------------------------------------------------------------------

  /** What a client received of its answer, complete or not, is what the calls to `write` gave it,
      each one from the beginning of the header or of the body. */
  ghost predicate Told(s: Snapshot) {
    var text, body := HeaderText(s.answer), BodyText(s.content);
    && Sum(s.headerWrites) == s.offset <= |text|
    && (s.bodyWrites != [] ==> s.offset == |text|) && AtMost(s.bodyWrites, |body|)
    && s.received == Sent(text, s.headerWrites) + Sent(body, s.bodyWrites)
  }

  lemma NewIsTold(s: Snapshot, size: nat)
    requires IsNew(s, size)
    ensures Told(s)
  {
    hide HeaderText;
  }

  lemma AnsweringIsTold(client: Client, v: FolderVal)
    requires client.AnswerOk(v)
    ensures Told(Snap(client))
  {
    hide HeaderText, IsAnswerTo, Answerable, Sent, AtMost;
  }

  lemma ReadIsTold(before: Snapshot, data: string, after: Snapshot, v: FolderVal)
    requires |data| < |before.buffer| && Processed(AfterData(before, data), after, v) && Told(before)
    ensures Told(after)
  {
    hide HeaderText, Answers, AtMost;
    assert AtMost([], |BodyText(after.content)|) by { NothingAtMost(|BodyText(after.content)|); }
    assert Sent(HeaderText(after.answer), []) == "" && Sent(BodyText(after.content), []) == "" && Sum([]) == 0;
  }

  lemma NothingAtMost(limit: nat)
    ensures AtMost([], limit)
  {
  }

  lemma TakenIsKept(text: string, offset: nat, data: string)
    requires offset <= |text| && data <= Offered(text, offset)
    ensures data == Kept(text, |data|) && offset + |data| <= |text|
  {
    assert data == text[..|text| - offset][..|data|];
  }

  lemma Reorder(start: string, end: string, data: string)
    requires data == "" || end == ""
    ensures start + end + data == start + data + end
  {
  }

  lemma NoBodyYet(body: string, counts: seq<nat>)
    requires counts == []
    ensures Sent(body, counts) == ""
  {
  }

  /** The bytes of the header taken by a call. */
  lemma HeaderIsTold(before: Snapshot, fd: int, event: Event)
    requires Told(before) && Took(event, fd, Offered(HeaderText(before.answer), before.offset))
    ensures Told(AfterHeader(before, event))
  {
    hide HeaderText, AtMost, Sent, Sum, Kept, Offered, BodyText;
    var text, body := HeaderText(before.answer), BodyText(before.content);
    TakenIsKept(text, before.offset, event.data);
    SentMore(text, before.headerWrites, |event.data|);
    if event.data != "" {
      NoBodyYet(body, before.bodyWrites);
    }
    Reorder(Sent(text, before.headerWrites), Sent(body, before.bodyWrites), event.data);
  }

  /** Those of the body. */
  lemma BodyIsTold(before: Snapshot, fd: int, event: Event)
    requires Told(before) && before.offset == |HeaderText(before.answer)|
    requires Took(event, fd, BodyText(before.content))
    ensures Told(AfterBody(before, [event]))
  {
    hide HeaderText, Sent, Sum, Kept, Delivered, AtMost, BodyText;
    var text, body := HeaderText(before.answer), BodyText(before.content);
    TakenIsKept(body, 0, event.data) by {
      assert Offered(body, 0) == body;
    }
    SentMore(body, before.bodyWrites, |event.data|);
    OneMoreAtMost(before.bodyWrites, |event.data|, |body|);
    DeliveredByOne(event);
    AppendRight(Sent(text, before.headerWrites), Sent(body, before.bodyWrites), event.data);
  }

  lemma OneMoreAtMost(counts: seq<nat>, n: nat, limit: nat)
    requires AtMost(counts, limit) && n <= limit
    ensures AtMost(counts + [n], limit)
  {
  }

  lemma AppendRight(a: string, b: string, c: string)
    ensures a + b + c == a + (b + c)
  {
  }

  lemma WriteIsTold(before: Snapshot, disk: map<string, string>, fd: int, events: seq<Event>)
    requires WriteEvents(disk, fd, HeaderText(before.answer), before.offset, before.content, events, true)
    requires Told(before)
    ensures Told(AfterWrite(before, events))
  {
    hide HeaderText, Told, Delivered, Offered;
    var event, rest := events[0], events[1..];
    HeaderIsTold(before, fd, event);
    var s := AfterHeader(before, event);
    assert events == [event] + rest;
    TakenIsKept(HeaderText(before.answer), before.offset, event.data) by {
      OffsetIsTold(before);
    }
    StepIsWrite(disk, fd, before, event, rest, true);
    if rest != [] {
      assert rest == [rest[0]];
      BodyIsTold(s, fd, rest[0]);
    }
    Renamed(if rest == [] then s else AfterBody(s, rest), AfterWrite(before, events));
  }

  lemma OffsetIsTold(s: Snapshot)
    requires Told(s)
    ensures s.offset <= |HeaderText(s.answer)|
  {
    hide HeaderText, Sent, AtMost;
  }

  /** The state of a client does not matter. */
  lemma Renamed(s: Snapshot, t: Snapshot)
    requires Told(s) && t == s.(state := t.state)
    ensures Told(t)
  {
    hide HeaderText, Sent, AtMost;
  }

  lemma TurnIsTold(fd: int, setting: Setting, action: Action, before: Snapshot, after: Snapshot, events: seq<Event>)
    requires Performed(action, fd, setting, before, after, events, true) && Told(before)
    ensures Told(after)
  {
    hide HeaderText, Told, WriteEvents, Processed, AfterWrite;
    if action == ReadRequest {
      ReadIsTold(before, events[0].data, after, setting.view);
    } else if action == WriteAnswer {
      WriteIsTold(before, setting.disk, fd, events);
    }
  }

  lemma RoundIsTold(r: Record, next: seq<Client>, snaps: seq<Snapshot>)
    requires r.Valid() && r.Continues(next, snaps) && |r.report.before| == |r.report.orig|
    requires forall i | 0 <= i < |r.report.orig| :: Told(r.report.before[i])
    ensures forall j | 0 <= j < |next| :: Told(snaps[j])
  {
    hide Performed, Told, PossibleReport, EntryFor;
    forall j | 0 <= j < |next|
      ensures Told(snaps[j])
    {
      FirstPlace(r, next[j], j);
      if next[j] in r.report.orig {
        var i := Place(r.report.orig, next[j]);
        assert r.report.Served(i, r.list, r.after[i], r.calls[i]);
        TurnIsTold(next[j].fd, r.report.setting, r.report.Due(i), r.report.before[i], r.after[i], r.calls[i]);
      } else {
        NewIsTold(snaps[j], r.report.setting.requestBufferSize);
      }
    }
  }

  /** Over a whole run, which begins without client, what each listed client received of its current
      answer is told by the calls to `write`, whether it is still answered or waits again. */
  lemma {:induction false} AnswersAreTold(history: seq<Record>, setting: Setting, next: seq<Client>,
                                          snaps: seq<Snapshot>)
    requires RunOk(history, setting)
    requires if history == [] then next == [] && snaps == []
             else history[0].report.orig == [] && history[|history| - 1].Continues(next, snaps)
    ensures |snaps| == |next| && forall j | 0 <= j < |next| :: Told(snaps[j])
    decreases |history|
  {
    hide Record.Valid, Record.Continues, Told;
    if history != [] {
      var n := |history| - 1;
      var r, earlier := history[n], history[..n];
      if n > 0 {
        assert earlier[|earlier| - 1].Continues(r.report.orig, r.report.before);
      } else {
        CallsMatch(history, setting);
        BeforeSized(r);
      }
      AnswersAreTold(earlier, setting, r.report.orig, r.report.before);
      ContinuesSized(r, next, snaps);
      RoundIsTold(r, next, snaps);
    }
  }

  lemma {:induction false} ToldInRun(history: seq<Record>, setting: Setting, b: nat)
    requires RunOk(history, setting) && b < |history| && history[0].report.orig == []
    ensures history[b].Valid() && history[b].report.Sized()
    ensures forall j | 0 <= j < |history[b].report.orig| :: Told(history[b].report.before[j])
    decreases |history|
  {
    hide Record.Continues, Told;
    var n := |history| - 1;
    if b < n {
      ToldInRun(history[..n], setting, b);
    } else {
      BeforeSized(history[n]);
      PossibleIsSized(history[n].report);
      AnswersAreTold(history[..n], setting, history[n].report.orig, history[n].report.before);
    }
  }

  lemma BeforeSized(r: Record)
    requires r.Valid()
    ensures |r.report.before| == |r.report.orig|
  {
    hide Performed, PossibleReport, EntryFor;
  }
}
