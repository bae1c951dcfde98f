/** The main loop (`src/server.c`): accepting clients, polling, and serving the ready ones. */
module EventLoop {
  import opened Toolbox
  import opened Disk
  import opened CacheSpec
  import opened FileCaching
  import opened Cache
  import opened Http
  import opened OperatingSystem
  import opened ClientTable
  import opened Serving

  // ---------------------------------------------------------------------------
  // Accepting clients, closing the server
  // ---------------------------------------------------------------------------

  /** A client from which nothing was read. */
  predicate IsNew(s: Snapshot, requestBufferSize: nat) {
    && s.state == WaitingForRequest && s.nbReads == 0 && s.length == 0 && |s.buffer| == requestBufferSize
    && s.offset == 0 && s.headerWrites == [] && s.bodyWrites == [] && s.received == ""
  }

  /** Accepts a client, unless there is no free slot. */
  method AcceptNewClient(server: Server) returns (newClient: Client?, exited: bool)
    requires server.Valid()
    modifies server`clients, server`nbClients, server`list, server`accepted, server.os
    modifies server.list`previous
    ensures server.Valid() && server.closed == old(server.closed)
    ensures exited ==>
      newClient == null && |server.list| < server.maxNbClients && server.os.log == old(server.os.log) + [AcceptFailed]
    ensures newClient == null ==>
      && server.list == old(server.list) && server.accepted == old(server.accepted)
      && (!exited ==> |server.list| == server.maxNbClients && server.os.log == old(server.os.log))
    ensures newClient != null ==>
      && fresh(newClient.Own()) && IsNew(Snap(newClient), server.requestBufferSize)
      && server.list == [newClient] + old(server.list) && server.accepted == old(server.accepted) + {newClient}
      && server.os.log == old(server.os.log) + [Accepted(newClient.fd)]
  {
    hide Server.Table, Server.CacheOk, Server.ClientsOk;
    TableLength(server);
    OsIsApart(server);
    if server.nbClients == server.maxNbClients {
      return null, false;
    }
    var clientFd := server.os.Accept();
    if clientFd < 0 {
      return null, true;
    }
    newClient := CreateClient(server, clientFd);
    return newClient, false;
  }

  lemma OsIsApart(server: Server)
    requires server.CacheOk()
    ensures server.os !in server.cache.Repr
  {
  }

  /** Makes a client of a new connection. */
  method CreateClient(server: Server, clientFd: int) returns (client: Client)
    requires server.Table() && server.CacheOk() && server.ClientsOk()
    requires |server.list| < server.maxNbClients && server.sockfd !in Fds(server.list)
    requires multiset(server.accepted) == multiset(server.list) + server.closed
    requires forall c | c in server.accepted :: allocated(c)
    requires clientFd !in {server.sockfd} + Fds(server.list)
    requires server.os.open == {server.sockfd} + Fds(server.list) + {clientFd}
    modifies server`clients, server`nbClients, server`list, server`accepted
    modifies server.list`previous
    ensures server.Valid() && fresh(client.Own())
    ensures client.fd == clientFd && IsNew(Snap(client), server.requestBufferSize)
    ensures server.list == [client] + old(server.list) && server.accepted == old(server.accepted) + {client}
  {
    hide Server.Table, Client.Ok, Folder.Valid, AllFiles, FilesOk;
    assert forall c | c in server.list :: c.fd in Fds(server.list);
    client := new Client(clientFd, server.requestBufferSize, server.answerHeaderBufferSize);
    RegisterClient(server, client);
  }

  /** Adds a new client, whose descriptor has just been opened, to the list and to the books. */
  method RegisterClient(server: Server, client: Client)
    requires server.Table() && server.CacheOk() && server.ClientsOk()
    requires |server.list| < server.maxNbClients && server.sockfd !in Fds(server.list)
    requires multiset(server.accepted) == multiset(server.list) + server.closed
    requires server.os.open == {server.sockfd} + Fds(server.list) + {client.fd}
    requires client.fd !in {server.sockfd} + Fds(server.list)
    requires client !in server.list && client !in server.accepted
    requires forall c | c in server.list :: c.Own() !! client.Own() && c.fd != client.fd
    requires client.Own() !! server.cache.Repr && client.Ok(server.cache.root.view)
    requires client.requestBuffer.Length == server.requestBufferSize
    requires client.answerHeaderBuffer.Length == server.answerHeaderBufferSize
    modifies server`clients, server`nbClients, server`list, server`accepted
    modifies client`previous, client`next, server.list`previous
    ensures server.Valid() && server.list == [client] + old(server.list)
    ensures server.accepted == old(server.accepted) + {client}
  {
    hide Server.Table, Server.CacheOk, Server.ClientsOk, Client.Own, Client.Ok, Fds;
    TableLength(server);
    OneMoreClient(server.list, client, server.accepted, server.closed);
    LinkClient(server, client);
    server.accepted := server.accepted + {client};
    assert server.Books();
  }

  method LinkClient(server: Server, client: Client)
    requires server.Table() && server.CacheOk() && server.ClientsOk() && client !in server.list
    requires forall c | c in server.list :: c.Own() !! client.Own() && c.fd != client.fd
    requires client.Own() !! server.cache.Repr && client.Ok(server.cache.root.view)
    requires client.requestBuffer.Length == server.requestBufferSize
    requires client.answerHeaderBuffer.Length == server.answerHeaderBufferSize
    modifies server`clients, server`nbClients, server`list
    modifies client`previous, client`next, server.list`previous
    ensures server.Table() && server.CacheOk() && server.ClientsOk() && server.list == [client] + old(server.list)
    ensures server !in server.cache.Repr
  {
    hide Server.Table, Client.Own, Client.Ok, Folder.Valid, AllFiles, FilesOk;
    assert client !in server.cache.Repr && forall c | c in server.list :: c !in server.cache.Repr;
    AddClientToServer(server, client);
    assert forall c | c in server.list :: c == client || c in old(server.list);
  }

  lemma TableLength(server: Server)
    requires server.Table()
    ensures server.nbClients == |server.list|
  {
  }

  lemma OneMoreClient(list: seq<Client>, client: Client, accepted: set<Client>, closed: multiset<Client>)
    requires client !in accepted && multiset(accepted) == multiset(list) + closed
    ensures multiset(accepted + {client}) == multiset([client] + list) + closed
    ensures Fds([client] + list) == {client.fd} + Fds(list)
  {
    assert multiset(accepted + {client}) == multiset(accepted) + multiset{client};
    assert multiset([client] + list) == multiset{client} + multiset(list);
  }

  /** Closes the listening socket and all the clients: in the end each client that was ever
      accepted has been deleted, once. */
  method DeleteServer(server: Server)
    requires server.Closable()
    modifies server.os, server`closed
    ensures server.os.open == old(server.os.open) - {server.sockfd} - Fds(server.list)
    ensures server.os.log == old(server.os.log) + [Closed(server.sockfd)] + Closes(server.list)
    ensures server.closed == multiset(server.accepted)
  {
    hide Client.Own, Separate, Fds;
    server.os.Close(server.sockfd);
    var currentClient := server.clients;
    ghost var i := 0;
    ghost var done := server.list[..0];
    assert Fds(done) == {} by { NoFds(done); }
    while currentClient != null
      invariant i <= |server.list| && done == server.list[..i]
      invariant currentClient == if i < |server.list| then server.list[i] else null
      invariant server.os.open == old(server.os.open) - {server.sockfd} - Fds(done)
      invariant server.os.log == old(server.os.log) + [Closed(server.sockfd)] + Closes(done)
      invariant server.closed == old(server.closed) + multiset(done)
      decreases |server.list| - i
    {
      var nextClient := currentClient.next;
      OneMoreFd(server.list, i);
      OneMoreClose(done, currentClient);
      DeleteClient(server, currentClient);
      currentClient := nextClient;
      done := done + [server.list[i]];
      i := i + 1;
    }
    assert done == server.list;
  }

  /** Closing some clients, one after the other. */
  function Closes(list: seq<Client>): seq<Event> {
    if list == [] then [] else Closes(list[..|list| - 1]) + [Closed(list[|list| - 1].fd)]
  }

  lemma OneMoreClose(list: seq<Client>, client: Client)
    ensures Closes(list + [client]) == Closes(list) + [Closed(client.fd)]
  {
    assert (list + [client])[..|list|] == list;
  }

  lemma NoFds(list: seq<Client>)
    requires list == []
    ensures Fds(list) == {}
  {
  }

  lemma OneMoreFd(list: seq<Client>, i: nat)
    requires Separate(list) && i < |list|
    ensures list[i].fd in Fds(list) && list[i].fd !in Fds(list[..i])
    ensures Fds(list[..i] + [list[i]]) == Fds(list[..i]) + {list[i].fd}
    ensures list[..i] + [list[i]] == list[..i + 1]
  {
    hide Client.Own;
  }

  // ---------------------------------------------------------------------------
  // Polling
  // ---------------------------------------------------------------------------

  /** What is polled for a client. */
  function EntryFor(fd: int, state: ClientState): PollFd {
    match state
    case WaitingForRequest => PollFd(fd, {PollIn}, {})
    case Answering => PollFd(fd, {PollOut}, {})
    case ProcessingRequest => PollFd(-1, {}, {})
  }

  method BuildPolledSockets(server: Server) returns (polled: array<PollFd>)
    requires server.Table()
    ensures fresh(polled) && polled.Length == |server.list| + 1
    ensures polled[0] == PollFd(server.sockfd, {PollIn}, {})
    ensures forall i | 0 <= i < |server.list| :: polled[i + 1] == EntryFor(server.list[i].fd, server.list[i].state)
  {
    hide Separate;
    polled := new PollFd[server.nbClients + 1](_ => NO_POLLFD);
    var nbPolledSockets := 1;
    polled[0] := PollFd(server.sockfd, {PollIn}, {});
    var currentClient := server.clients;
    while currentClient != null
      invariant 1 <= nbPolledSockets <= |server.list| + 1
      invariant currentClient ==
                if nbPolledSockets <= |server.list| then server.list[nbPolledSockets - 1] else null
      invariant polled[0] == PollFd(server.sockfd, {PollIn}, {})
      invariant forall i | 0 <= i < nbPolledSockets - 1 ::
                  polled[i + 1] == EntryFor(server.list[i].fd, server.list[i].state)
      decreases |server.list| - nbPolledSockets
    {
      match currentClient.state {
        case WaitingForRequest =>
          polled[nbPolledSockets] := PollFd(currentClient.fd, {PollIn}, {});
        case Answering =>
          polled[nbPolledSockets] := PollFd(currentClient.fd, {PollOut}, {});
        case ProcessingRequest =>
          polled[nbPolledSockets] := PollFd(-1, {}, {});
      }
      nbPolledSockets := nbPolledSockets + 1;
      currentClient := currentClient.next;
    }
  }

  // ---------------------------------------------------------------------------
  // Serving the ready clients
  // ---------------------------------------------------------------------------

  datatype Action = Nothing | HangUp | ReadRequest | WriteAnswer

  /** What is due to a client, according to its state and to what was reported for it. */
  function ActionFor(state: ClientState, revents: set<PollEvent>): Action {
    if PollHup in revents then HangUp
    else if state == WaitingForRequest && PollIn in revents then ReadRequest
    else if state == Answering && PollOut in revents then WriteAnswer
    else Nothing
  }

  /** The event asked for is the one that is acted upon: for a client that is polled, nothing is
      done exactly when nothing was reported, except errors. */
  lemma EntryAsksForAction(fd: int, state: ClientState, revents: set<PollEvent>)
    requires fd >= 0 && state != ProcessingRequest
    requires PossibleReport(EntryFor(fd, state).(revents := revents))
    ensures ActionFor(state, revents) == Nothing <==> revents <= {PollErr, PollNval}
  {
    if ActionFor(state, revents) == Nothing {
      forall event | event in revents
        ensures event == PollErr || event == PollNval
      {
        assert event in EntryFor(fd, state).events + {PollErr, PollHup, PollNval};
      }
    }
  }

  /** What does not change during a run. */
  datatype Setting = Setting(
    sockfd: int, maxNbClients: nat, requestBufferSize: nat, disk: map<string, string>, view: FolderVal)

  ghost function SettingOf(server: Server): Setting {
    Setting(server.sockfd, server.maxNbClients, server.requestBufferSize, server.os.disk, server.view)
  }

  /** What one read does: it asks for as much as the buffer may hold. If it delivers nothing the
      client is removed, and otherwise its request is processed. */
  ghost predicate ReadPerformed(fd: int, v: FolderVal, before: Snapshot, after: Snapshot, events: seq<Event>,
                                listed: bool) {
    && events != [] && events[0].DataRead? && events[0].fd == fd
    && events[0].asked == Room(before) && |events[0].data| <= events[0].asked
    && if events[0].data == "" then events[1..] == [Closed(fd)] && !listed
       else events[1..] == [] && listed && Processed(AfterData(before, events[0].data), after, v)
  }

  /** An action was performed, once: `events` are all the calls made for it, and the client is
      still listed, in the state told, exactly when these calls do not give a reason to remove it.
      A client that hung up is only closed, and one that sent something, or can be sent something,
      is read from or written to once, whether or not this makes it leave. */
  ghost predicate Performed(action: Action, fd: int, setting: Setting, before: Snapshot, after: Snapshot,
                            events: seq<Event>, listed: bool) {
    match action
    case Nothing => events == [] && listed && after == before
    case HangUp => events == [Closed(fd)] && !listed
    case ReadRequest => ReadPerformed(fd, setting.view, before, after, events, listed)
    case WriteAnswer =>
      && WriteEvents(setting.disk, fd, HeaderText(before.answer), before.offset, before.content, events, listed)
      && (listed ==> after == AfterWrite(before, events))
  }

  /** A call made for what was due to a client failed, and ends the server: only a write may do so. */
  ghost predicate Failed(action: Action, fd: int, before: Snapshot, events: seq<Event>) {
    action == WriteAnswer && WriteFails(fd, HeaderText(before.answer), before.offset, before.content, events)
  }

  /** Serves one client. `handled` tells whether it is counted. */
  method ServeClient(server: Server, client: Client, revents: set<PollEvent>, ghost k: nat)
    returns (handled: bool, exited: bool, ghost listed: bool, ghost events: seq<Event>)
    requires server.Valid() && k < |server.list| && server.list[k] == client
    modifies server`clients, server`nbClients, server`list, server`closed, server.os
    modifies server.list`previous, server.list`next
    modifies client, client.requestBuffer, client.httpRequest, client.answerHeaderBuffer, client.httpAnswer
    ensures server.os.log == old(server.os.log) + events
    ensures exited ==>
      && server.Closable() && server.list == old(server.list)
      && Failed(ActionFor(old(client.state), revents), client.fd, old(Snap(client)), events)
    ensures !exited ==>
      var action := ActionFor(old(client.state), revents);
      && server.Valid()
      && server.list == (if listed then old(server.list) else Without(old(server.list), k))
      && Performed(action, client.fd, SettingOf(server), old(Snap(client)), Snap(client), events, listed)
      && (handled <==> action == ReadRequest || action == WriteAnswer)
  {
    hide Server.Valid, Server.Closable, HeaderText, WriteEvents, Received, Without, Processed, WriteFails;
    ghost var before := Snap(client);
    handled, exited, listed, events := false, false, true, [];
    var state := client.state;
    if PollHup in revents {
      DropListed(server, client, k);
      listed, events := false, [Closed(client.fd)];
    } else {
      match state {
        case WaitingForRequest =>
          if PollIn in revents {
            var data := ReadFromClient(server, client, k);
            listed := data != "";
            events := [DataRead(client.fd, Room(before), data)] + if data == "" then [Closed(client.fd)] else [];
            handled := true;
          }
        case Answering =>
          if PollOut in revents {
            exited, listed, events := WriteToClient(server, client, k);
            handled := true;
          }
        case ProcessingRequest =>
      }
    }
  }

  lemma {:induction false} ReadyPrefix(sockets: seq<PollFd>, m: nat)
    requires m <= |sockets|
    ensures CountReady(sockets[..m]) <= CountReady(sockets)
    ensures CountReady(sockets[..m]) == CountReady(sockets) ==>
              forall i | m <= i < |sockets| :: sockets[i].revents == {}
    decreases |sockets|
  {
    if m == |sockets| {
      assert sockets[..m] == sockets;
    } else {
      var shorter := sockets[..|sockets| - 1];
      assert shorter[..m] == sockets[..m];
      ReadyPrefix(shorter, m);
      assert forall i | 0 <= i < |shorter| :: shorter[i] == sockets[i];
    }
  }

  lemma ReadyStep(sockets: seq<PollFd>, m: nat)
    requires m < |sockets|
    ensures CountReady(sockets[..m + 1]) == CountReady(sockets[..m]) + if sockets[m].revents != {} then 1 else 0
  {
    assert sockets[..m + 1][..m] == sockets[..m];
  }

  /** Serving the client at position `i` of the original list, `kept` being those of its
      predecessors that are still listed. */
  lemma NextKept(orig: seq<Client>, kept: seq<Client>, i: nat, listed: bool, newList: seq<Client>)
    requires NoRepeat(orig) && i < |orig| && forall c | c in kept :: c in orig[..i]
    requires var list := kept + orig[i..]; newList == if listed then list else Without(list, |kept|)
    ensures orig[i] in newList <==> listed
    ensures newList == (if listed then kept + [orig[i]] else kept) + orig[i + 1..]
    ensures forall c | c in kept + [orig[i]] :: c in orig[..i + 1]
  {
    assert orig[i..] == [orig[i]] + orig[i + 1..];
    assert orig[..i + 1] == orig[..i] + [orig[i]];
  }

  lemma OthersStay(orig: seq<Client>, kept: seq<Client>, i: nat, listed: bool, newList: seq<Client>, j: nat)
    requires NoRepeat(orig) && j < i < |orig|
    requires newList == (if listed then kept + [orig[i]] else kept) + orig[i + 1..]
    ensures orig[j] in kept + orig[i..] <==> orig[j] in newList
  {
    assert orig[i..] == [orig[i]] + orig[i + 1..];
    assert orig[j] != orig[i];
  }

  /** What is known when the traversal of a round begins: the clients, what they were like, and
      what was reported. */
  datatype Report = Report(orig: seq<Client>, before: seq<Snapshot>, polled: seq<PollFd>, setting: Setting)
  {
    ghost predicate Sized() {
      |before| == |orig| && |polled| == |orig| + 1
    }

    /** The reports are among those `poll` may make about the entries built for the clients. */
    ghost predicate Possible() {
      && Sized()
      && (forall i | 0 <= i < |polled| :: PossibleReport(polled[i]))
      && polled[0].(revents := {}) == PollFd(setting.sockfd, {PollIn}, {})
      && (forall i | 0 <= i < |orig| :: polled[i + 1].(revents := {}) == EntryFor(orig[i].fd, before[i].state))
    }

    /** What is due to the client at position `i`. */
    ghost function Due(i: nat): Action
      requires Sized() && i < |orig|
    {
      ActionFor(before[i].state, polled[i + 1].revents)
    }

    /** What was due to the client at position `i` failed. */
    ghost predicate FailedAt(i: nat, events: seq<Event>)
      requires Sized() && i < |orig|
    {
      Failed(Due(i), orig[i].fd, before[i], events)
    }

    /** What was due to the client at position `i` was performed by these calls. */
    ghost predicate Served(i: nat, list: seq<Client>, after: Snapshot, events: seq<Event>)
      requires Sized() && i < |orig|
    {
      Performed(Due(i), orig[i].fd, setting, before[i], after, events, orig[i] in list)
    }
  }

  /** The state of a traversal when the clients before position `i` had their turn: these were
      served, and the others are still listed and as they were when the round began; `now` is what
      the clients are like. */
  ghost predicate Turn(r: Report, now: seq<Snapshot>, list: seq<Client>, kept: seq<Client>,
                       calls: seq<seq<Event>>, i: nat)
    requires r.Sized() && i <= |r.orig|
  {
    && |now| == |r.orig| && list == kept + r.orig[i..] && |calls| == i
    && (forall c | c in kept :: c in r.orig[..i])
    && (forall j | 0 <= j < i :: r.Served(j, list, now[j], calls[j]))
    && (forall j | i <= j < |r.orig| :: now[j] == r.before[j])
  }

  /** The turn of the client at position `i` changes nothing for the others. */
  lemma NextTurn(r: Report, now: seq<Snapshot>, newList: seq<Client>, list: seq<Client>, kept: seq<Client>,
                 calls: seq<seq<Event>>, i: nat, after: Snapshot, listed: bool, events: seq<Event>)
    requires r.Sized() && i < |r.orig| && NoRepeat(r.orig) && Turn(r, now, list, kept, calls, i)
    requires |kept| < |list| && newList == if listed then list else Without(list, |kept|)
    requires Performed(r.Due(i), r.orig[i].fd, r.setting, r.before[i], after, events, listed)
    ensures Turn(r, now[i := after], newList, if r.orig[i] in newList then kept + [r.orig[i]] else kept,
                 calls + [events], i + 1)
  {
    hide Without, NoRepeat, Performed, ActionFor;
    NextKept(r.orig, kept, i, listed, newList);
    forall j | 0 <= j < i
      ensures r.Served(j, newList, now[j], (calls + [events])[j])
    {
      OthersStay(r.orig, kept, i, listed, newList, j);
      assert r.Served(j, list, now[j], calls[j]);
    }
  }

  /** What serving one client cannot change. */
  lemma OthersApart(list: seq<Client>, i: nat)
    requires Separate(list) && i < |list|
    ensures forall j | 0 <= j < |list| && j != i ::
              && list[j] != list[i]
              && list[j].httpAnswer != list[i].httpAnswer && list[j].httpAnswer != list[i].httpRequest
              && list[j].requestBuffer != list[i].requestBuffer
              && list[j].requestBuffer != list[i].answerHeaderBuffer
  {
    hide Client.Own;
    forall j | 0 <= j < |list| && j != i
      ensures list[j] != list[i]
      ensures list[j].httpAnswer != list[i].httpAnswer && list[j].httpAnswer != list[i].httpRequest
      ensures list[j].requestBuffer != list[i].requestBuffer
      ensures list[j].requestBuffer != list[i].answerHeaderBuffer
    {
      assert list[j].Own() !! list[i].Own();
      ApartFrom(list[j], list[i]);
    }
  }

  lemma ApartFrom(c: Client, d: Client)
    requires c.Own() !! d.Own()
    ensures c != d && c.httpAnswer != d.httpAnswer && c.httpAnswer != d.httpRequest
    ensures c.requestBuffer != d.requestBuffer && c.requestBuffer != d.answerHeaderBuffer
  {
    assert c in c.Own() && c.httpAnswer in c.Own() && c.requestBuffer in c.Own();
  }

  lemma FirstTurn(r: Report)
    requires r.Sized()
    ensures Turn(r, r.before, r.orig, [], [], 0)
  {
    assert [] + r.orig[0..] == r.orig;
  }

  /** All the calls of a traversal. */
  function Flat(calls: seq<seq<Event>>): seq<Event> {
    if calls == [] then [] else Flat(calls[..|calls| - 1]) + calls[|calls| - 1]
  }

  lemma NoCalls()
    ensures Flat([]) == []
  {
  }

  lemma OneMoreCall(log: seq<Event>, calls: seq<seq<Event>>, events: seq<Event>)
    ensures log + Flat(calls + [events]) == log + Flat(calls) + events
  {
    assert (calls + [events])[..|calls|] == calls;
    assert log + (Flat(calls) + events) == log + Flat(calls) + events;
  }

  /** Nothing is called for the clients that are not visited. */
  lemma {:induction false} NoMoreCalls(calls: seq<seq<Event>>, n: nat) returns (all: seq<seq<Event>>)
    ensures |all| == |calls| + n && all[..|calls|] == calls && Flat(all) == Flat(calls)
    ensures forall j | |calls| <= j < |all| :: all[j] == []
  {
    if n == 0 {
      all := calls;
    } else {
      var fewer := NoMoreCalls(calls, n - 1);
      all := fewer + [[]];
      OneMoreCall([], fewer, []);
    }
  }

  /** What was due to each client listed when the round began was performed. */
  ghost predicate AllServed(r: Report, list: seq<Client>, after: seq<Snapshot>, calls: seq<seq<Event>>) {
    && r.Sized() && |after| == |calls| == |r.orig|
    && forall i | 0 <= i < |r.orig| :: r.Served(i, list, after[i], calls[i])
  }

  /** The same for the clients that had their turn so far. */
  ghost predicate SomeServed(r: Report, list: seq<Client>, now: seq<Snapshot>, calls: seq<seq<Event>>) {
    && r.Sized() && |now| == |r.orig| && |calls| <= |r.orig|
    && forall i | 0 <= i < |calls| :: r.Served(i, list, now[i], calls[i])
  }

  lemma TurnServed(r: Report, now: seq<Snapshot>, list: seq<Client>, kept: seq<Client>, calls: seq<seq<Event>>)
    requires r.Sized() && |calls| <= |r.orig| && Turn(r, now, list, kept, calls, |calls|)
    ensures SomeServed(r, list, now, calls)
  {
    hide Performed, ActionFor;
  }

  lemma LastTurn(r: Report, now: seq<Snapshot>, list: seq<Client>, kept: seq<Client>, calls: seq<seq<Event>>, i: nat,
                 all: seq<seq<Event>>)
    requires r.Sized() && i <= |r.orig| && Turn(r, now, list, kept, calls, i)
    requires forall j | i < j < |r.polled| :: r.polled[j].revents == {}
    requires |all| == |r.orig| && all[..i] == calls && forall j | i <= j < |all| :: all[j] == []
    ensures AllServed(r, list, now, all)
    ensures forall c | c in list :: c in r.orig
  {
    hide Performed, ActionFor;
    forall j | 0 <= j < |r.orig|
      ensures r.Served(j, list, now[j], all[j])
    {
      if j < i {
        assert all[..i][j] == all[j];
      } else {
        assert r.orig[i..][j - i] == r.orig[j];
        NothingDue(r, list, j);
      }
    }
  }

  /** Nothing is to be done when nothing was reported. */
  lemma NothingDue(r: Report, list: seq<Client>, j: nat)
    requires r.Sized() && j < |r.orig| && r.polled[j + 1].revents == {} && r.orig[j] in list
    ensures r.Served(j, list, r.before[j], [])
  {
    hide WriteEvents, HeaderText;
  }

  /** All the objects of some clients. */
  ghost function Objects(list: seq<Client>): (r: set<object>)
    ensures forall c | c in list :: c.Own() <= r
  {
    if list == [] then {} else list[0].Own() + Objects(list[1..])
  }

  ghost function Snaps(list: seq<Client>): (r: seq<Snapshot>)
    reads list`state, list`requestBufferLength, list`nbReads, list`answerHeaderBufferOffset
    reads list`headerWrites, list`bodyWrites, list`received
    reads set c | c in list :: c.requestBuffer
    reads set c | c in list :: c.httpAnswer
    ensures |r| == |list|
  {
    if list == [] then [] else [Snap(list[0])] + Snaps(list[1..])
  }

  lemma {:induction false} SnapsAt(list: seq<Client>)
    ensures forall j | 0 <= j < |list| :: Snaps(list)[j] == Snap(list[j])
    decreases |list|
  {
    hide Snap;
    if list != [] {
      SnapsAt(list[1..]);
    }
  }

  /** The clients handled are among the entries ready so far, the first of which is not a client. */
  ghost predicate Tally(polled: seq<PollFd>, nbHandled: int, i: nat)
    requires i < |polled|
  {
    nbHandled + (if polled[0].revents != {} then 1 else 0) <= CountReady(polled[..i + 1])
  }

  lemma TallyStart(polled: seq<PollFd>)
    requires polled != []
    ensures Tally(polled, 0, 0)
  {
    ReadyStep(polled, 0);
  }

  lemma TallyStep(polled: seq<PollFd>, nbHandled: int, i: nat, handled: bool)
    requires i + 1 < |polled| && Tally(polled, nbHandled, i)
    requires handled ==> polled[i + 1].revents != {}
    ensures Tally(polled, if handled then nbHandled + 1 else nbHandled, i + 1)
  {
    ReadyStep(polled, i + 1);
  }

  /** Once as many clients were handled as there are ready entries, nothing is ready any more,
      nor was the listening socket. */
  lemma TallyEnd(polled: seq<PollFd>, nbHandled: int, i: nat)
    requires i < |polled| && Tally(polled, nbHandled, i)
    requires nbHandled == CountReady(polled) || i == |polled| - 1
    ensures forall j | i < j < |polled| :: polled[j].revents == {}
    ensures nbHandled == CountReady(polled) ==> polled[0].revents == {}
  {
    ReadyPrefix(polled, i + 1);
  }

  /** Serves the client at position `i` of some separate clients, the others being left as they are. */
  method ServeOneOf(server: Server, client: Client, revents: set<PollEvent>, ghost k: nat,
                    ghost orig: seq<Client>, ghost i: nat)
    returns (handled: bool, exited: bool, ghost listed: bool, ghost events: seq<Event>, ghost after: Snapshot)
    requires server.Valid() && k < |server.list| && server.list[k] == client
    requires Separate(orig) && i < |orig| && orig[i] == client
    modifies server`clients, server`nbClients, server`list, server`closed, server.os
    modifies server.list`previous, server.list`next
    modifies client, client.requestBuffer, client.httpRequest, client.answerHeaderBuffer, client.httpAnswer
    ensures server.os.log == old(server.os.log) + events
    ensures Snaps(orig) == old(Snaps(orig))[i := after]
    ensures exited ==>
      var before := old(Snaps(orig))[i];
      && server.Closable() && server.list == old(server.list)
      && Failed(ActionFor(before.state, revents), client.fd, before, events)
    ensures !exited ==>
      var before := old(Snaps(orig))[i];
      var action := ActionFor(before.state, revents);
      && server.Valid()
      && server.list == (if listed then old(server.list) else Without(old(server.list), k))
      && Performed(action, client.fd, SettingOf(server), before, after, events, listed)
      && (handled <==> action == ReadRequest || action == WriteAnswer)
  {
    hide Server.Valid, Server.Closable, Client.Own, Without, Performed, Separate, Snaps, Failed, ActionFor, Chained;
    OthersApart(orig, i);
    ghost var now := Snaps(orig);
    SnapsAt(orig);
    handled, exited, listed, events := ServeClient(server, client, revents, k);
    after := Snap(client);
    SnapsAt(orig);
    forall j | 0 <= j < |orig|
      ensures Snaps(orig)[j] == now[i := after][j]
    {
    }
  }

  /** The turn of the client at position `i`: its successor is saved first, since the client may
      be deleted; then it is served, and counted if something was handled. */
  method ServeTurn(server: Server, client: Client, polled: seq<PollFd>, polledIndex: nat, nbHandled: int,
                   ghost r: Report, ghost kept: seq<Client>, ghost calls: seq<seq<Event>>)
    returns (nextClient: Client?, nowHandled: int, exited: bool, ghost kept': seq<Client>, ghost events: seq<Event>)
    requires server.Valid() && r.Sized() && Separate(r.orig) && |calls| < |r.orig|
    requires r.polled == polled && r.setting == SettingOf(server)
    requires client == r.orig[|calls|] && polledIndex == |calls| + 1
    requires Turn(r, Snaps(r.orig), server.list, kept, calls, |calls|) && Tally(polled, nbHandled, |calls|)
    modifies server`clients, server`nbClients, server`list, server`closed, server.os
    modifies server.list`previous, server.list`next
    modifies client, client.requestBuffer, client.httpRequest, client.answerHeaderBuffer, client.httpAnswer
    ensures server.os.log == old(server.os.log) + events
    ensures exited ==>
      server.Closable() && server.list == old(server.list) && r.FailedAt(|calls|, events)
    ensures !exited ==>
      && server.Valid() && Turn(r, Snaps(r.orig), server.list, kept', calls + [events], |calls| + 1)
      && Tally(polled, nowHandled, |calls| + 1)
    ensures nextClient == if |calls| + 1 < |r.orig| then r.orig[|calls| + 1] else null
  {
    hide Server.Valid, Server.Closable, Client.Own, Without, NoRepeat, Performed, Tally, Turn, Separate, Snap, Snaps,
         Failed;
    ghost var i, now := |calls|, Snaps(r.orig);
    TurnFacts(server, r, now, kept, calls, i);
    SeparateIsNoRepeat(r.orig);
    ghost var list := server.list;
    nextClient := client.next;
    var handled;
    ghost var listed, after;
    handled, exited, listed, events, after :=
      ServeOneOf(server, client, polled[polledIndex].revents, |kept|, r.orig, i);
    nowHandled := if handled then nbHandled + 1 else nbHandled;
    kept' := if client in server.list then kept + [client] else kept;
    if !exited {
      NextTurn(r, now, server.list, list, kept, calls, i, after, listed, events);
      TallyStep(polled, nbHandled, i, handled);
    }
  }

  /** Serves the ready clients in turn, and stops as soon as the expected number of them has been
      handled. Although clients may be unlinked on the way, each one gets what is due to it,
      once, as if the whole list had been visited: `calls` are the calls made for each of them,
      and no other call is made. */
  method ServeReadyClients(server: Server, polled: seq<PollFd>, nbReadySockets: int)
    returns (exited: bool, ghost calls: seq<seq<Event>>, ghost now: seq<Snapshot>, ghost events: seq<Event>)
    requires server.Valid() && |polled| == |server.list| + 1
    requires nbReadySockets == CountReady(polled)
    modifies server`clients, server`nbClients, server`list, server`closed, server.os
    modifies Objects(server.list)
    ensures server.os.log == old(server.os.log) + Flat(calls) + events
    ensures exited ==>
      var r := Report(old(server.list), old(Snaps(server.list)), polled, SettingOf(server));
      && server.Closable() && SomeServed(r, server.list, now, calls)
      && |calls| < |r.orig| && r.FailedAt(|calls|, events)
    ensures !exited ==>
      && server.Valid() && events == [] && now == Snaps(old(server.list))
      && AllServed(Report(old(server.list), old(Snaps(server.list)), polled, SettingOf(server)),
                   server.list, now, calls)
      && forall c | c in server.list :: c in old(server.list)
  {
    hide Server.Valid, Server.Closable, Client.Own, Without, NoRepeat, CountReady, Turn, Snaps, Objects, Separate,
         AllServed, SomeServed, Server.Table, Tally, Flat, Snap, Report.FailedAt, Chained, Report.Possible,
         Report.Served, Client.Ok, Folder.Valid, AllFiles, FilesOk, Server.Books, Server.CacheOk, SettingOf;
    ghost var r := Report(server.list, Snaps(server.list), polled, SettingOf(server));
    ghost var kept: seq<Client> := [];
    calls, now, events := [], Snaps(r.orig), [];
    TableOfValid(server);
    FirstTurn(r);
    TallyStart(polled);
    NoCalls();
    var polledSocketsIndex := 1;
    var nbHandledSockets := 0;
    var currentClient := server.clients;
    while currentClient != null
      invariant |calls| <= |r.orig| && polledSocketsIndex == |calls| + 1
      invariant server.Valid() && Turn(r, Snaps(r.orig), server.list, kept, calls, |calls|)
      invariant currentClient == if |calls| < |r.orig| then r.orig[|calls|] else null
      invariant Tally(polled, nbHandledSockets, |calls|)
      invariant server.os.log == old(server.os.log) + Flat(calls)
      decreases |r.orig| - |calls|
    {
      now := Snaps(r.orig);
      TurnFacts(server, r, now, kept, calls, |calls|);
      TurnServed(r, now, server.list, kept, calls);
      var nextClient;
      nextClient, nbHandledSockets, exited, kept, events :=
        ServeTurn(server, currentClient, polled, polledSocketsIndex, nbHandledSockets, r, kept, calls);
      if exited {
        return;
      }
      OneMoreCall(old(server.os.log), calls, events);
      calls := calls + [events];
      if nbHandledSockets == nbReadySockets {
        break;
      }
      polledSocketsIndex := polledSocketsIndex + 1;
      currentClient := nextClient;
    }
    now := Snaps(r.orig);
    calls := EndTurns(r, now, server.list, kept, calls, nbHandledSockets);
    return false, calls, now, [];
  }

  /** The clients that were not visited need nothing. */
  lemma EndTurns(r: Report, now: seq<Snapshot>, list: seq<Client>, kept: seq<Client>, calls: seq<seq<Event>>,
                 nbHandled: int)
    returns (all: seq<seq<Event>>)
    requires r.Sized() && |calls| <= |r.orig| && Turn(r, now, list, kept, calls, |calls|)
    requires Tally(r.polled, nbHandled, |calls|)
    requires nbHandled == CountReady(r.polled) || |calls| == |r.orig|
    ensures AllServed(r, list, now, all) && Flat(all) == Flat(calls)
    ensures forall c | c in list :: c in r.orig
  {
    hide Turn, Tally, CountReady, Flat, AllServed;
    TallyEnd(r.polled, nbHandled, |calls|);
    all := NoMoreCalls(calls, |r.orig| - |calls|);
    LastTurn(r, now, list, kept, calls, |calls|, all);
  }

  lemma TurnFacts(server: Server, r: Report, now: seq<Snapshot>, kept: seq<Client>, calls: seq<seq<Event>>, i: nat)
    requires server.Valid() && r.Sized() && i < |r.orig| && Turn(r, now, server.list, kept, calls, i)
    ensures |kept| < |server.list| && server.list[|kept|] == r.orig[i] && now[i] == r.before[i]
    ensures r.orig[i].next == if i + 1 < |r.orig| then r.orig[i + 1] else null
    ensures r.orig[i].Own() <= Objects(r.orig)
    ensures forall c | c in server.list :: c in Objects(r.orig)
  {
    hide Client.Own, Client.Ok, Folder.Valid, AllFiles, FilesOk, Performed;
    assert server.list[|kept|] == r.orig[i];
    assert forall c | c in server.list :: c in r.orig && c in c.Own();
    assert i + 1 < |r.orig| ==> server.list[|kept| + 1] == r.orig[i + 1];
  }

  lemma TableOfValid(server: Server)
    requires server.Valid()
    ensures server.Table() && Separate(server.list)
    ensures server.clients == if server.list == [] then null else server.list[0]
  {
    hide Client.Own, Client.Ok, Folder.Valid, AllFiles, FilesOk;
  }

  // ---------------------------------------------------------------------------
  // Rounds
  // ---------------------------------------------------------------------------

  method PollClients(server: Server) returns (polled: seq<PollFd>, nbReadySockets: int)
    requires server.Valid()
    modifies server.os`log
    ensures server.Valid()
    ensures Report(server.list, Snaps(server.list), polled, SettingOf(server)).Possible()
    ensures nbReadySockets < 0 || nbReadySockets == CountReady(polled)
    ensures server.os.log == old(server.os.log) + [if nbReadySockets < 0 then PollFailed else Polled(polled)]
  {
    hide Server.Valid, Server.Table, CountReady, NoRepeat, Separate, Snaps, Snap, PossibleReport, EntryFor, Objects;
    TableOfValid(server);
    CacheIsApart(server);
    var polledSockets := BuildPolledSockets(server);
    ghost var built := polledSockets[..];
    nbReadySockets := server.os.Poll(polledSockets);
    polled := polledSockets[..];
    ReportsOnBuilt(polled, built, server.list, SettingOf(server));
  }

  lemma ReportsOnBuilt(polled: seq<PollFd>, built: seq<PollFd>, list: seq<Client>, setting: Setting)
    requires |polled| == |built| == |list| + 1 && built[0] == PollFd(setting.sockfd, {PollIn}, {})
    requires forall i | 0 <= i < |polled| :: PossibleReport(polled[i])
    requires forall i | 0 <= i < |polled| :: polled[i].fd == built[i].fd && polled[i].events == built[i].events
    requires forall i | 0 <= i < |list| :: built[i + 1] == EntryFor(list[i].fd, list[i].state)
    ensures Report(list, Snaps(list), polled, setting).Possible()
  {
    hide Snaps;
    SnapsAt(list);
  }

  /** What happened in a round: what was reported, the calls made for each client and what it was
      like afterwards, the clients listed in the end, and the one that was accepted. */
  datatype Record = Record(
    report: Report, calls: seq<seq<Event>>, after: seq<Snapshot>, list: seq<Client>, newcomer: Option<Client>)
  {
    /** Each client got what was due to it, and a client was accepted, and listed first, exactly
        when the listening socket was ready and there was room. */
    ghost predicate Valid() {
      && report.Possible() && AllServed(report, list, after, calls)
      && (newcomer.Some? ==>
           && PollIn in report.polled[0].revents && newcomer.value !in report.orig
           && list != [] && list[0] == newcomer.value
           && forall c | c in list[1..] :: c in report.orig)
      && (newcomer.None? ==> forall c | c in list :: c in report.orig)
      && (newcomer.None? && PollIn in report.polled[0].revents ==> |list| == report.setting.maxNbClients)
      && |list| <= report.setting.maxNbClients
    }

    /** All the calls of the round, in order. */
    ghost function Log(): seq<Event> {
      [Polled(report.polled)] + Flat(calls) + if newcomer.Some? then [Accepted(newcomer.value.fd)] else []
    }

    /** The next round begins as this one ended. */
    ghost predicate Continues(orig: seq<Client>, before: seq<Snapshot>) {
      && orig == list && |before| == |orig| && |after| == |report.orig|
      && (forall i, j | 0 <= i < |report.orig| && 0 <= j < |orig| && report.orig[i] == orig[j] ::
            after[i] == before[j])
      && (newcomer.Some? ==> orig != [] && IsNew(before[0], report.setting.requestBufferSize))
    }
  }

  /** How a call that fails ends the server in the middle of a round: polling, serving a client after
      some others, or accepting one after all were served. */
  datatype Failure =
    | PollFails
    | ServeFails(report: Report, now: seq<Snapshot>, list: seq<Client>, calls: seq<seq<Event>>, events: seq<Event>)
    | AcceptFails(report: Report, now: seq<Snapshot>, list: seq<Client>, calls: seq<seq<Event>>)
  {
    /** The clients had what was due to them until the call that failed. */
    ghost predicate Valid() {
      match this
      case PollFails => true
      case ServeFails(report, now, list, calls, events) =>
        && report.Possible() && SomeServed(report, list, now, calls)
        && |calls| < |report.orig| && report.FailedAt(|calls|, events)
      case AcceptFails(report, now, list, calls) =>
        && report.Possible() && AllServed(report, list, now, calls)
        && PollIn in report.polled[0].revents && |list| < report.setting.maxNbClients
    }

    /** The calls of the unfinished round, in order. */
    ghost function Log(): seq<Event> {
      match this
      case PollFails => [PollFailed]
      case ServeFails(report, _, _, calls, events) => [Polled(report.polled)] + Flat(calls) + events
      case AcceptFails(report, _, _, calls) => [Polled(report.polled)] + Flat(calls) + [AcceptFailed]
    }

    /** The round began with these clients. */
    ghost predicate Began(setting: Setting, orig: seq<Client>, before: seq<Snapshot>) {
      PollFails? || (report.setting == setting && report.orig == orig && report.before == before)
    }
  }

  /** The last call of such a round is one that failed: a call to `poll`, to `accept` or to `open`, or a
      write for another reason than a reset connection. */
  lemma FailureIsFatal(f: Failure)
    requires f.Valid()
    ensures f.Log() != []
    ensures var last := f.Log()[|f.Log()| - 1];
      match f
      case PollFails => f.Log() == [PollFailed]
      case AcceptFails(report, _, list, _) =>
        last == AcceptFailed && PollIn in report.polled[0].revents && |list| < report.setting.maxNbClients
      case ServeFails(_, _, _, _, _) =>
        || last.OpenFailed?
        || (last.WriteFailed? && !last.connectionReset)
        || (last.SendFailed? && !last.connectionReset)
  {
    hide HeaderText, Offered, Report.Possible, SomeServed, AllServed, Flat;
    if f.ServeFails? {
      assert f.events != [] && IsFatal(f.events[|f.events| - 1]) by {
        var i := |f.calls|;
        PossibleIsSized(f.report);
        FailedStep(f.report.orig[i].fd, f.report.before[i], f.events);
      }
    }
  }

  /** The failures that end the server while it serves a client. */
  predicate IsFatal(event: Event) {
    || event.OpenFailed?
    || (event.WriteFailed? && !event.connectionReset)
    || (event.SendFailed? && !event.connectionReset)
  }

  lemma FailedStep(fd: int, before: Snapshot, events: seq<Event>)
    requires Failed(WriteAnswer, fd, before, events)
    ensures events != [] && IsFatal(events[|events| - 1])
  {
    hide HeaderText, Offered;
    if |events| > 1 {
      assert events[1..][|events| - 2] == events[|events| - 1];
    }
  }

  /** One turn of the loop: poll, serve the ready clients, accept a new one. */
  method HandleOneRound(server: Server) returns (exited: bool, ghost r: Record, ghost failure: Failure)
    requires server.Valid()
    modifies server`clients, server`nbClients, server`list, server`accepted, server`closed, server.os
    modifies Objects(server.list)
    ensures exited ==>
      && server.Closable() && server.accepted == old(server.accepted)
      && failure.Valid() && failure.Began(SettingOf(server), old(server.list), old(Snaps(server.list)))
      && server.os.log == old(server.os.log) + failure.Log()
    ensures !exited ==>
      && server.Valid() && fresh(Objects(server.list) - old(Objects(server.list)))
      && r.report.orig == old(server.list) && r.report.before == old(Snaps(server.list))
      && r.report.setting == SettingOf(server)
      && r.Valid() && r.Continues(server.list, Snaps(server.list))
      && server.os.log == old(server.os.log) + r.Log()
      && server.accepted == old(server.accepted) + Newcomer(r)
      && (r.newcomer.Some? ==> r.newcomer.value !in old(server.accepted))
  {
    hide Server.Valid, Server.Closable, Client.Own, CountReady, Snaps, Objects, AllServed, SomeServed, Record.Continues,
         Record.Valid, Record.Log, Report.Possible, Report.FailedAt, Flat, Snap;
    failure := PollFails;
    r := Record(Report(server.list, Snaps(server.list), [], SettingOf(server)), [], [], [], None);
    var polled, nbReadySockets := PollClients(server);
    if nbReadySockets < 0 {
      ValidIsClosable(server);
      return true, r, failure;
    }
    ghost var report := Report(server.list, Snaps(server.list), polled, SettingOf(server));
    ghost var orig := server.list;
    ObjectsOf(server, orig);
    PossibleIsSized(report);
    ghost var calls, after, events;
    exited, calls, after, events := ServeReadyClients(server, polled, nbReadySockets);
    JoinLogs(old(server.os.log), [Polled(polled)], Flat(calls), events);
    if exited {
      return true, r, ServeFails(report, after, server.list, calls, events);
    }
    FewerObjects(server.list, orig);
    ghost var served := server.list;
    if PollIn in polled[0].revents {
      var newClient;
      newClient, exited := AcceptNewClient(server);
      JoinLogs(old(server.os.log), [Polled(polled)], Flat(calls), [AcceptFailed]);
      if exited {
        ValidIsClosable(server);
        return true, r, AcceptFails(report, after, served, calls);
      }
      if newClient != null {
        OneMoreObjects(newClient, served);
        r := Record(report, calls, after, server.list, Some(newClient));
      } else {
        r := Record(report, calls, after, server.list, None);
      }
    } else {
      r := Record(report, calls, after, server.list, None);
    }
    RoundIsValid(server, r, served, after, old(server.os.log));
  }

  lemma JoinLogs(log: seq<Event>, a: seq<Event>, b: seq<Event>, c: seq<Event>)
    ensures log + a + b + c == log + (a + b + c)
    ensures log + a + b + [] == log + a + b
  {
  }

  lemma PossibleIsSized(r: Report)
    requires r.Possible()
    ensures r.Sized()
  {
  }

  ghost function Newcomer(r: Record): set<Client> {
    if r.newcomer.Some? then {r.newcomer.value} else {}
  }

  lemma RoundIsValid(server: Server, r: Record, served: seq<Client>, after: seq<Snapshot>, log: seq<Event>)
    requires server.Valid() && r.report.Possible() && r.list == server.list && r.report.setting == SettingOf(server)
    requires AllServed(r.report, served, r.after, r.calls) && r.after == Snaps(r.report.orig)
    requires forall c | c in served :: c in r.report.orig
    requires if r.newcomer.Some? then
               && r.list == [r.newcomer.value] + served && PollIn in r.report.polled[0].revents
               && r.newcomer.value !in r.report.orig
               && IsNew(Snap(r.newcomer.value), server.requestBufferSize)
             else r.list == served
                  && (PollIn in r.report.polled[0].revents ==> |r.list| == server.maxNbClients)
    ensures r.Valid() && r.Continues(server.list, Snaps(server.list))
    ensures log + r.Log() ==
            log + [Polled(r.report.polled)] + Flat(r.calls)
            + if r.newcomer.Some? then [Accepted(r.newcomer.value.fd)] else []
  {
    hide Performed, Snaps, Server.Table, Server.CacheOk, Server.ClientsOk, Report.Possible, Snap;
    SnapsAt(r.report.orig);
    SnapsAt(server.list);
    PossibleIsSized(r.report);
    JoinLogs(log, [Polled(r.report.polled)], Flat(r.calls),
             if r.newcomer.Some? then [Accepted(r.newcomer.value.fd)] else []);
    assert forall c | c in r.report.orig :: c in r.list <==> c in served;
  }

  lemma {:induction false} ObjectsOf(server: Server, list: seq<Client>)
    ensures server !in Objects(list) && server.os !in Objects(list)
    ensures forall c | c in list :: c in Objects(list)
    decreases |list|
  {
    if list != [] {
      ObjectsOf(server, list[1..]);
      assert list == [list[0]] + list[1..];
    }
  }

  lemma {:induction false} FewerObjects(fewer: seq<Client>, list: seq<Client>)
    requires forall c | c in fewer :: c in list
    ensures Objects(fewer) <= Objects(list)
    decreases |fewer|
  {
    hide Client.Own;
    if fewer != [] {
      FewerObjects(fewer[1..], list);
    }
  }

  lemma OneMoreObjects(client: Client, list: seq<Client>)
    ensures Objects([client] + list) <= Objects(list) + client.Own()
  {
    hide Client.Own;
    assert ([client] + list)[1..] == list;
  }

  lemma {:induction false} ObjectsApart(server: Server, list: seq<Client>)
    requires forall c | c in list :: c.Own() !! server.cache.Repr
    ensures Objects(list) !! server.cache.Repr
    decreases |list|
  {
    hide Client.Own;
    if list != [] {
      ObjectsApart(server, list[1..]);
    }
  }

  lemma CacheIsApart(server: Server)
    requires server.Valid()
    ensures server.cache.Valid() && server !in server.cache.Repr && server.os !in server.cache.Repr
    ensures Objects(server.list) !! server.cache.Repr
  {
    hide Client.Own, Client.Ok, Folder.Valid, AllFiles, FilesOk, Server.Table, Server.Books;
    ObjectsApart(server, server.list);
  }

  /** The records of consecutive rounds: each is that of a round, which begins as the previous one
      ended, and no client is accepted twice. */
  ghost predicate RunOk(history: seq<Record>, setting: Setting) {
    history == [] ||
      var n := |history| - 1;
      && RunOk(history[..n], setting) && history[n].Valid() && history[n].report.setting == setting
      && (n > 0 ==> history[n - 1].Continues(history[n].report.orig, history[n].report.before))
      && forall k, c | 0 <= k < n && c in Newcomer(history[n]) :: c !in history[k].report.orig
  }

  /** All the calls of some rounds. */
  ghost function Calls(history: seq<Record>): seq<Event> {
    if history == [] then [] else Calls(history[..|history| - 1]) + history[|history| - 1].Log()
  }

  /** The clients accepted during some rounds. */
  ghost function Newcomers(history: seq<Record>): multiset<Client> {
    if history == [] then multiset{}
    else Newcomers(history[..|history| - 1]) + multiset(Newcomer(history[|history| - 1]))
  }

  /** A history which matches what the server is like now. */
  ghost predicate Recorded(history: seq<Record>, setting: Setting, accepted: set<Client>,
                           list: seq<Client>, snaps: seq<Snapshot>) {
    && RunOk(history, setting)
    && (history != [] ==> history[|history| - 1].Continues(list, snaps))
    && (forall k, c | 0 <= k < |history| && c in history[k].report.orig :: c in accepted)
  }

  lemma NothingRecorded(setting: Setting, accepted: set<Client>, list: seq<Client>, snaps: seq<Snapshot>)
    ensures RunOk([], setting) && Recorded([], setting, accepted, list, snaps)
    ensures Calls([]) == [] && Newcomers([]) == multiset{}
  {
  }

  lemma RoundRecorded(history: seq<Record>, r: Record, setting: Setting, accepted: set<Client>,
                      accepted': set<Client>, list: seq<Client>, snaps: seq<Snapshot>, log: seq<Event>)
    requires Recorded(history, setting, accepted, r.report.orig, r.report.before)
    requires r.Valid() && r.report.setting == setting && r.Continues(list, snaps)
    requires (forall c | c in r.report.orig :: c in accepted) && accepted' == accepted + Newcomer(r)
    requires r.newcomer.Some? ==> r.newcomer.value !in accepted
    ensures RunOk(history + [r], setting) && Recorded(history + [r], setting, accepted', list, snaps)
    ensures multiset(accepted') == multiset(accepted) + multiset(Newcomer(r))
    ensures Newcomers(history + [r]) == Newcomers(history) + multiset(Newcomer(r))
    ensures log + Calls(history + [r]) == log + Calls(history) + r.Log()
  {
    hide Record.Valid, Record.Continues, Record.Log, RunOk, Calls, Newcomers;
    assert forall k, c | 0 <= k < |history| && c in Newcomer(r) :: c !in history[k].report.orig;
    OneMoreRound(history, r, setting, log);
    assert multiset(accepted + Newcomer(r)) == multiset(accepted) + multiset(Newcomer(r));
  }

  lemma OneMoreRound(history: seq<Record>, r: Record, setting: Setting, log: seq<Event>)
    requires RunOk(history, setting) && r.Valid() && r.report.setting == setting
    requires history != [] ==> history[|history| - 1].Continues(r.report.orig, r.report.before)
    requires forall k, c | 0 <= k < |history| && c in Newcomer(r) :: c !in history[k].report.orig
    ensures RunOk(history + [r], setting)
    ensures log + Calls(history + [r]) == log + Calls(history) + r.Log()
    ensures Newcomers(history + [r]) == Newcomers(history) + multiset(Newcomer(r))
  {
    hide Record.Valid, Record.Continues, Record.Log, Newcomer;
    var longer := history + [r];
    assert longer[..|history|] == history;
    assert log + (Calls(history) + r.Log()) == log + Calls(history) + r.Log();
  }

  lemma ListedAreAccepted(server: Server)
    requires server.Valid()
    ensures forall c | c in server.list :: c in server.accepted
  {
    hide Client.Own, Client.Ok, Folder.Valid, AllFiles, FilesOk, Server.Table, Server.CacheOk, Server.ClientsOk;
    forall c | c in server.list
      ensures c in server.accepted
    {
      assert c in multiset(server.list) && c in multiset(server.accepted);
    }
  }

  /** A round that fails comes after those of the history, which began with these clients. */
  ghost predicate FailsAfter(failure: Failure, history: seq<Record>, setting: Setting, orig: seq<Client>) {
    && failure.Valid()
    && (failure.PollFails?
        || (failure.report.setting == setting
            && if history == [] then failure.report.orig == orig
               else history[|history| - 1].Continues(failure.report.orig, failure.report.before)))
  }

  lemma FailureFollows(failure: Failure, history: seq<Record>, setting: Setting, orig: seq<Client>,
                       list: seq<Client>, snaps: seq<Snapshot>)
    requires failure.Valid() && failure.Began(setting, list, snaps)
    requires if history == [] then list == orig else history[|history| - 1].Continues(list, snaps)
    ensures FailsAfter(failure, history, setting, orig)
  {
    hide Failure.Valid, Record.Continues;
  }

  /** Any number of rounds of the main loop. */
  method HandleClientRequests(server: Server, rounds: nat)
    returns (exited: bool, ghost history: seq<Record>, ghost failure: Failure)
    requires server.Valid()
    modifies server`clients, server`nbClients, server`list, server`accepted, server`closed, server.os
    modifies Objects(server.list)
    ensures RunOk(history, SettingOf(server)) && |history| <= rounds
    ensures history != [] ==> history[0].report.orig == old(server.list)
    ensures multiset(server.accepted) == multiset(old(server.accepted)) + Newcomers(history)
    ensures exited ==>
      && server.Closable() && FailsAfter(failure, history, SettingOf(server), old(server.list))
      && server.os.log == old(server.os.log) + Calls(history) + failure.Log()
    ensures !exited ==>
      && server.Valid() && |history| == rounds
      && (history != [] ==> history[|history| - 1].Continues(server.list, Snaps(server.list)))
      && server.os.log == old(server.os.log) + Calls(history)
      && server.cache.root == old(server.cache.root) && server.cache.root.view == old(server.cache.root.view)
  {
    hide Server.Valid, Server.Closable, Objects, Folder.Valid, RunOk, Calls, Newcomers, Record.Valid,
         Record.Continues, Record.Log, Recorded, Snaps, Newcomer, Failure.Valid, Failure.Began, Failure.Log,
         FailsAfter;
    exited, history, failure := false, [], PollFails;
    CacheIsApart(server);
    NothingRecorded(SettingOf(server), server.accepted, server.list, Snaps(server.list));
    ghost var objects := Objects(server.list);
    var round := 0;
    while round < rounds
      invariant server.Valid() && server.cache.Valid() && |history| == round <= rounds
      invariant RunOk(history, SettingOf(server))
      invariant if history == [] then server.list == old(server.list)
                else history[0].report.orig == old(server.list)
                     && history[|history| - 1].Continues(server.list, Snaps(server.list))
      invariant Recorded(history, SettingOf(server), server.accepted, server.list, Snaps(server.list))
      invariant multiset(server.accepted) == multiset(old(server.accepted)) + Newcomers(history)
      invariant server.os.log == old(server.os.log) + Calls(history)
      invariant forall o | o in Objects(server.list) :: o in objects || !old(allocated(o))
      invariant server.cache.root == old(server.cache.root)
      invariant server.cache.root.view == old(server.cache.root.view)
    {
      CacheIsApart(server);
      ObjectsOf(server, server.list);
      ListedAreAccepted(server);
      ghost var known, accepted := Objects(server.list), server.accepted;
      ghost var list, snaps := server.list, Snaps(server.list);
      ghost var r;
      label L:
      exited, r, failure := HandleOneRound(server);
      if exited {
        FailureFollows(failure, history, SettingOf(server), old(server.list), list, snaps);
        return;
      }
      CacheIsApart(server);
      forall o | o in Objects(server.list)
        ensures o in objects || !old(allocated(o))
      {
        if o !in known {
          assert o in Objects(server.list) - known && !old@L(allocated(o));
        }
      }
      RoundRecorded(history, r, SettingOf(server), accepted, server.accepted, server.list, Snaps(server.list),
                    old(server.os.log));
      history := history + [r];
      round := round + 1;
    }
  }

  /** A server ready to handle requests on a listening socket, or null when its cache cannot be
      built. */
  method StartServer(os: Os, sockfd: int, entries: seq<Entry>, rootPath: string, cacheMaxSize: int,
                     maxNbClients: nat, requestBufferSize: nat, answerHeaderBufferSize: nat)
    returns (server: Server?)
    requires os.open == {sockfd} && rootPath != "" && SizesFit(entries)
    requires requestBufferSize > 0 && answerHeaderBufferSize >= ANSWER_HEADER_BUFFER_SIZE
    ensures server != null <==> PathsFit(entries, rootPath)
    ensures server != null ==>
      && fresh(server) && server.os == os && server.sockfd == sockfd && server.Valid()
      && server.list == [] && server.accepted == {} && server.maxNbClients == maxNbClients
      && server.requestBufferSize == requestBufferSize && server.view == Build(entries, rootPath, cacheMaxSize)
      && server.cache.root != null && server.cache.root.view == server.view
  {
    hide Build, PathsFit, Folder.Valid, Client.Own, Client.Ok, Chained, Separate, AllFiles, FilesOk;
    var cache := BuildCacheFromDisk(entries, rootPath, cacheMaxSize);
    if cache == null {
      return null;
    }
    BuildFilesOk(entries, rootPath, cacheMaxSize);
    server := new Server(sockfd, maxNbClients, requestBufferSize, answerHeaderBufferSize, cache, os);
  }

  /** A whole run: building the cache, any number of rounds, then the final cleaning. Each client
      that was accepted, in some round, has been deleted once; the server ends before the last
      round only because a call failed, and otherwise every descriptor is closed. Returns null
      when the cache cannot be built. */
  method RunServer(os: Os, sockfd: int, entries: seq<Entry>, rootPath: string, cacheMaxSize: int,
                   maxNbClients: nat, requestBufferSize: nat, answerHeaderBufferSize: nat, rounds: nat)
    returns (server: Server?, exited: bool, ghost history: seq<Record>, ghost failure: Failure)
    requires os.open == {sockfd} && os.log == [] && rootPath != "" && SizesFit(entries)
    requires requestBufferSize > 0 && answerHeaderBufferSize >= ANSWER_HEADER_BUFFER_SIZE
    modifies os
    ensures server != null <==> PathsFit(entries, rootPath)
    ensures server != null ==>
      && RunOk(history, Setting(sockfd, maxNbClients, requestBufferSize, os.disk,
                                Build(entries, rootPath, cacheMaxSize)))
      && (history != [] ==> history[0].report.orig == [])
      && server.closed == multiset(server.accepted) == Newcomers(history)
    ensures server != null && exited ==>
      && FailsAfter(failure, history, Setting(sockfd, maxNbClients, requestBufferSize, os.disk,
                                              Build(entries, rootPath, cacheMaxSize)), [])
      && os.log == Calls(history) + failure.Log() + [Closed(sockfd)] + Closes(server.list)
    ensures server != null && !exited ==>
      && |history| == rounds
      && os.log == Calls(history) + [Closed(sockfd)] + Closes(server.list)
      && os.open == {}
      && server.cache.root != null && server.cache.root.view == Build(entries, rootPath, cacheMaxSize)
  {
    hide Server.Valid, Server.Closable, Build, PathsFit, Folder.Valid, RunOk, Calls, Newcomers, Closes, FailsAfter,
         Failure.Log;
    history, failure := [], PollFails;
    server := StartServer(os, sockfd, entries, rootPath, cacheMaxSize, maxNbClients, requestBufferSize,
                          answerHeaderBufferSize);
    if server == null {
      return server, true, history, failure;
    }
    exited, history, failure := HandleClientRequests(server, rounds);
    if !exited {
      CacheIsApart(server);
      ValidIsClosable(server);
      AllOpen(server);
    }
    assert [] + Calls(history) == Calls(history);
    DeleteServer(server);
  }

  lemma AllOpen(server: Server)
    requires server.Valid()
    ensures server.os.open == {server.sockfd} + Fds(server.list) && server.sockfd !in Fds(server.list)
  {
    hide Server.Table, Server.CacheOk, Server.ClientsOk, Fds;
  }
}
