/** Clients and the list the server keeps of them (`src/server.c`). */
module ClientTable {
  import opened CacheSpec
  import opened FileCaching
  import opened Cache
  import opened HttpTypes
  import opened Http
  import opened Sending
  import opened OperatingSystem

  datatype ClientState = WaitingForRequest | ProcessingRequest | Answering

  class Client {
    const fd: int

    // Clients form a doubly-linked list
    var previous: Client?
    var next: Client?

    var state: ClientState

    const requestBuffer: array<char>
    var requestBufferLength: nat
    var requestBufferOffset: nat
    const httpRequest: HttpMessage

    const answerHeaderBuffer: array<char>
    var answerHeaderBufferLength: nat
    var answerHeaderBufferOffset: nat
    const httpAnswer: HttpMessage

    // History: the reads which returned something since the connection was accepted, and for
    // the current answer the bytes accepted by each call to write and what the client received
    ghost var nbReads: nat
    ghost var headerWrites: seq<nat>
    ghost var bodyWrites: seq<nat>
    ghost var received: string

    /** The objects of a client. */
    ghost function Own(): (r: set<object>)
      ensures {this, requestBuffer, httpRequest, answerHeaderBuffer, httpAnswer} <= r
    {
      {this, requestBuffer, httpRequest, answerHeaderBuffer, httpAnswer}
    }

    constructor (fd: int, requestBufferSize: nat, answerHeaderBufferSize: nat)
      requires requestBufferSize > 0
      ensures this.fd == fd && fresh(Own()) && Apart()
      ensures requestBuffer.Length == requestBufferSize && answerHeaderBuffer.Length == answerHeaderBufferSize
      ensures state == WaitingForRequest && requestBufferOffset == 0 && requestBufferLength == 0 && nbReads == 0
      ensures answerHeaderBufferOffset == 0 && headerWrites == [] && bodyWrites == [] && received == ""
      ensures forall v :: Ok(v)
    {
      this.fd := fd;
      previous, next := null, null;
      state := WaitingForRequest;
      requestBuffer := new char[requestBufferSize];
      requestBufferLength, requestBufferOffset := 0, 0;
      httpRequest := new HttpMessage();
      answerHeaderBuffer := new char[answerHeaderBufferSize];
      answerHeaderBufferLength, answerHeaderBufferOffset := 0, 0;
      var answer := new HttpMessage();
      answer.InitAnswer(Http11, NoCode);
      httpAnswer := answer;
      nbReads, headerWrites, bodyWrites, received := 0, [], [], "";
    }

    /** The buffers and the messages of a client are distinct. */
    ghost predicate Apart() {
      requestBuffer != answerHeaderBuffer && httpRequest != httpAnswer
    }

    /** What holds of a client between two steps of the server, `v` being the cache. */
    ghost predicate Ok(v: FolderVal)
      reads `state, `requestBufferLength, `requestBufferOffset
      reads `answerHeaderBufferLength, `answerHeaderBufferOffset
      reads `nbReads, `headerWrites, `bodyWrites, `received
      reads requestBuffer, httpRequest, answerHeaderBuffer, httpAnswer
    {
      && Apart()
      && requestBufferOffset == 0
      && nbReads <= requestBufferLength < requestBuffer.Length
      && state != ProcessingRequest
      && (state == Answering ==> AnswerOk(v))
    }

    /** The answer being sent was made for the request that was parsed, its header is in the
        buffer, and what the client received is what the calls to write gave it. */
    ghost predicate AnswerOk(v: FolderVal)
      reads `answerHeaderBufferLength, `answerHeaderBufferOffset
      reads `headerWrites, `bodyWrites, `received
      reads httpRequest, answerHeaderBuffer, httpAnswer
    {
      var text := HeaderText(httpAnswer.header);
      && Answerable(httpRequest.header)
      && IsAnswerTo(httpAnswer.header, httpAnswer.content, httpRequest.header, v)
      && PossibleCode(httpAnswer.header.code)
      && answerHeaderBufferLength == |text| && Holds(answerHeaderBuffer, text)
      && Sum(headerWrites) == answerHeaderBufferOffset <= answerHeaderBufferLength
      && (bodyWrites != [] ==> answerHeaderBufferOffset == answerHeaderBufferLength)
      && received == Sent(text, headerWrites) + Sent(BodyText(httpAnswer.content), bodyWrites)
      && AtMost(bodyWrites, |BodyText(httpAnswer.content)|)
    }
  }

  /** The body kept in memory. */
  function BodyText(content: HttpContent): string {
    if content.body.Some? then content.body.value else ""
  }

  // ---------------------------------------------------------------------------
  // The list
  // ---------------------------------------------------------------------------

  /** Consecutive clients of the list point to each other. */
  ghost predicate Chained(list: seq<Client>)
    reads list`previous, list`next
  {
    list != [] ==>
      && list[0].previous == null && list[|list| - 1].next == null
      && (forall i {:trigger list[i].previous} | 1 <= i < |list| :: list[i].previous == list[i - 1])
      && (forall i {:trigger list[i].next} | 0 <= i < |list| - 1 :: list[i].next == list[i + 1])
  }

  /** Distinct clients share nothing, not even a descriptor. */
  ghost predicate Separate(list: seq<Client>) {
    forall i, j | 0 <= i < j < |list| :: list[i].Own() !! list[j].Own() && list[i].fd != list[j].fd
  }

  ghost function Fds(list: seq<Client>): set<int> {
    set c | c in list :: c.fd
  }

  function Without<T>(s: seq<T>, k: nat): seq<T>
    requires k < |s|
  {
    s[..k] + s[k + 1..]
  }

  class Server {
    const sockfd: int
    const maxNbClients: nat
    const requestBufferSize: nat
    const answerHeaderBufferSize: nat
    const cache: FileCache
    ghost const view: FolderVal          // what the cache represents
    const os: Os

    var clients: Client?
    var nbClients: nat

    ghost var list: seq<Client>          // the clients reached from `clients`
    ghost var accepted: set<Client>      // all the clients ever accepted
    ghost var closed: multiset<Client>   // one occurrence for each time a client was deleted

    constructor (sockfd: int, maxNbClients: nat, requestBufferSize: nat, answerHeaderBufferSize: nat,
                 cache: FileCache, os: Os)
      requires os.open == {sockfd} && os !in cache.Repr
      requires requestBufferSize > 0 && answerHeaderBufferSize >= ANSWER_HEADER_BUFFER_SIZE
      requires cache.Valid() && FilesOk(AllFiles(cache.root.view))
      ensures Valid() && list == [] && accepted == {} && closed == multiset{}
      ensures this.sockfd == sockfd && this.os == os && this.maxNbClients == maxNbClients
      ensures this.requestBufferSize == requestBufferSize
      ensures this.cache == cache && view == cache.root.view
    {
      this.sockfd, this.maxNbClients := sockfd, maxNbClients;
      this.requestBufferSize, this.answerHeaderBufferSize := requestBufferSize, answerHeaderBufferSize;
      this.cache, this.view, this.os := cache, cache.root.view, os;
      clients, nbClients := null, 0;
      list, accepted, closed := [], {}, multiset{};
    }

    /** The linked list holds `list`. */
    ghost predicate Table()
      reads `clients, `nbClients, `list, list`previous, list`next
    {
      && nbClients == |list| && clients == (if list == [] then null else list[0])
      && Chained(list) && Separate(list)
    }

    /** Descriptors and clients are conserved: what is open is the listening socket and the
        sockets of the listed clients, and each accepted client is either listed or was
        deleted, once. */
    ghost predicate Books()
      reads `list, `accepted, `closed, os`open
    {
      && |list| <= maxNbClients
      && sockfd !in Fds(list) && os.open == {sockfd} + Fds(list)
      && multiset(accepted) == multiset(list) + closed
    }

    /** The cache is as it was built, and shares nothing with the server and its clients. */
    ghost predicate CacheOk()
      reads `list, cache, cache.Repr
    {
      && cache.Valid() && cache.root.view == view && FilesOk(AllFiles(view))
      && this !in cache.Repr && os !in cache.Repr
      && (forall c | c in list :: c.Own() !! cache.Repr)
    }

    ghost predicate ClientsOk()
      reads `list, list
      reads set c | c in list :: c.requestBuffer
      reads set c | c in list :: c.httpRequest
      reads set c | c in list :: c.answerHeaderBuffer
      reads set c | c in list :: c.httpAnswer
    {
      && requestBufferSize > 0 && answerHeaderBufferSize >= ANSWER_HEADER_BUFFER_SIZE
      && forall c | c in list ::
           && c.requestBuffer.Length == requestBufferSize && c.answerHeaderBuffer.Length == answerHeaderBufferSize
           && c.Ok(view)
    }

    /** What is needed to shut the server down, even in the middle of a step. */
    ghost predicate Closable()
      reads `clients, `nbClients, `list, `accepted, `closed, os, list`previous, list`next
    {
      && Table()
      && sockfd in os.open && sockfd !in Fds(list) && Fds(list) <= os.open
      && multiset(accepted) == multiset(list) + closed
    }

    ghost predicate Valid()
      reads `clients, `nbClients, `list, `accepted, `closed, os`open, cache, cache.Repr, list
      reads set c | c in list :: c.requestBuffer
      reads set c | c in list :: c.httpRequest
      reads set c | c in list :: c.answerHeaderBuffer
      reads set c | c in list :: c.httpAnswer
    {
      Table() && Books() && CacheOk() && ClientsOk()
    }
  }

  lemma SeparateCons(client: Client, list: seq<Client>)
    requires Separate(list)
    requires forall c | c in list :: c.Own() !! client.Own() && c.fd != client.fd
    ensures Separate([client] + list)
  {
    hide Client.Own;
    var longer := [client] + list;
    assert forall i | 0 < i < |longer| :: longer[i] == list[i - 1];
  }

  method AddClientToServer(server: Server, client: Client)
    requires server.Table() && client !in server.list
    requires forall c | c in server.list :: c.Own() !! client.Own() && c.fd != client.fd
    modifies server`clients, server`nbClients, server`list
    modifies client`previous, client`next, server.list`previous
    ensures server.Table() && server.list == [client] + old(server.list)
  {
    hide Separate, Client.Own;
    SeparateIsNoRepeat(server.list);
    SeparateCons(client, server.list);
    if server.nbClients == 0 {
      server.clients := client;
      client.previous, client.next := null, null;
    } else {
      client.previous := null;
      client.next := server.clients;
      server.clients.previous := client;
      server.clients := client;
    }
    server.nbClients := server.nbClients + 1;
    server.list := [client] + server.list;
  }

  /** Disconnects a client and frees it. */
  method DeleteClient(server: Server, client: Client)
    requires client.fd in server.os.open
    modifies server.os, server`closed
    ensures server.os.open == old(server.os.open) - {client.fd}
    ensures server.os.log == old(server.os.log) + [Closed(client.fd)]
    ensures server.closed == old(server.closed) + multiset{client}
  {
    server.os.Close(client.fd);
    server.closed := server.closed + multiset{client};
  }

  ghost predicate NoRepeat(list: seq<Client>) {
    forall i, j | 0 <= i < j < |list| :: list[i] != list[j]
  }

  lemma SeparateIsNoRepeat(list: seq<Client>)
    requires Separate(list)
    ensures NoRepeat(list)
  {
    forall i, j | 0 <= i < j < |list|
      ensures list[i] != list[j]
    {
      assert list[i] in list[i].Own() && list[i].Own() !! list[j].Own();
    }
  }

  lemma SeparateWithout(list: seq<Client>, k: nat)
    requires Separate(list) && k < |list|
    ensures Separate(Without(list, k))
  {
    hide Client.Own;
    var rest := Without(list, k);
    assert forall i | 0 <= i < |rest| :: rest[i] == list[if i < k then i else i + 1];
  }

  /** Takes the client at position `k` out of the chain. */
  method Unlink(server: Server, client: Client, ghost k: nat)
    requires server.clients == (if server.list == [] then null else server.list[0])
    requires Chained(server.list) && NoRepeat(server.list) && k < |server.list| && server.list[k] == client
    modifies server`clients, server.list`previous, server.list`next
    ensures var rest := Without(server.list, k);
            Chained(rest) && server.clients == (if rest == [] then null else rest[0])
  {
    hide Client.Own;
    ghost var list, rest := server.list, Without(server.list, k);
    assert client.previous == if k == 0 then null else list[k - 1];
    assert client.next == if k == |list| - 1 then null else list[k + 1];
    assert forall i | 0 <= i < |rest| :: rest[i] == list[if i < k then i else i + 1];
    if client.next != null {
      client.next.previous := client.previous;
    }
    if client.previous != null {
      client.previous.next := client.next;
    }
    if server.clients == client {
      server.clients := client.next;
    }
    forall i | 1 <= i < |rest|
      ensures rest[i].previous == rest[i - 1]
    {
      assert rest[i] == list[if i < k then i else i + 1];
      assert rest[i - 1] == list[if i - 1 < k then i - 1 else i];
    }
    forall i | 0 <= i < |rest| - 1
      ensures rest[i].next == rest[i + 1]
    {
      assert rest[i] == list[if i < k then i else i + 1];
      assert rest[i + 1] == list[if i + 1 < k then i + 1 else i + 2];
    }
  }

  /** Unlinks the client at position `k` and deletes it. */
  method RemoveClientFromServer(server: Server, client: Client, ghost k: nat)
    requires server.Table() && k < |server.list| && server.list[k] == client
    requires client.fd in server.os.open
    modifies server`clients, server`nbClients, server`list, server`closed, server.os
    modifies server.list`previous, server.list`next
    ensures server.Table() && server.list == Without(old(server.list), k)
    ensures server.os.open == old(server.os.open) - {client.fd}
    ensures server.os.log == old(server.os.log) + [Closed(client.fd)]
    ensures server.closed == old(server.closed) + multiset{client}
  {
    hide Separate, Chained, NoRepeat;
    SeparateIsNoRepeat(server.list);
    SeparateWithout(server.list, k);
    Unlink(server, client, k);
    server.nbClients := server.nbClients - 1;
    server.list := Without(server.list, k);
    DeleteClient(server, client);
  }

  lemma WithoutMembers(list: seq<Client>, k: nat)
    requires NoRepeat(list) && k < |list|
    ensures forall c :: c in Without(list, k) <==> c in list && c != list[k]
  {
    var rest := Without(list, k);
    assert forall i | 0 <= i < |rest| :: rest[i] == list[if i < k then i else i + 1];
    forall c | c in list && c != list[k]
      ensures c in rest
    {
      var i :| 0 <= i < |list| && list[i] == c;
      assert rest[if i < k then i else i - 1] == c;
    }
  }

  lemma WithoutMultiset<T>(list: seq<T>, k: nat)
    requires k < |list|
    ensures multiset(list) == multiset(Without(list, k)) + multiset{list[k]}
  {
    assert list == list[..k] + [list[k]] + list[k + 1..];
  }

  /** A position in the list, seen from the other clients. */
  lemma OthersAreSeparate(list: seq<Client>, k: nat)
    requires Separate(list) && k < |list|
    ensures forall c | c in list && c != list[k] :: c.Own() !! list[k].Own() && c.fd != list[k].fd
    ensures forall c :: c in Without(list, k) <==> c in list && c != list[k]
    ensures Fds(Without(list, k)) == Fds(list) - {list[k].fd}
    ensures multiset(list) == multiset(Without(list, k)) + multiset{list[k]}
  {
    hide Client.Own, Without, NoRepeat;
    SeparateIsNoRepeat(list);
    WithoutMembers(list, k);
    WithoutMultiset(list, k);
    FdsOfMembers(list, Without(list, k), list[k]);
  }

  lemma FdsOfMembers(list: seq<Client>, rest: seq<Client>, client: Client)
    requires client in list && forall c :: c in rest <==> c in list && c != client
    requires forall c | c in list && c != client :: c.fd != client.fd
    ensures Fds(rest) == Fds(list) - {client.fd}
  {
    forall fd
      ensures fd in Fds(rest) <==> fd in Fds(list) - {client.fd}
    {
      if fd in Fds(list) && fd != client.fd {
        var c :| c in list && c.fd == fd;
        assert c in rest;
      }
    }
  }

  /** What is known of one client of the list. */
  lemma ClientFacts(server: Server, k: nat)
    requires server.Valid() && k < |server.list|
    ensures var client := server.list[k];
      && client.fd in server.os.open && client.Ok(server.view)
      && client.Own() !! server.cache.Repr && server.cache.Valid() && server.cache.root.view == server.view
      && FilesOk(AllFiles(server.view))
      && server.os !in server.cache.Repr && server !in server.cache.Repr
      && client.requestBuffer.Length == server.requestBufferSize
      && client.answerHeaderBuffer.Length == server.answerHeaderBufferSize >= ANSWER_HEADER_BUFFER_SIZE
      && (forall c | c in server.list && c != client :: c.Own() !! client.Own() && c.Own() !! server.cache.Repr)
  {
    hide Client.Ok, Client.Own, FilesOk, AllFiles;
    OthersAreSeparate(server.list, k);
  }

  /** Removing a client keeps everything in order. */
  method DropClient(server: Server, client: Client, ghost k: nat)
    requires server.Table() && server.Books() && server.CacheOk()
    requires k < |server.list| && server.list[k] == client
    requires forall c | c in server.list && c != client ::
               && c.requestBuffer.Length == server.requestBufferSize
               && c.answerHeaderBuffer.Length == server.answerHeaderBufferSize
               && c.Ok(server.view)
    requires server.requestBufferSize > 0 && server.answerHeaderBufferSize >= ANSWER_HEADER_BUFFER_SIZE
    modifies server`clients, server`nbClients, server`list, server`closed, server.os
    modifies server.list`previous, server.list`next
    ensures server.Valid() && server.list == Without(old(server.list), k)
    ensures server.closed == old(server.closed) + multiset{client}
    ensures server.os.log == old(server.os.log) + [Closed(client.fd)]
  {
    hide Separate, Chained, Client.Own, Client.Ok, Folder.Valid, AllFiles, FilesOk;
    OthersAreSeparate(server.list, k);
    assert forall c | c in server.list :: c !in server.cache.Repr;
    RemoveClientFromServer(server, client, k);
  }
}
