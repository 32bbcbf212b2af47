/**
 The server: a class over the socket layer whose methods update the clients, the descriptor
 vector and its count in place.  Every method is proved against the events of ServerModel.
 */
module Server {
  import opened Wire
  import opened Topics
  import opened Matching
  import opened Interest
  import opened Network
  import opened ServerModel
  import opened ClientHistory
  import opened ServerRound
  import opened ServerInput
  import opened MainLoop
  import opened Iteration
  import opened Scaling
  import opened UdpPayload

  lemma PiecesOf(sender: Sender, datagram: seq<byte>)
    ensures TopicOf(datagram) == CString(Buffer(datagram)[..50]) && TypeOf(datagram) == Buffer(datagram)[50]
    ensures FormattedText(sender, datagram)
            == Heading(sender, TopicOf(datagram)) + PayloadText(TypeOf(datagram), Buffer(datagram)[51..])
  {
  }

  lemma PassLeads(st: ServerState, out: map<int, seq<byte>>, inbound: map<int, seq<byte>>,
                  now: ServerState, nowOut: map<int, seq<byte>>)
    requires Inv(st) && now == Final(st, PassEvents(st.pollFds[3..], inbound))
    requires nowOut == Traffic(out, st, PassEvents(st.pollFds[3..], inbound))
    ensures Leads(st, out, PassEvents(st.pollFds[3..], inbound), now, nowOut)
  {
    PassLegal(st, inbound);
  }

  lemma ConformsAt(entries: seq<PollFd>, inbound: map<int, seq<byte>>, v: nat, nowIn: map<int, seq<byte>>)
    requires RequestsConform(entries, inbound) && v < |entries| && entries[v].readable
    requires StreamOf(nowIn, entries[v].fd) == StreamOf(inbound, entries[v].fd)
    ensures var p := Parse(StreamOf(nowIn, entries[v].fd)); p.Complete? ==> 0 in p.msg.payload
  {
  }

  ghost function Disconnected(clients: map<string, ClientState>, id: string): map<string, ClientState>
    requires id in clients
  {
    clients[id := clients[id].(connected := false, currFd := -1)]
  }

  lemma EntryPolled(st: ServerState, it: nat)
    requires Inv(st) && 3 <= it < |st.pollFds|
    ensures st.pollFds[it].fd in Fds(st.pollFds[3..])
  {
    assert st.pollFds[3..][it - 3] == st.pollFds[it];
    assert st.pollFds[3..][it - 3] in st.pollFds[3..];
  }

  /** What the event on a stream is, and what it does. */
  lemma EventFacts(st: ServerState, fd: int, inbound: map<int, seq<byte>>, out: map<int, seq<byte>>)
    requires fd in inbound
    ensures StreamOf(inbound, fd) == inbound[fd]
    ensures var ev := EventOn(fd, inbound[fd]);
            match Parse(inbound[fd])
            case EndOfStream =>
              ev == Closed(fd) && Step(st, ev).state == CloseStep(st, fd).state && Sent(out, Step(st, ev).sends) == out
            case Complete(m, _) =>
              && ev == Requested(fd, m.command, CString(m.payload))
              && Step(st, ev) == RequestStep(st, fd, m.command, CString(m.payload))
  {
  }

  lemma CloseOutcome(st: ServerState, it: nat)
    requires Inv(st) && 3 <= it < |st.pollFds|
    ensures var fd := st.pollFds[it].fd;
            var rest := st.pollFds[..it] + st.pollFds[it + 1..];
            && HolderOf(st, fd) in st.clients
            && CloseStep(st, fd).state
               == ServerState(Disconnected(st.clients, HolderOf(st, fd)), rest, st.numPollFds - 1)
            && Fds(rest) == Fds(st.pollFds) - {fd}
            && ConnectedFds(CloseStep(st, fd).state) <= ConnectedFds(st)
  {
    var fd := st.pollFds[it].fd;
    EntryPolled(st, it);
    HolderExists(st, fd);
    PassStep(st, it, Closed(fd));
    ErasedFds(st.pollFds, it);
    CloseDisconnects(st, fd);
  }

  /** The descriptors of the recipients among `ids`. */
  ghost function FdsOf(st: ServerState, topic: string, ids: set<string>): set<int> {
    set id | id in ids && id in Recipients(st, topic) :: st.clients[id].currFd
  }

  /** The same message for each of them. */
  ghost function CopiesTo(st: ServerState, topic: string, ids: set<string>, m: Message): map<int, Message> {
    map fd | fd in FdsOf(st, topic, ids) :: m
  }

  lemma CopiesToAll(st: ServerState, topic: string, payload: Payload)
    ensures CopiesTo(st, topic, st.clients.Keys, Message(MSG_FROM_UDP, payload))
            == PublishStep(st, topic, payload).sends
  {
    assert FdsOf(st, topic, st.clients.Keys) == RecipientFds(st, topic);
  }

  lemma FdsOfMore(st: ServerState, topic: string, done: set<string>, id: string)
    requires Inv(st) && done <= st.clients.Keys && id in st.clients && id !in done
    ensures id in Recipients(st, topic) ==>
              FdsOf(st, topic, done + {id}) == FdsOf(st, topic, done) + {st.clients[id].currFd}
              && st.clients[id].currFd !in FdsOf(st, topic, done)
    ensures id !in Recipients(st, topic) ==> FdsOf(st, topic, done + {id}) == FdsOf(st, topic, done)
  {
    forall a | a in done && a in Recipients(st, topic) && id in Recipients(st, topic)
      ensures st.clients[a].currFd != st.clients[id].currFd
    {
      assert Online(st, a) && Online(st, id);
    }
    assert id in done + {id};
  }

  lemma FdConnected(st: ServerState, id: string)
    requires Inv(st) && Online(st, id)
    ensures st.clients[id].currFd in ConnectedFds(st) && st.clients[id].currFd in Fds(st.pollFds)
  {
    assert st.clients[id].currFd in ConnectedFds(st);
    assert st.pollFds == st.pollFds[..3] + st.pollFds[3..];
    FdsConcat(st.pollFds[..3], st.pollFds[3..]);
  }

  lemma SentOne(out: map<int, seq<byte>>, fd: int, m: Message)
    requires fd in out
    ensures Sent(out, map[fd := m]) == out[fd := out[fd] + Frame(m)]
  {
  }

  lemma SentMore(out: map<int, seq<byte>>, fds: set<int>, fd: int, m: Message)
    requires fd in out && fd !in fds
    ensures var before := Sent(out, map f | f in fds :: m);
            Sent(out, map f | f in fds + {fd} :: m) == before[fd := before[fd] + Frame(m)]
  {
  }

  lemma RequestSameFds(st: ServerState, fd: int, command: byte, topic: string)
    requires Inv(st) && Enabled(st, Requested(fd, command, topic))
    ensures ConnectedFds(RequestStep(st, fd, command, topic).state) == ConnectedFds(st)
  {
    RequestKeepsInv(st, fd, command, topic);
  }

  lemma AcceptedFds(st: ServerState, fd: int, id: string)
    requires Inv(st) && Enabled(st, Accepted(fd, id))
    ensures var next := AcceptStep(st, fd, id).state;
            if Online(st, id) then next == st
            else Fds(next.pollFds) == Fds(st.pollFds) + {fd} && ConnectedFds(next) == ConnectedFds(st) + {fd}
  {
    if !Online(st, id) {
      var e := PollFd(fd, false);
      FdsConcat(st.pollFds, [e]);
      assert e in [e];
      AcceptConnects(st, fd, id);
    }
  }

  // ----- the classes

  class Client {
    var currFd: int
    var isConnected: bool
    var subscribedTopics: map<string, seq<Token>>

    constructor (fd: int)
      ensures Value() == ClientState(fd, true, map[])
    {
      currFd, isConnected, subscribedTopics := fd, true, map[];
    }

    ghost function Value(): ClientState
      reads this
    {
      ClientState(currFd, isConnected, subscribedTopics)
    }
  }

  /** compare_token_vectors against every subscription, in any order. */
  method CheckWildcardTopic(topic: string, topics: map<string, seq<Token>>) returns (found: bool)
    ensures found <==> Scanned(topics, topic)
  {
    var newTokens := TokenizeTopic(topic);
    var todo := topics.Keys;
    while todo != {}
      invariant todo <= topics.Keys
      invariant forall key :: key in topics && key !in todo ==> !Greedy(topics[key], newTokens)
      decreases |todo|
    {
      var key :| key in todo;
      ghost var compared, rounds;
      found, compared, rounds := CompareTokenVectors(topics[key], newTokens);
      if found { return; }
      todo := todo - {key};
    }
    found := false;
  }

  lemma PolledFds(st: ServerState, i: nat)
    requires Inv(st) && i == 1
    ensures Fds(st.pollFds) == {st.pollFds[0].fd} + Fds(st.pollFds[1..])
  {
    assert st.pollFds == [st.pollFds[0]] + st.pollFds[1..];
    FdsConcat([st.pollFds[0]], st.pollFds[1..]);
    assert Fds([st.pollFds[0]]) == {st.pollFds[0].fd};
  }

  /** No later entry has the descriptor of this one. */
  lemma RestFds(st: ServerState, i: nat)
    requires Inv(st) && 1 <= i < |st.pollFds|
    ensures var s := st.pollFds; {s[0].fd} + Fds(s[i + 1..]) == {s[0].fd} + Fds(s[i..]) - {s[i].fd}
  {
    var s := st.pollFds;
    assert s[i..] == [s[i]] + s[i + 1..];
    FdsConcat([s[i]], s[i + 1..]);
    assert Fds([s[i]]) == {s[i].fd};
    assert s[i].fd !in Fds(s[i + 1..]);
  }

  class Server {
    const host: ByteOrder
    const net: Net
    var clients: map<string, Client>
    var pollFds: seq<PollFd>
    var numPollFds: int

    ghost function ClientStates(): map<string, ClientState>
      reads this`clients, clients.Values
    {
      map id | id in clients :: clients[id].Value()
    }

    ghost function State(): ServerState
      reads this, clients.Values
    {
      ServerState(ClientStates(), pollFds, numPollFds)
    }

    /** Each client has a structure of its own. */
    ghost predicate DistinctClients()
      reads this`clients
    {
      forall a, b :: a in clients && b in clients && clients[a] == clients[b] ==> a == b
    }

    /** The descriptor invariant, one object per client, and streams behind every open connection. */
    ghost predicate Valid()
      reads this, clients.Values, net
    {
      && Inv(State())
      && DistinctClients()
      && net.open == Fds(pollFds)
      && ConnectedFds(State()) <= net.inbound.Keys
      && ConnectedFds(State()) <= net.outbound.Keys
    }

    /** Construction and `prepare`: stdin, the UDP socket and the listening socket are polled. */
    constructor (host: ByteOrder, net: Net, udpSockfd: int, tcpSockfd: int)
      requires net.open == {0, udpSockfd, tcpSockfd}
      requires 0 < udpSockfd && 0 < tcpSockfd && udpSockfd != tcpSockfd
      ensures this.host == host && this.net == net
      ensures Valid() && Prepared(State()) && clients == map[]
      ensures pollFds == [PollFd(0, false), PollFd(udpSockfd, false), PollFd(tcpSockfd, false)]
    {
      this.host, this.net := host, net;
      clients := map[];
      pollFds := [PollFd(0, false), PollFd(udpSockfd, false), PollFd(tcpSockfd, false)];
      numPollFds := 3;
      new;
      var e0, e1, e2 := pollFds[0], pollFds[1], pollFds[2];
      assert pollFds == [e0, e1, e2];
      assert Fds(pollFds) == {0, udpSockfd, tcpSockfd} by {
        assert e0 in pollFds && e1 in pollFds && e2 in pollFds;
      }
      assert pollFds[3..] == [];
    }

    lemma HoldsValid(fd: int)
      requires Valid() && fd in Fds(pollFds[3..])
      ensures net.Holds(fd) && HolderOf(State(), fd) in clients
    {
      HolderExists(State(), fd);
      assert fd in ConnectedFds(State());
      assert pollFds == pollFds[..3] + pollFds[3..];
      FdsConcat(pollFds[..3], pollFds[3..]);
    }

    lemma ValidFacts()
      requires Valid()
      ensures Inv(State()) && |pollFds| >= 3
      ensures State().pollFds == pollFds
      ensures ConnectedFds(State()) <= net.inbound.Keys
    {
    }

    method SendReply(fd: int, command: byte)
      requires net.Holds(fd)
      modifies net`outbound
      ensures net.outbound == old(net.outbound)[fd := old(net.outbound[fd]) + Frame(Message(command, []))]
      ensures State() == old(State())
    {
      var msg := new TcpMessage(command, 0, []);
      assert msg.Value() == Message(command, []);
      var total := SendEfficient(host, net, fd, msg);
    }

    method CloseFd(fd: int)
      modifies net`open
      ensures net.open == old(net.open) - {fd}
      ensures State() == old(State()) && ClientStates() == old(ClientStates())
    {
      net.Close(fd);
    }

    method AddClientPollfd(fd: int)
      modifies this`pollFds, this`numPollFds
      ensures pollFds == old(pollFds) + [PollFd(fd, false)] && numPollFds == old(numPollFds) + 1
    {
      pollFds := pollFds + [PollFd(fd, false)];
      numPollFds := numPollFds + 1;
    }

    /** A search over the clients in any order; it never misses the holder of a polled descriptor. */
    method GetClientFromFd(fd: int) returns (id: string, client: Client?)
      requires Valid()
      ensures client != null ==> id in clients && clients[id] == client && Holds(State(), id, fd)
      ensures client == null ==> id == "placeholder" && forall a :: !Holds(State(), a, fd)
      ensures fd in Fds(pollFds[3..]) ==> client != null && id == HolderOf(State(), fd)
    {
      if fd in Fds(pollFds[3..]) { HolderExists(State(), fd); }
      var todo := clients.Keys;
      while todo != {}
        invariant todo <= clients.Keys
        invariant forall a :: a in clients && a !in todo ==> !Holds(State(), a, fd)
        decreases |todo|
      {
        var a :| a in todo;
        if clients[a].currFd == fd {
          return a, clients[a];
        }
        todo := todo - {a};
      }
      id, client := "placeholder", null;
    }

    // ----- connections

    /** The first message on a fresh connection is the id of the client. */
    method AcceptClient(fd: int, stream: seq<byte>) returns (clientId: string)
      requires fd !in net.open
      requires Parse(stream).Complete? && 0 in Parse(stream).msg.payload
      modifies net
      ensures DistinctClients() == old(DistinctClients())
      ensures clientId == CString(Parse(stream).msg.payload)
      ensures net.open == old(net.open) + {fd}
      ensures net.outbound == old(net.outbound)[fd := []]
      ensures net.inbound == old(net.inbound)[fd := Parse(stream).rest]
      ensures State() == old(State())
    {
      hide Inv, Parse, ReceivedLen, CString;
      net.Accept(fd, stream);
      var msg := new TcpMessage(0, 0, []);
      var rc := RecvEfficient(host, net, fd, msg);
      clientId := CString(msg.payload);
    }

    /** An unknown id gets a client structure and a place in the vector. */
    method RegisterClient(fd: int, clientId: string)
      requires clientId !in clients
      requires DistinctClients()
      modifies this`clients, this`pollFds, this`numPollFds
      ensures DistinctClients() && fresh(clients.Values - old(clients.Values))
      ensures State() == old(AcceptStep(State(), fd, clientId).state)
    {
      hide Inv;
      ghost var st := State();
      var newClient := new Client(fd);
      clients := clients[clientId := newClient];
      AddClientPollfd(fd);
      assert ClientStates() == st.clients[clientId := ClientState(fd, true, map[])];
    }

    /** A known id that is not connected gets a new descriptor and keeps its subscriptions. */
    method ReconnectClient(fd: int, clientId: string)
      requires clientId in clients && !clients[clientId].isConnected
      requires DistinctClients()
      modifies clients[clientId], this`pollFds, this`numPollFds
      ensures DistinctClients() && clients == old(clients)
      ensures State() == old(AcceptStep(State(), fd, clientId).state)
    {
      var databaseClient := clients[clientId];
      databaseClient.isConnected := true;
      databaseClient.currFd := fd;
      AddClientPollfd(fd);
    }

    /** A client that may connect is new or known but not connected. */
    method AdmitClient(fd: int, clientId: string)
      requires DistinctClients() && !Online(State(), clientId)
      modifies this`clients, this`pollFds, this`numPollFds, clients.Values
      ensures DistinctClients() && fresh(clients.Values - old(clients.Values))
      ensures State() == old(AcceptStep(State(), fd, clientId).state)
    {
      if clientId !in clients {
        RegisterClient(fd, clientId);
      } else {
        ReconnectClient(fd, clientId);
      }
    }

    /** The verdict, and the descriptors after it. */
    lemma AnswerFacts(fd: int, clientId: string)
      requires Inv(State()) && Enabled(State(), Accepted(fd, clientId)) && net.Holds(fd)
      ensures var st := State();
              var next := AcceptStep(st, fd, clientId).state;
              var reply := if Online(st, clientId) then CONNECT_DENIED else CONNECT_ACCEPTED;
              && Inv(next)
              && Sent(net.outbound, AcceptStep(st, fd, clientId).sends)
                 == net.outbound[fd := net.outbound[fd] + Frame(Message(reply, []))]
              && (if Online(st, clientId) then next == st
                  else Fds(next.pollFds) == Fds(st.pollFds) + {fd} && ConnectedFds(next) == ConnectedFds(st) + {fd})
      ensures Online(State(), clientId) <==> clientId in clients && clients[clientId].isConnected
      ensures State().pollFds == pollFds && fd !in Fds(pollFds)
      ensures fd in net.inbound && fd in net.outbound
    {
      AcceptKeepsInv(State(), fd, clientId);
      AcceptedFds(State(), fd, clientId);
      SentOne(net.outbound, fd, AcceptStep(State(), fd, clientId).sends[fd]);
      assert clientId in clients ==> clients[clientId].Value() == State().clients[clientId];
    }

    lemma ValidAgain(st: ServerState)
      requires State() == st && Inv(st) && DistinctClients()
      requires net.open == Fds(st.pollFds)
      requires ConnectedFds(st) <= net.inbound.Keys && ConnectedFds(st) <= net.outbound.Keys
      ensures Valid()
    {
    }

    /** The verdict on an id that has arrived on the open descriptor `fd`. */
    method AnswerConnection(fd: int, clientId: string)
      requires Inv(State()) && DistinctClients() && Enabled(State(), Accepted(fd, clientId))
      requires net.open == Fds(pollFds) + {fd} && net.Holds(fd)
      requires ConnectedFds(State()) <= net.inbound.Keys && ConnectedFds(State()) <= net.outbound.Keys
      modifies this, clients.Values, net`open, net`outbound
      ensures Valid()
      ensures State() == old(AcceptStep(State(), fd, clientId).state)
      ensures net.outbound == Sent(old(net.outbound), old(AcceptStep(State(), fd, clientId).sends))
      ensures fresh(clients.Values - old(clients.Values))
    {
      ghost var st := State();
      AnswerFacts(fd, clientId);
      hide *;
      if clientId in clients && clients[clientId].isConnected {
        SendReply(fd, CONNECT_DENIED);
        CloseFd(fd);
      } else {
        AdmitClient(fd, clientId);
        SendReply(fd, CONNECT_ACCEPTED);
      }
      ValidAgain(AcceptStep(st, fd, clientId).state);
    }

    /**
     accept() has handed out the free descriptor `fd`; its peer will write `stream`, which
     begins with the id.
     */
    method ManageConnectionRequest(fd: int, stream: seq<byte>)
      requires Valid() && 0 <= fd && fd !in net.open
      requires Parse(stream).Complete? && 0 in Parse(stream).msg.payload
      modifies this, clients.Values, net
      ensures Valid()
      ensures var ev := Accepted(fd, CString(Parse(stream).msg.payload));
              && old(Enabled(State(), ev))
              && State() == old(Step(State(), ev).state)
              && net.outbound == Sent(old(net.outbound)[fd := []], old(Step(State(), ev).sends))
      ensures net.inbound == old(net.inbound)[fd := Parse(stream).rest]
      ensures fresh(clients.Values - old(clients.Values))
    {
      var clientId := AcceptClient(fd, stream);
      AnswerConnection(fd, clientId);
    }

    // ----- requests

    /** The subscriptions of one client, replaced in place. */
    method StoreTopics(id: string, topics: map<string, seq<Token>>)
      requires id in clients && DistinctClients()
      modifies clients[id]
      ensures State() == old(WithTopics(State(), id, topics))
    {
      clients[id].subscribedTopics := topics;
    }

    /** What a request does to the subscriptions of its client, and the reply it calls for. */
    method ApplyRequest(id: string, reqClient: Client, command: byte, topic: string) returns (reply: byte)
      requires id in clients && clients[id] == reqClient && DistinctClients()
      modifies reqClient
      ensures reply == old(Answered(reqClient.subscribedTopics, command, topic).0)
      ensures State() == old(WithTopics(State(), id, Answered(reqClient.subscribedTopics, command, topic).1))
    {
      var topics := reqClient.subscribedTopics;
      assert reqClient.Value() == State().clients[id];
      assert WithTopics(State(), id, topics) == State();
      if command == SUBSCRIBE_REQ {
        if topic in topics { return SUBSCRIBE_FAIL; }
        var tokens := TokenizeTopic(topic);
        StoreTopics(id, topics[topic := tokens]);
        return SUBSCRIBE_SUCC;
      }
      if topic !in topics { return UNSUBSCRIBE_FAIL; }
      StoreTopics(id, topics - {topic});
      return UNSUBSCRIBE_SUCC;
    }

    /** Subscribe or unsubscribe the client behind the descriptor and reply. */
    method ManageSubscribeUnsubscribe(fd: int, req: TcpMessage)
      requires Valid() && fd in Fds(pollFds[3..]) && 0 in req.payload
      modifies clients.Values, net`outbound
      ensures Valid()
      ensures State() == old(RequestStep(State(), fd, req.command, CString(req.payload)).state)
      ensures net.outbound == Sent(old(net.outbound),
                                   old(RequestStep(State(), fd, req.command, CString(req.payload)).sends))
    {
      hide Inv;
      ghost var st := State();
      var topic := CString(req.payload);
      RequestKeepsInv(st, fd, req.command, topic);
      RequestSameFds(st, fd, req.command, topic);
      HoldsValid(fd);
      SentOne(net.outbound, fd, RequestStep(st, fd, req.command, topic).sends[fd]);
      var id, reqClient := GetClientFromFd(fd);
      assert reqClient.Value() == st.clients[id];
      ghost var answer := Answered(st.clients[id].topics, req.command, topic);
      assert RequestStep(st, fd, req.command, topic)
             == Outcome(WithTopics(st, id, answer.1), map[fd := Message(answer.0, [])]);
      var reply := ApplyRequest(id, reqClient, req.command, topic);
      SendReply(fd, reply);
    }

    // ----- publications

    /** The direct lookup, then the wildcards. */
    method Wants(client: Client, topic: string) returns (wants: bool)
      ensures wants <==> client.isConnected && Interested(client.subscribedTopics, topic)
    {
      if !client.isConnected { return false; }
      if topic in client.subscribedTopics { return true; }
      wants := CheckWildcardTopic(topic, client.subscribedTopics);
    }

    /** One send of a message structure that goes to several clients. */
    method SendShared(fd: int, msg: TcpMessage)
      requires net.Holds(fd) && msg.len <= |msg.payload|
      modifies net`outbound, msg
      ensures net.outbound == old(net.outbound)[fd := old(net.outbound[fd]) + Frame(old(msg.Value()))]
      ensures msg.len <= |msg.payload| && msg.Value() == old(msg.Value())
      ensures State() == old(State())
    {
      var total := SendEfficient(host, net, fd, msg);
    }

    /** One iteration of the fan-out: the next client gets the message if it is interested. */
    method SendIfWanted(id: string, topic: string, msg: TcpMessage, ghost out: map<int, seq<byte>>,
                        ghost done: set<string>)
      requires Valid() && id in clients && done <= clients.Keys && id !in done
      requires msg.len <= |msg.payload|
      requires net.outbound == Sent(out, CopiesTo(State(), topic, done, msg.Value()))
      requires out.Keys == net.outbound.Keys
      modifies net`outbound, msg
      ensures State() == old(State())
      ensures msg.len <= |msg.payload| && msg.Value() == old(msg.Value())
      ensures net.outbound == Sent(out, CopiesTo(State(), topic, done + {id}, msg.Value()))
    {
      ghost var st, m := State(), msg.Value();
      var currClient := clients[id];
      assert currClient.Value() == st.clients[id];
      var wants := Wants(currClient, topic);
      FdsOfMore(st, topic, done, id);
      if wants {
        FdConnected(st, id);
        SentMore(out, FdsOf(st, topic, done), currClient.currFd, m);
        SendShared(currClient.currFd, msg);
      }
    }

    /**
     The fan-out over the clients in any order: the shared message structure is sent once to
     each connected client that is interested.
     */
    method FanOut(topic: string, msg: TcpMessage)
      requires Valid() && msg.len <= |msg.payload|
      modifies net`outbound, msg
      ensures State() == old(State())
      ensures net.outbound == Sent(old(net.outbound), CopiesTo(State(), topic, clients.Keys, old(msg.Value())))
    {
      ghost var st, out, m := State(), net.outbound, msg.Value();
      var todo := clients.Keys;
      while todo != {}
        invariant todo <= clients.Keys && State() == st
        invariant msg.len <= |msg.payload| && msg.Value() == m
        invariant net.outbound == Sent(out, CopiesTo(st, topic, clients.Keys - todo, m))
        decreases |todo|
      {
        var id :| id in todo;
        SendIfWanted(id, topic, msg, out, clients.Keys - todo);
        assert clients.Keys - todo + {id} == clients.Keys - (todo - {id});
        todo := todo - {id};
      }
      assert clients.Keys - todo == clients.Keys;
    }

    /** One publication, composed once and fanned out. */
    method SendMsgIfSubscribed(topic: string, formatted: string)
      requires Valid() && |formatted| < MAX_UDP_MSG
      modifies net`outbound
      ensures Valid() && State() == old(State())
      ensures net.outbound == Sent(old(net.outbound), PublishStep(State(), topic, ZeroEnded(formatted)).sends)
    {
      hide Inv, ZeroEnded, Interested;
      var msg := new TcpMessage(MSG_FROM_UDP, |formatted| + 1, ZeroEnded(formatted));
      assert msg.Value() == Message(MSG_FROM_UDP, ZeroEnded(formatted));
      CopiesToAll(State(), topic, ZeroEnded(formatted));
      FanOut(topic, msg);
    }

    /** One datagram: its text goes to whoever wants its topic, and nowhere if its type is unknown. */
    method ManageUdpMessage(sender: Sender, datagram: seq<byte>, rnd: real -> real)
      requires Valid() && Conforms(datagram) && Rounds(rnd)
      modifies net`outbound
      ensures Valid() && State() == old(State())
      ensures net.outbound ==
              if TypeOf(datagram) <= STRING
              then Sent(old(net.outbound),
                        PublishStep(State(), TopicOf(datagram), Publication(sender, datagram)).sends)
              else old(net.outbound)
    {
      var buff := Buffer(datagram);
      var topic := CString(buff[..50]);
      var dataType := buff[50];
      var formatted := Heading(sender, topic);
      var valid, text := InterpretUdpPayload(dataType, buff[51..], rnd);
      hide *;
      if valid {
        PiecesOf(sender, datagram);
        MessageFits(sender, datagram);
        SendMsgIfSubscribed(topic, formatted + text);
      }
    }

    // ----- one pass over the client sockets

    method MarkDisconnected(id: string, exitingClient: Client)
      requires id in clients && clients[id] == exitingClient && DistinctClients()
      modifies exitingClient
      ensures ClientStates() == old(Disconnected(ClientStates(), id)) && DistinctClients()
    {
      exitingClient.isConnected := false;
      exitingClient.currFd := -1;
    }

    method EraseEntry(it: nat)
      requires it < |pollFds|
      modifies this`pollFds, this`numPollFds
      ensures pollFds == old(pollFds)[..it] + old(pollFds)[it + 1..] && numPollFds == old(numPollFds) - 1
      ensures ClientStates() == old(ClientStates()) && DistinctClients() == old(DistinctClients())
    {
      pollFds := pollFds[..it] + pollFds[it + 1..];
      numPollFds := numPollFds - 1;
    }

    /** Mark the client, close its descriptor and erase the entry. */
    method DropClient(it: nat, id: string, exitingClient: Client)
      requires it < |pollFds| && id in clients && clients[id] == exitingClient && DistinctClients()
      modifies this`pollFds, this`numPollFds, exitingClient, net`open
      ensures State() ==
              old(ServerState(Disconnected(ClientStates(), id), pollFds[..it] + pollFds[it + 1..], numPollFds - 1))
      ensures net.open == old(net.open) - {old(pollFds)[it].fd}
      ensures DistinctClients() && pollFds == old(pollFds)[..it] + old(pollFds)[it + 1..]
    {
      var fd := pollFds[it].fd;
      MarkDisconnected(id, exitingClient);
      CloseFd(fd);
      EraseEntry(it);
    }

    /** The client behind an entry, and the state without its connection. */
    lemma RemoveFacts(it: nat)
      requires Valid() && 3 <= it < |pollFds|
      ensures var st, fd := State(), pollFds[it].fd;
              var next := CloseStep(st, fd).state;
              && fd in Fds(pollFds[3..]) && HolderOf(st, fd) in ClientStates() && DistinctClients()
              && next == ServerState(Disconnected(ClientStates(), HolderOf(st, fd)),
                                     pollFds[..it] + pollFds[it + 1..], numPollFds - 1)
              && Inv(next) && Fds(next.pollFds) == net.open - {fd}
              && ConnectedFds(next) <= net.inbound.Keys && ConnectedFds(next) <= net.outbound.Keys
    {
      PassStep(State(), it, Closed(pollFds[it].fd));
      EntryPolled(State(), it);
      CloseOutcome(State(), it);
    }

    /** The peer of an entry has gone: the client is marked, the descriptor closed, the entry erased. */
    method RemoveClient(it: nat)
      requires Valid() && 3 <= it < |pollFds|
      modifies this`pollFds, this`numPollFds, clients.Values, net`open
      ensures Valid()
      ensures State() == old(CloseStep(State(), pollFds[it].fd).state)
      ensures pollFds == old(pollFds)[..it] + old(pollFds)[it + 1..]
    {
      ghost var st := State();
      var fd := pollFds[it].fd;
      RemoveFacts(it);
      hide *;
      var id, exitingClient := GetClientFromFd(fd);
      DropClient(it, id, exitingClient);
      ValidAgain(CloseStep(st, fd).state);
    }

    /** One receive on an open connection, into a cleared message structure. */
    method ReceiveFrom(fd: int) returns (rc: nat, msg: TcpMessage)
      requires Valid() && net.Holds(fd)
      modifies net`inbound
      ensures fresh(msg) && Valid() && State() == old(State())
      ensures rc == 0 <==> Parse(old(net.inbound[fd])).EndOfStream?
      ensures rc > 0 ==>
                var m := Parse(old(net.inbound[fd])).msg;
                msg.command == m.command && msg.payload == m.payload
      ensures net.inbound == StreamsAfter([PollFd(fd, true)], old(net.inbound))
    {
      msg := new TcpMessage(0, 0, []);
      rc := RecvEfficient(host, net, fd, msg);
      hide Inv;
    }

    /** A ready entry: receive once, then serve the request or drop the client. */
    method ServeEntry(it: nat) returns (deleted: bool)
      requires Valid() && 3 <= it < |pollFds|
      requires var p := Parse(StreamOf(net.inbound, pollFds[it].fd)); p.Complete? ==> 0 in p.msg.payload
      modifies this`pollFds, this`numPollFds, clients.Values, net
      ensures Valid()
      ensures var ev := EventOn(old(pollFds[it].fd), StreamOf(old(net.inbound), old(pollFds[it].fd)));
              && State() == old(Step(State(), ev).state)
              && net.outbound == Sent(old(net.outbound), old(Step(State(), ev).sends))
              && deleted == ev.Closed?
      ensures net.inbound == StreamsAfter([PollFd(old(pollFds[it].fd), true)], old(net.inbound))
    {
      var fd := pollFds[it].fd;
      EntryPolled(State(), it);
      HoldsValid(fd);
      EventFacts(State(), fd, net.inbound, net.outbound);
      hide *;
      var rc, msg := ReceiveFrom(fd);
      if rc == 0 {
        RemoveClient(it);
        deleted := true;
      } else {
        ManageSubscribeUnsubscribe(fd, msg);
        deleted := false;
      }
    }

    /**
     The loop that erases from the vector while it iterates over it: every entry that was
     there is visited once and in order, the ready ones are served, and the survivors stay.
     */
    method ServeClients()
      requires Valid() && RequestsConform(pollFds[3..], net.inbound)
      modifies this`pollFds, this`numPollFds, clients.Values, net
      ensures Valid()
      ensures Leads(old(State()), old(net.outbound), PassEvents(old(pollFds)[3..], old(net.inbound)),
                    State(), net.outbound)
      ensures pollFds == old(pollFds)[..3] + Survivors(old(pollFds)[3..], old(net.inbound))
      ensures net.inbound == StreamsAfter(old(pollFds)[3..], old(net.inbound))
    {
      hide *;
      ghost var st, in0, out, v := State(), net.inbound, net.outbound, 0;
      ValidFacts();
      ProgressStart(st, out, in0);
      var it := 3;
      while it < |pollFds|
        invariant Valid() && v <= |st.pollFds|
        invariant Progress(st, out, in0, v, it, State(), net.outbound, net.inbound)
        decreases |st.pollFds| - v
      {
        ghost var now, nowOut, nowIn := State(), net.outbound, net.inbound;
        ValidFacts();
        ProgressNext(st, out, in0, v, it, now, nowOut, nowIn);
        var deleted := false;
        if pollFds[it].readable {
          ConformsAt(st.pollFds[3..], in0, v, nowIn);
          ProgressServed(st, out, in0, v, it, now, nowOut, nowIn);
          deleted := ServeEntry(it);
        } else {
          ProgressSkipped(st, out, in0, v, it, now, nowOut, nowIn);
        }
        if !deleted { it := it + 1; }
        v := v + 1;
      }
      ValidFacts();
      ProgressEnd(st, out, in0, v, it, State(), net.outbound, net.inbound);
      PassLeads(st, out, in0, State(), net.outbound);
    }

    lemma NoClients()
      requires Valid()
      ensures |pollFds| >= 3 && (numPollFds < 4 ==> PassEvents(pollFds[3..], net.inbound) == [])
      ensures numPollFds < 4 ==> StreamsAfter(pollFds[3..], net.inbound) == net.inbound
      ensures Leads(State(), net.outbound, [], State(), net.outbound)
    {
      assert numPollFds < 4 ==> pollFds[3..] == [];
    }

    /** A pass reads what its events say. */
    lemma PassRead()
      requires Valid() && |pollFds| >= 3
      ensures Feeds(net.inbound, PassEvents(pollFds[3..], net.inbound), [], StreamsAfter(pollFds[3..], net.inbound))
    {
      DistinctSuffix(pollFds, 3);
      PassFeeds(pollFds[3..], net.inbound);
    }

    /** The clients are served unless there are none. */
    method ServeIfAny()
      requires Valid() && |pollFds| >= 3 && RequestsConform(pollFds[3..], net.inbound)
      modifies this`pollFds, this`numPollFds, clients.Values, net
      ensures Valid()
      ensures Leads(old(State()), old(net.outbound), PassEvents(old(pollFds)[3..], old(net.inbound)),
                    State(), net.outbound)
      ensures net.inbound == StreamsAfter(old(pollFds)[3..], old(net.inbound))
    {
      hide *;
      NoClients();
      if numPollFds < 4 { return; }
      ServeClients();
    }

    /** poll(): the readiness flags of all entries are set anew. */
    method PollSockets(ready: set<int>)
      requires Valid()
      modifies this`pollFds
      ensures Valid() && State() == old(WakeStep(State(), ready).state)
      ensures pollFds == Flagged(old(pollFds), ready)
      ensures |pollFds| == |old(pollFds)| && forall i :: 0 <= i < |pollFds| ==>
                pollFds[i].fd == old(pollFds)[i].fd && (pollFds[i].readable <==> pollFds[i].fd in ready)
    {
      WakeKeepsInv(State(), ready);
      hide Inv;
      pollFds := Flagged(pollFds, ready);
    }

    /** The part of a round that handles a datagram, as events. */
    method RoundPacket(packet: Packet, rnd: real -> real)
      requires Valid() && Rounds(rnd)
      requires packet.Packet? ==> Conforms(packet.datagram)
      modifies net`outbound
      ensures Valid() && State() == old(State())
      ensures Leads(old(State()), old(net.outbound), PacketEvents(packet), State(), net.outbound)
    {
      EmptyLeads(State(), net.outbound);
      if packet.Packet? {
        if TypeOf(packet.datagram) <= STRING {
          OneEvent(net.outbound, State(), PacketEvents(packet)[0]);
        }
        ManageUdpMessage(packet.sender, packet.datagram, rnd);
      }
    }

    lemma ClientsDistinct(peer: Incoming)
      requires Valid() && PeerConforms(peer, net.open)
      ensures DistinctFds(pollFds) && (peer.Peer? ==> Parse(peer.stream).Complete? && peer.fd !in Fds(pollFds))
    {
    }

    lemma PeerEnabled(fd: int, id: string)
      requires Valid() && 0 <= fd && fd !in net.open
      ensures Enabled(State(), Accepted(fd, id))
    {
    }

    /** The part of a round that handles a connection request, as events. */
    method RoundPeer(peer: Incoming)
      requires Valid() && PeerConforms(peer, net.open)
      modifies this, clients.Values, net
      ensures Valid() && fresh(clients.Values - old(clients.Values))
      ensures Leads(old(State()), old(net.outbound), PeerEvents(peer), State(), net.outbound)
      ensures net.inbound == WithPeer(old(net.inbound), peer)
      ensures PassEvents(pollFds[3..], net.inbound) == PassEvents(old(pollFds)[3..], old(net.inbound))
      ensures StreamsAfter(pollFds[3..], net.inbound) == StreamsAfter(old(pollFds)[3..], net.inbound)
      ensures old(RequestsConform(pollFds[3..], net.inbound)) ==> RequestsConform(pollFds[3..], net.inbound)
    {
      EmptyLeads(State(), net.outbound);
      if peer.Peer? {
        ghost var id := CString(Parse(peer.stream).msg.payload);
        PeerEnabled(peer.fd, id);
        OneEvent(net.outbound, State(), Accepted(peer.fd, id));
        AcceptedPass(State(), peer.fd, id, net.inbound, Parse(peer.stream).rest);
        hide *;
        ManageConnectionRequest(peer.fd, peer.stream);
      }
    }

    /** The UDP socket, then the listening socket. */
    method RoundSockets(packet: Packet, peer: Incoming, rnd: real -> real)
      requires Valid() && Rounds(rnd)
      requires packet.Packet? ==> Conforms(packet.datagram)
      requires PeerConforms(peer, net.open)
      modifies this, clients.Values, net
      ensures Valid() && fresh(clients.Values - old(clients.Values))
      ensures Leads(old(State()), old(net.outbound), PacketEvents(packet) + PeerEvents(peer), State(), net.outbound)
      ensures net.inbound == WithPeer(old(net.inbound), peer)
      ensures PassEvents(pollFds[3..], net.inbound) == PassEvents(old(pollFds)[3..], old(net.inbound))
      ensures StreamsAfter(pollFds[3..], net.inbound) == StreamsAfter(old(pollFds)[3..], net.inbound)
      ensures old(RequestsConform(pollFds[3..], net.inbound)) ==> RequestsConform(pollFds[3..], net.inbound)
    {
      hide *;
      ghost var st, out := State(), net.outbound;
      ValidFacts();
      PeerParses(peer, net.open);
      RoundPacket(packet, rnd);
      ghost var midOut := net.outbound;
      RoundPeer(peer);
      ValidFacts();
      LeadsOn(st, out, PacketEvents(packet), st, midOut, PeerEvents(peer), State(), net.outbound);
    }

    /**
     One iteration of the main loop: what stdin, the UDP socket, the listening socket and the
     polled clients have ready is handled in this order.
     */
    method Round(ready: set<int>, exitCommand: bool, packet: Packet, peer: Incoming, rnd: real -> real)
      returns (stop: bool)
      requires Valid() && Rounds(rnd)
      requires packet.Packet? ==> Conforms(packet.datagram)
      requires PeerConforms(peer, net.open)
      requires |pollFds| >= 3 && RequestsConform(Flagged(pollFds, ready)[3..], net.inbound)
      modifies this, clients.Values, net
      ensures Valid() && stop == exitCommand && fresh(clients.Values - old(clients.Values))
      ensures Leads(old(State()), old(net.outbound),
                    RoundEvents(old(pollFds), ready, stop, packet, peer, old(net.inbound)), State(), net.outbound)
      ensures Feeds(old(net.inbound), RoundEvents(old(pollFds), ready, stop, packet, peer, old(net.inbound)),
                    if stop then [] else PeerStreams(peer), net.inbound)
      ensures net.inbound == if stop then old(net.inbound)
                             else StreamsAfter(Flagged(old(pollFds), ready)[3..], WithPeer(old(net.inbound), peer))
      ensures InTurn(RoundEvents(old(pollFds), ready, stop, packet, peer, old(net.inbound)))
      ensures forall fd :: fd in Fds(old(pollFds)[3..]) ==>
                ServedOnce(RoundEvents(old(pollFds), ready, stop, packet, peer, old(net.inbound)), fd,
                           !stop && fd in ready, StreamOf(old(net.inbound), fd), StreamOf(net.inbound, fd))
    {
      hide *;
      ValidFacts();
      ClientsDistinct(peer);
      RoundServesAll(pollFds, ready, exitCommand, packet, peer, net.inbound);
      RoundInTurn(pollFds, ready, exitCommand, packet, peer, net.inbound);
      PeerParses(peer, net.open);
      RoundEventsAre(pollFds, ready, exitCommand, packet, peer, net.inbound);
      ghost var st, out := State(), net.outbound;
      ghost var sockets := PacketEvents(packet) + PeerEvents(peer);
      ghost var in0, served := net.inbound, PassEvents(Flagged(pollFds, ready)[3..], net.inbound);
      WokenRun(out, st, ready);
      WokenFeeds(ready, in0);
      PollSockets(ready);
      stop := exitCommand;
      if exitCommand { return; }
      ghost var woken := State();
      RoundSockets(packet, peer, rnd);
      LeadsOn(st, out, [Woken(ready)], woken, out, sockets, State(), net.outbound);
      ValidFacts();
      ghost var mid, midOut := State(), net.outbound;
      PassRead();
      ServeIfAny();
      RoundFeeds(ready, packet, peer, in0, served, net.inbound);
      LeadsOn(st, out, [Woken(ready)] + sockets, mid, midOut, served, State(), net.outbound);
    }

    lemma RoundReady(input: Input, peer: Incoming)
      requires Valid() && InputConforms(input) && AllTextual(net.inbound)
      requires match input.caller
               case NoCaller => peer == NoPeer
               case Caller(stream) => peer.Peer? && peer.stream == stream && 0 <= peer.fd && peer.fd !in net.open
      ensures PeerConforms(peer, net.open) && |pollFds| >= 3 && State().pollFds == pollFds
      ensures input.packet.Packet? ==> Conforms(input.packet.datagram)
      ensures Admits(State(), input.caller, peer)
      ensures |Flagged(pollFds, input.ready)| >= 3
      ensures RequestsConform(Flagged(pollFds, input.ready)[3..], net.inbound)
    {
      if peer.Peer? { TextualNext(peer.stream); }
      TextualConform(Flagged(pollFds, input.ready)[3..], net.inbound);
    }

    /** One more iteration of the loop, with what the iterations before it have done. */
    method RunRound(input: Input, rnd: real -> real, ghost st: ServerState, ghost out: map<int, seq<byte>>,
                    ghost in0: map<int, seq<byte>>, ghost done: seq<Input>, ghost trace: Trace)
      returns (stop: bool, ghost next: Trace)
      requires Valid() && Rounds(rnd) && InputConforms(input) && InputsConform(done)
      requires Reached(st, out, in0, done, trace, State(), net.outbound)
      requires trace.inbound == net.inbound && AllTextual(net.inbound)
      modifies this, clients.Values, net
      ensures Valid() && fresh(clients.Values - old(clients.Values)) && stop == input.exitCommand
      ensures InputsConform(done + [input]) && Reached(st, out, in0, done + [input], next, State(), net.outbound)
      ensures next.inbound == net.inbound && AllTextual(net.inbound)
    {
      ghost var now := State();
      var peer := NoPeer;
      if input.caller.Caller? {
        FreeDescriptor(net.open);
        var fd: int :| 0 <= fd && fd !in net.open;
        peer := Peer(fd, input.caller.stream);
      }
      RoundReady(input, peer);
      hide *;
      stop := Round(input.ready, input.exitCommand, input.packet, peer, rnd);
      next := NextTrace(trace, now, input, peer);
      RoundIsNext(trace, now, input, peer);
      NextTextual(trace, now, input, peer);
      ReachedOn(st, out, in0, done, trace, now, old(net.outbound), input, peer, State(), net.outbound);
    }

    /**
     The main loop over what the iterations find, until stdin says exit; `rounds` counts them.
     Every caller is accepted at any descriptor that is free by then.
     */
    method Run(inputs: seq<Input>, rnd: real -> real) returns (rounds: nat, ghost trace: Trace)
      requires Valid() && Rounds(rnd) && InputsConform(inputs) && AllTextual(net.inbound)
      modifies this, clients.Values, net
      ensures Valid() && fresh(clients.Values - old(clients.Values))
      ensures rounds <= |inputs| && forall i :: 0 <= i < rounds - 1 ==> !inputs[i].exitCommand
      ensures rounds < |inputs| ==> rounds > 0 && inputs[rounds - 1].exitCommand
      ensures InputsConform(inputs[..rounds]) && LoopOf(old(State()), old(net.inbound), inputs[..rounds], trace)
      ensures Leads(old(State()), old(net.outbound), trace.evs, State(), net.outbound)
      ensures Feeds(old(net.inbound), trace.evs, trace.streams, net.inbound)
    {
      hide *;
      ghost var st, out, in0 := State(), net.outbound, net.inbound;
      rounds, trace := 0, Trace([], [], in0);
      ConformParts(inputs);
      ReachedStart(st, out, in0);
      assert inputs[..0] == [];
      var stop := false;
      while rounds < |inputs| && !stop
        invariant Valid() && fresh(clients.Values - old(clients.Values))
        invariant rounds <= |inputs|
        invariant forall i :: 0 <= i < rounds - 1 ==> !inputs[i].exitCommand
        invariant rounds > 0 ==> stop == inputs[rounds - 1].exitCommand
        invariant stop ==> rounds > 0
        invariant InputsConform(inputs[..rounds])
        invariant Reached(st, out, in0, inputs[..rounds], trace, State(), net.outbound)
        invariant trace.inbound == net.inbound && AllTextual(net.inbound)
        decreases |inputs| - rounds
      {
        stop, trace := RunRound(inputs[rounds], rnd, st, out, in0, inputs[..rounds], trace);
        assert inputs[..rounds] + [inputs[rounds]] == inputs[..rounds + 1];
        rounds := rounds + 1;
      }
      ReachedParts(st, out, in0, inputs[..rounds], trace, State(), net.outbound);
    }

    /** The destructor: everything that is polled is closed, except stdin. */
    method CloseSockets()
      requires Valid()
      modifies net`open
      ensures |pollFds| >= 3 && net.open == {pollFds[0].fd} && State() == old(State())
    {
      ghost var fds := pollFds;
      PolledFds(State(), 1);
      for i := 1 to numPollFds
        invariant pollFds == fds && 1 <= i <= numPollFds == |fds|
        invariant net.open == {fds[0].fd} + Fds(fds[i..]) && State() == old(State())
      {
        RestFds(State(), i);
        CloseFd(pollFds[i].fd);
      }
      assert fds[|fds|..] == [];
    }
  }

  /**
   The server from its start to its exit: the datagrams are published and the callers accepted
   in order, each connected client is served as its history says, and only stdin stays open.
   */
  method Serve(host: ByteOrder, net: Net, udpSockfd: int, tcpSockfd: int, inputs: seq<Input>, rnd: real -> real)
    returns (server: Server, rounds: nat, ghost start: ServerState, ghost trace: Trace)
    requires net.open == {0, udpSockfd, tcpSockfd}
    requires 0 < udpSockfd && 0 < tcpSockfd && udpSockfd != tcpSockfd
    requires Rounds(rnd) && InputsConform(inputs) && AllTextual(net.inbound)
    modifies net
    ensures fresh(server) && Prepared(start)
    ensures rounds <= |inputs| && InputsConform(inputs[..rounds])
    ensures rounds < |inputs| ==> rounds > 0 && inputs[rounds - 1].exitCommand
    ensures LoopOf(start, old(net.inbound), inputs[..rounds], trace) && server.State() == Final(start, trace.evs)
    ensures PublishedIn(trace.evs) == PublicationsOf(inputs[..rounds]) && trace.streams == StreamsOf(inputs[..rounds])
    ensures forall id :: Online(server.State(), id) ==>
              Served(start, trace.evs, net.outbound, old(net.inbound), trace.streams, net.inbound, id,
                     server.State().clients[id].currFd)
    ensures net.open == {0}
  {
    hide *;
    server := new Server(host, net, udpSockfd, tcpSockfd);
    start := server.State();
    server.ValidFacts();
    assert start.pollFds == server.pollFds && server.clients.Values == {};
    ghost var out, in0 := net.outbound, net.inbound;
    rounds, trace := server.Run(inputs, rnd);
    LoopHandles(start, in0, inputs[..rounds], trace);
    AllServed(start, out, trace.evs, server.State(), net.outbound, in0, trace.streams, net.inbound);
    server.ValidFacts();
    server.CloseSockets();
  }
}
