/**
 The server and any number of subscribers over FIFO channels.  A subscriber connects, sends
 its id and reads the verdict; accepted, it sends one request at a time and takes the next
 message as its answer; it ends by closing its socket.  Each step of either side is one
 action, and actions interleave in any way the channels allow.
 */
module Distributed {
  import opened Wire
  import opened UdpPayload
  import opened ServerModel
  import opened ClientHistory

  datatype Phase = Joining | Running | Waiting | Gone

  /** The server's end of a connection: not yet accepted, open at a descriptor, or closed. */
  datatype Link = Backlog | Attached(fd: int) | Detached

  /**
   One subscriber and its connection: the channels `up` and `down`, and for the record the
   requests it sent, those the server has consumed, and the messages it has read.
   */
  datatype Conn = Conn(id: string, phase: Phase, link: Link, up: seq<Message>, down: seq<Message>,
                       accepted: bool, asked: seq<Act>, served: seq<Act>, got: seq<Message>)

  datatype System = System(server: ServerState, conns: map<nat, Conn>)

  datatype Action =
    | Dial(c: nat, id: string)
    | ServerAccept(c: nat, fd: int)
    | ServerServe(c: nat)
    | ServerEof(c: nat)
    | ServerPublish(topic: string, payload: Payload)
    | ReadVerdict(c: nat)
    | Ask(c: nat, command: byte, topic: string)
    | Read(c: nat)
    | ReadEof(c: nat)
    | Quit(c: nat)

  ghost predicate Shippable(s: string) { IsText(s) && |s| + 1 < 0x1_0000 }

  // ----- what a subscriber does to its own connection

  /** A fresh socket with the id on its way. */
  function Dialed(id: string): Conn
    requires |id| + 1 < 0x1_0000
  {
    Conn(id, Joining, Backlog, [TextMessage(CONNECT_REQ, id)], [], false, [], [], [])
  }

  function VerdictRead(conn: Conn): Conn
    requires conn.down != []
  {
    conn.(down := conn.down[1..], got := conn.got + [conn.down[0]],
          phase := if conn.down[0].command == CONNECT_ACCEPTED then Running else Gone)
  }

  function Asking(conn: Conn, command: byte, topic: string): Conn
    requires |topic| + 1 < 0x1_0000
  {
    conn.(up := conn.up + [TextMessage(command, topic)], asked := conn.asked + [Request(command, topic)],
          phase := Waiting)
  }

  /** One message is read, as the answer that is waited for or on its own. */
  function MessageRead(conn: Conn): Conn
    requires conn.down != []
  {
    conn.(down := conn.down[1..], got := conn.got + [conn.down[0]], phase := Running)
  }

  /** At the end of the stream a cleared message structure is no acceptance and no publication. */
  function EofRead(conn: Conn): Conn { conn.(phase := if conn.phase.Waiting? then Running else Gone) }

  function Quitting(conn: Conn): Conn { conn.(phase := Gone) }

  // ----- the actions

  /** The event that a server action is for the server. */
  ghost function EventOf(s: System, a: Action): seq<Event> {
    match a
    case ServerAccept(c, fd) =>
      if c in s.conns && s.conns[c].up != [] then [Accepted(fd, CString(s.conns[c].up[0].payload))] else []
    case ServerServe(c) =>
      if c in s.conns && s.conns[c].link.Attached? && s.conns[c].up != []
      then [Requested(s.conns[c].link.fd, s.conns[c].up[0].command, CString(s.conns[c].up[0].payload))] else []
    case ServerEof(c) =>
      if c in s.conns && s.conns[c].link.Attached? then [Closed(s.conns[c].link.fd)] else []
    case ServerPublish(topic, payload) => [Published(topic, payload)]
    case _ => []
  }

  ghost predicate Can(s: System, a: Action) {
    match a
    case Dial(c, id) => c !in s.conns && Shippable(id)
    case ServerAccept(c, fd) =>
      c in s.conns && s.conns[c].link.Backlog? && s.conns[c].up != []
      && Enabled(s.server, EventOf(s, a)[0])
    case ServerServe(c) => c in s.conns && s.conns[c].link.Attached? && s.conns[c].up != []
    case ServerEof(c) =>
      c in s.conns && s.conns[c].link.Attached? && s.conns[c].up == [] && s.conns[c].phase.Gone?
    case ServerPublish(topic, payload) => FromDatagram(topic, payload)
    case ReadVerdict(c) => c in s.conns && s.conns[c].phase.Joining? && s.conns[c].down != []
    case Ask(c, command, topic) =>
      c in s.conns && s.conns[c].phase.Running? && Publishable(topic)
      && (command == SUBSCRIBE_REQ || command == UNSUBSCRIBE_REQ)
    case Read(c) =>
      c in s.conns && (s.conns[c].phase.Running? || s.conns[c].phase.Waiting?) && s.conns[c].down != []
    case ReadEof(c) =>
      c in s.conns && !s.conns[c].phase.Gone? && s.conns[c].down == [] && s.conns[c].link.Detached?
    case Quit(c) => c in s.conns && s.conns[c].phase.Running?
  }

  /** What the subscriber or the server does to the connection of the action. */
  ghost function Changed(s: System, a: Action): Conn
    requires Can(s, a) && !a.Dial? && !a.ServerPublish?
  {
    var conn := s.conns[a.c];
    match a
    case ServerAccept(_, fd) =>
      var out := Step(s.server, EventOf(s, a)[0]);
      var reply := if fd in out.sends then [out.sends[fd]] else [];
      var ok := !Online(s.server, CString(conn.up[0].payload));
      conn.(up := conn.up[1..], down := conn.down + reply, accepted := ok,
            link := if ok then Attached(fd) else Detached)
    case ServerServe(_) =>
      var out := Step(s.server, EventOf(s, a)[0]);
      var reply := if conn.link.fd in out.sends then [out.sends[conn.link.fd]] else [];
      conn.(up := conn.up[1..], down := conn.down + reply, served := conn.served + [RequestOf(conn.up[0])])
    case ServerEof(_) => conn.(link := Detached)
    case ReadVerdict(_) => VerdictRead(conn)
    case Ask(_, command, topic) => Asking(conn, command, topic)
    case Read(_) => MessageRead(conn)
    case ReadEof(_) => EofRead(conn)
    case Quit(_) => Quitting(conn)
  }

  ghost function Routed(conn: Conn, sends: map<int, Message>): Conn {
    if conn.link.Attached? && conn.link.fd in sends then conn.(down := conn.down + [sends[conn.link.fd]]) else conn
  }

  ghost function After(server: ServerState, evs: seq<Event>): ServerState {
    if evs == [] then server else Step(server, evs[0]).state
  }

  ghost function Do(s: System, a: Action): System
    requires Can(s, a)
  {
    match a
    case Dial(c, id) => System(s.server, s.conns[c := Dialed(id)])
    case ServerPublish(topic, payload) =>
      var out := Step(s.server, Published(topic, payload));
      System(out.state, map c | c in s.conns :: Routed(s.conns[c], out.sends))
    case _ =>
      System(After(s.server, EventOf(s, a)), s.conns[a.c := Changed(s, a)])
  }

  // ----- what every reachable state satisfies

  /** The connection has been accepted: its verdict is on its way or the subscriber runs. */
  ghost predicate Admitted(conn: Conn) {
    || conn.phase.Running? || conn.phase.Waiting?
    || (conn.phase.Joining? && exists m :: m in conn.down && m.command == CONNECT_ACCEPTED)
  }

  /** The verdict comes first, then the replies, each of the kind its request calls for. */
  ghost predicate Paired(served: seq<Act>, replies: seq<Message>) {
    && |replies| == |served| + 1
    && replies[0].command == CONNECT_ACCEPTED
    && forall k :: 0 <= k < |served| ==> Answers(served[k], replies[k + 1])
  }

  ghost predicate ConnInv(conn: Conn) {
    && (conn.link.Backlog? ==>
          && conn.phase.Joining? && conn.down == [] && conn.got == [] && conn.asked == [] && conn.served == []
          && Shippable(conn.id) && conn.up == [TextMessage(CONNECT_REQ, conn.id)])
    && (!conn.link.Backlog? ==> conn.asked == conn.served + RequestsIn(conn.up))
    && (conn.link.Attached? ==> conn.accepted)
    && (conn.phase.Running? || conn.phase.Waiting? ==> conn.link.Attached?)
    && (conn.link.Detached? && conn.accepted ==> conn.phase.Gone?)
    && (conn.phase.Joining? ==> conn.got == [] && conn.asked == [])
    && (!conn.link.Backlog? && conn.accepted ==>
          && Paired(conn.served, Replies(conn.got + conn.down))
          && (conn.got + conn.down)[0].command == CONNECT_ACCEPTED)
    && (!conn.link.Backlog? && !conn.accepted ==>
          conn.got + conn.down == [Message(CONNECT_DENIED, [])] && conn.served == [])
  }

  /** An open connection belongs to the connected client with its id, at the descriptor stored for it. */
  ghost predicate LinksHeld(server: ServerState, conns: map<nat, Conn>) {
    forall c :: c in conns && conns[c].link.Attached? ==>
      Online(server, conns[c].id) && Holds(server, conns[c].id, conns[c].link.fd)
  }

  ghost predicate LinksDistinct(conns: map<nat, Conn>) {
    forall c, d :: (c in conns && d in conns && conns[c].link.Attached? && conns[c].link == conns[d].link) ==> c == d
  }

  /** Behind every connected client there is an open connection. */
  ghost predicate Backed(server: ServerState, conns: map<nat, Conn>) {
    forall id :: Online(server, id) ==> exists c :: c in conns && conns[c].link == Attached(server.clients[id].currFd)
  }

  ghost predicate SysInv(s: System) {
    && Inv(s.server)
    && (forall c :: c in s.conns ==> ConnInv(s.conns[c]))
    && LinksHeld(s.server, s.conns) && LinksDistinct(s.conns) && Backed(s.server, s.conns)
  }

  // ----- one connection at a time

  /** Whatever moves from the channel to the subscriber, the history is the same. */
  lemma MovedHead(got: seq<Message>, down: seq<Message>)
    requires down != []
    ensures got + [down[0]] + down[1..] == got + down
  {
  }

  /** Reading a message: the verdict, an answer or a publication. */
  lemma ReadConnInv(s: System, a: Action)
    requires SysInv(s) && Can(s, a) && (a.ReadVerdict? || a.Read?)
    ensures ConnInv(Changed(s, a))
  {
    var conn := s.conns[a.c];
    MovedHead(conn.got, conn.down);
    assert conn.phase.Joining? ==> conn.got + conn.down == conn.down;
    assert ConnInv(conn);
    hide Inv, LinksHeld, LinksDistinct, Backed;
  }

  lemma AskConnInv(s: System, a: Action)
    requires SysInv(s) && Can(s, a) && a.Ask?
    ensures ConnInv(Changed(s, a))
  {
    var conn, m := s.conns[a.c], TextMessage(a.command, a.topic);
    CStringOfZeroEnded(a.topic);
    RequestsInConcat(conn.up, [m]);
    assert RequestsIn([m]) == [Request(a.command, a.topic)];
    assert ConnInv(conn);
    hide Inv, LinksHeld, LinksDistinct, Backed;
  }

  lemma SubscriberConnInv(s: System, a: Action)
    requires SysInv(s) && Can(s, a)
    requires a.ReadVerdict? || a.Ask? || a.Read? || a.ReadEof? || a.Quit?
    ensures ConnInv(Changed(s, a)) && Changed(s, a).link == s.conns[a.c].link && Changed(s, a).id == s.conns[a.c].id
  {
    if a.ReadVerdict? || a.Read? {
      ReadConnInv(s, a);
    } else if a.Ask? {
      AskConnInv(s, a);
    } else {
      assert ConnInv(s.conns[a.c]);
    }
  }

  /** One more message to a connection, a publication or the reply to its next request. */
  lemma PairedMore(conn: Conn, m: Message, served: seq<Act>)
    requires Paired(conn.served, Replies(conn.got + conn.down))
    requires (conn.got + conn.down)[0].command == CONNECT_ACCEPTED
    requires if m.command == MSG_FROM_UDP then served == conn.served
             else exists act :: served == conn.served + [act] && Answers(act, m)
    ensures Paired(served, Replies(conn.got + (conn.down + [m])))
    ensures (conn.got + (conn.down + [m]))[0].command == CONNECT_ACCEPTED
  {
    var log := conn.got + conn.down;
    assert conn.got + (conn.down + [m]) == log + [m];
    RepliesConcat(log, [m]);
    assert Replies([m]) == (if m.command == MSG_FROM_UDP then [] else [m]) + Replies([m][1..]);
    assert log != [];
  }

  lemma RoutedConnInv(conn: Conn, sends: map<int, Message>)
    requires ConnInv(conn)
    requires forall fd :: fd in sends ==> sends[fd].command == MSG_FROM_UDP
    ensures ConnInv(Routed(conn, sends))
  {
    if conn.link.Attached? && conn.link.fd in sends {
      PairedMore(conn, sends[conn.link.fd], conn.served);
    }
  }

  /** Messages wait only where the id has been read. */
  lemma AttachedServes(conn: Conn)
    requires ConnInv(conn) && conn.link.Attached? && conn.up != []
    ensures !conn.phase.Joining?
    ensures conn.asked == conn.served + [RequestOf(conn.up[0])] + RequestsIn(conn.up[1..])
  {
    assert conn.up == [conn.up[0]] + conn.up[1..];
    RequestsInConcat([conn.up[0]], conn.up[1..]);
    assert RequestsIn([conn.up[0]]) == [RequestOf(conn.up[0])];
    assert |conn.asked| == |conn.served| + |conn.up|;
  }

  // ----- every action keeps the invariant

  /** The same clients at the same descriptors. */
  ghost predicate SameClients(a: ServerState, b: ServerState) {
    forall id :: (Online(a, id) <==> Online(b, id)) && (Online(a, id) ==> a.clients[id].currFd == b.clients[id].currFd)
  }

  /** An action that neither opens nor closes a connection. */
  lemma SameLinks(s: System, next: System)
    requires SysInv(s) && Inv(next.server) && SameClients(s.server, next.server)
    requires s.conns.Keys == next.conns.Keys
    requires forall c :: c in s.conns ==>
      ConnInv(next.conns[c]) && next.conns[c].link == s.conns[c].link && next.conns[c].id == s.conns[c].id
    ensures SysInv(next)
  {
    hide Inv, ConnInv;
    forall id | Online(next.server, id)
      ensures exists c :: c in next.conns && next.conns[c].link == Attached(next.server.clients[id].currFd)
    {
      assert Online(s.server, id);
      var c :| c in s.conns && s.conns[c].link == Attached(s.server.clients[id].currFd);
      assert c in next.conns;
    }
    forall c | c in next.conns && next.conns[c].link.Attached?
      ensures Online(next.server, next.conns[c].id) && Holds(next.server, next.conns[c].id, next.conns[c].link.fd)
    {
      assert Online(s.server, s.conns[c].id);
    }
  }

  lemma SubscriberKeeps(s: System, a: Action)
    requires SysInv(s) && Can(s, a)
    requires a.ReadVerdict? || a.Ask? || a.Read? || a.ReadEof? || a.Quit?
    ensures SysInv(Do(s, a))
  {
    SubscriberConnInv(s, a);
    hide Inv, ConnInv, Changed;
    SameLinks(s, Do(s, a));
  }

  lemma PublishKeeps(s: System, topic: string, payload: Payload)
    requires SysInv(s) && Can(s, ServerPublish(topic, payload))
    ensures SysInv(Do(s, ServerPublish(topic, payload)))
  {
    hide Inv, ConnInv, Recipients;
    var next := Do(s, ServerPublish(topic, payload));
    forall c | c in s.conns ensures ConnInv(next.conns[c]) {
      RoutedConnInv(s.conns[c], Step(s.server, Published(topic, payload)).sends);
    }
    SameLinks(s, next);
  }

  /** The descriptor of a connection is polled, and its holder is the id of the connection. */
  lemma LinkedFd(s: System, c: nat)
    requires SysInv(s) && c in s.conns && s.conns[c].link.Attached?
    ensures s.conns[c].link.fd in Fds(s.server.pollFds[3..])
    ensures HolderOf(s.server, s.conns[c].link.fd) == s.conns[c].id && Online(s.server, s.conns[c].id)
  {
    var id, fd := s.conns[c].id, s.conns[c].link.fd;
    assert Online(s.server, id) && Holds(s.server, id, fd);
    assert fd in ConnectedFds(s.server);
    HolderExists(s.server, fd);
  }

  lemma ServeConnInv(s: System, c: nat)
    requires SysInv(s) && Can(s, ServerServe(c))
    ensures ConnInv(Changed(s, ServerServe(c)))
    ensures Enabled(s.server, EventOf(s, ServerServe(c))[0])
  {
    var conn := s.conns[c];
    LinkedFd(s, c);
    AttachedServes(conn);
    var act := RequestOf(conn.up[0]);
    var reply := Step(s.server, EventOf(s, ServerServe(c))[0]).sends[conn.link.fd];
    assert Answers(act, reply);
    PairedMore(conn, reply, conn.served + [act]);
  }

  lemma ServeSameClients(st: ServerState, ev: Event)
    requires ev.Requested?
    ensures SameClients(st, Step(st, ev).state)
  {
  }

  lemma ServeResult(s: System, c: nat)
    requires SysInv(s) && Can(s, ServerServe(c))
    ensures var next := Do(s, ServerServe(c));
            && Inv(next.server) && SameClients(s.server, next.server)
            && c in s.conns && next.conns == s.conns[c := next.conns[c]] && ConnInv(next.conns[c])
            && next.conns[c].link == s.conns[c].link && next.conns[c].id == s.conns[c].id
  {
    var ev := EventOf(s, ServerServe(c))[0];
    ServeConnInv(s, c);
    StepKeepsInv(s.server, ev);
    ServeSameClients(s.server, ev);
    hide Inv, ConnInv, Step, SameClients;
  }

  lemma ConnsInv(s: System)
    requires SysInv(s)
    ensures forall c :: c in s.conns ==> ConnInv(s.conns[c])
  {
  }

  lemma ServeKeeps(s: System, c: nat)
    requires SysInv(s) && Can(s, ServerServe(c))
    ensures SysInv(Do(s, ServerServe(c)))
  {
    ServeResult(s, c);
    ConnsInv(s);
    hide *;
    SameLinks(s, Do(s, ServerServe(c)));
  }

  lemma EofConnInv(s: System, c: nat)
    requires SysInv(s) && Can(s, ServerEof(c))
    ensures ConnInv(Changed(s, ServerEof(c)))
  {
    assert ConnInv(s.conns[c]);
  }

  /** Another client that is still connected was so before, at a descriptor of its own. */
  lemma OthersStay(st: ServerState, fd: int, x: string)
    requires Inv(st) && Enabled(st, Closed(fd))
    ensures Online(CloseStep(st, fd).state, x) <==> Online(st, x) && x != HolderOf(st, fd)
    ensures Online(st, x) && x != HolderOf(st, fd) ==>
              st.clients[x].currFd != fd && CloseStep(st, fd).state.clients[x] == st.clients[x]
  {
    HolderExists(st, fd);
    assert Online(st, HolderOf(st, fd));
  }

  /** The client of connection `c` is the one that went offline, and nothing changed for the others. */
  ghost predicate WentOffline(server: ServerState, conns: map<nat, Conn>, after: ServerState, next: map<nat, Conn>,
                              c: nat) {
    && c in conns && conns[c].link.Attached?
    && c in next && !next[c].link.Attached? && next == conns[c := next[c]] && ConnInv(next[c])
    && (forall x :: Online(after, x) <==> Online(server, x) && x != conns[c].id)
    && (forall x :: Online(after, x) ==>
          server.clients[x].currFd != conns[c].link.fd && after.clients[x] == server.clients[x])
  }

  lemma EofResult(s: System, c: nat)
    requires SysInv(s) && Can(s, ServerEof(c))
    ensures Inv(Do(s, ServerEof(c)).server)
    ensures WentOffline(s.server, s.conns, Do(s, ServerEof(c)).server, Do(s, ServerEof(c)).conns, c)
  {
    var conn, next := s.conns[c], Do(s, ServerEof(c));
    var fd := conn.link.fd;
    LinkedFd(s, c);
    StepKeepsInv(s.server, Closed(fd));
    EofConnInv(s, c);
    forall x ensures Online(next.server, x) <==> Online(s.server, x) && x != conn.id
             ensures Online(next.server, x) ==>
                       s.server.clients[x].currFd != fd && next.server.clients[x] == s.server.clients[x]
    {
      OthersStay(s.server, fd, x);
    }
  }

  lemma EofOthers(server: ServerState, conns: map<nat, Conn>, after: ServerState, next: map<nat, Conn>, c: nat)
    requires WentOffline(server, conns, after, next, c)
    requires LinksDistinct(conns) && forall d :: d in conns ==> ConnInv(conns[d])
    ensures LinksDistinct(next) && forall d :: d in next ==> ConnInv(next[d])
  {
    hide ConnInv, Online;
  }

  lemma EofHeld(server: ServerState, conns: map<nat, Conn>, after: ServerState, next: map<nat, Conn>, c: nat)
    requires WentOffline(server, conns, after, next, c)
    requires LinksHeld(server, conns) && LinksDistinct(conns)
    ensures LinksHeld(after, next)
  {
    forall d | d in next && next[d].link.Attached?
      ensures Online(after, next[d].id) && Holds(after, next[d].id, next[d].link.fd)
    {
      assert d != c && conns[d].link != conns[c].link;
      assert Holds(server, conns[d].id, conns[d].link.fd) && Holds(server, conns[c].id, conns[c].link.fd);
    }
  }

  lemma EofBacked(server: ServerState, conns: map<nat, Conn>, after: ServerState, next: map<nat, Conn>, c: nat)
    requires WentOffline(server, conns, after, next, c)
    requires Backed(server, conns)
    ensures Backed(after, next)
  {
    forall x | Online(after, x)
      ensures exists d :: d in next && next[d].link == Attached(after.clients[x].currFd)
    {
      var d :| d in conns && conns[d].link == Attached(server.clients[x].currFd);
      assert next[d] == conns[d];
    }
  }

  lemma EofKeeps(s: System, c: nat)
    requires SysInv(s) && Can(s, ServerEof(c))
    ensures SysInv(Do(s, ServerEof(c)))
  {
    EofResult(s, c);
    var next := Do(s, ServerEof(c));
    EofHeld(s.server, s.conns, next.server, next.conns, c);
    EofBacked(s.server, s.conns, next.server, next.conns, c);
    EofOthers(s.server, s.conns, next.server, next.conns, c);
    hide Inv, ConnInv, Do, Can, WentOffline, LinksHeld, Backed, LinksDistinct;
  }

  lemma UnattachedHeld(server: ServerState, conns: map<nat, Conn>, next: map<nat, Conn>, c: nat)
    requires LinksHeld(server, conns) && LinksDistinct(conns)
    requires c in next && next == conns[c := next[c]] && !next[c].link.Attached?
    ensures LinksHeld(server, next) && LinksDistinct(next)
  {
    hide Online, Holds;
  }

  lemma UnattachedBacked(server: ServerState, conns: map<nat, Conn>, next: map<nat, Conn>, c: nat)
    requires Backed(server, conns) && c in next && next == conns[c := next[c]]
    requires c in conns ==> !conns[c].link.Attached?
    ensures Backed(server, next)
  {
    forall x | Online(server, x)
      ensures exists d :: d in next && next[d].link == Attached(server.clients[x].currFd)
    {
      var d :| d in conns && conns[d].link == Attached(server.clients[x].currFd);
      assert next[d] == conns[d];
    }
  }

  /** An action on a connection that is not open before or after it. */
  lemma Unattached(s: System, next: System, c: nat)
    requires SysInv(s) && next.server == s.server && c in next.conns && next.conns == s.conns[c := next.conns[c]]
    requires ConnInv(next.conns[c]) && !next.conns[c].link.Attached?
    requires c in s.conns ==> !s.conns[c].link.Attached?
    ensures SysInv(next)
  {
    UnattachedBacked(s.server, s.conns, next.conns, c);
    UnattachedHeld(s.server, s.conns, next.conns, c);
    hide Inv, ConnInv, Backed, LinksHeld, LinksDistinct;
  }

  lemma DialKeeps(s: System, c: nat, id: string)
    requires SysInv(s) && Can(s, Dial(c, id))
    ensures SysInv(Do(s, Dial(c, id)))
  {
    Unattached(s, Do(s, Dial(c, id)), c);
  }

  lemma AcceptConnInv(s: System, c: nat, fd: int)
    requires SysInv(s) && Can(s, ServerAccept(c, fd))
    ensures EventOf(s, ServerAccept(c, fd)) == [Accepted(fd, s.conns[c].id)]
    ensures ConnInv(Changed(s, ServerAccept(c, fd)))
  {
    var conn := s.conns[c];
    CStringOfZeroEnded(conn.id);
    var after := Changed(s, ServerAccept(c, fd));
    assert after.up == [] && RequestsIn([]) == [];
    assert after.got + after.down == after.down;
    var reply := after.down[0];
    assert after.down == [reply] && [reply][1..] == [];
    assert Replies([reply]) == [reply] + Replies([]);
  }

  /** accept() hands out a descriptor that no connection has. */
  lemma FreshForAll(s: System, fd: int)
    requires SysInv(s) && fd !in Fds(s.server.pollFds)
    ensures forall d :: d in s.conns && s.conns[d].link.Attached? ==> s.conns[d].link.fd != fd
  {
    forall d | d in s.conns && s.conns[d].link.Attached? ensures s.conns[d].link.fd != fd {
      FreshFd(s.server, fd, s.conns[d].id);
    }
  }

  lemma DenyResult(s: System, c: nat, fd: int)
    requires SysInv(s) && Can(s, ServerAccept(c, fd)) && Online(s.server, s.conns[c].id)
    ensures var next := Do(s, ServerAccept(c, fd));
            && next.server == s.server && c in s.conns && next.conns == s.conns[c := next.conns[c]]
            && !s.conns[c].link.Attached? && next.conns[c].link.Detached? && ConnInv(next.conns[c])
  {
    AcceptConnInv(s, c, fd);
  }

  lemma AdmitResult(s: System, c: nat, fd: int)
    requires SysInv(s) && Can(s, ServerAccept(c, fd)) && !Online(s.server, s.conns[c].id)
    ensures var next := Do(s, ServerAccept(c, fd));
            && next.server == AcceptStep(s.server, fd, s.conns[c].id).state && Inv(next.server)
            && c in s.conns && next.conns == s.conns[c := next.conns[c]]
            && !s.conns[c].link.Attached? && ConnInv(next.conns[c])
            && next.conns[c].link == Attached(fd) && next.conns[c].id == s.conns[c].id
  {
    AcceptConnInv(s, c, fd);
    StepKeepsInv(s.server, Accepted(fd, s.conns[c].id));
  }

  lemma AdmittedHeld(server: ServerState, conns: map<nat, Conn>, next: map<nat, Conn>, c: nat, fd: int)
    requires LinksHeld(server, conns) && c in conns && !Online(server, conns[c].id)
    requires c in next && next == conns[c := next[c]] && next[c].link == Attached(fd) && next[c].id == conns[c].id
    ensures LinksHeld(AcceptStep(server, fd, conns[c].id).state, next)
  {
    var after := AcceptStep(server, fd, conns[c].id).state;
    forall d | d in next && next[d].link.Attached?
      ensures Online(after, next[d].id) && Holds(after, next[d].id, next[d].link.fd)
    {
      if d != c { assert Online(server, conns[d].id) && Holds(server, conns[d].id, conns[d].link.fd); }
    }
  }

  lemma AdmittedBacked(server: ServerState, conns: map<nat, Conn>, next: map<nat, Conn>, c: nat, fd: int)
    requires Backed(server, conns) && c in conns && !conns[c].link.Attached? && !Online(server, conns[c].id)
    requires c in next && next == conns[c := next[c]] && next[c].link == Attached(fd)
    ensures Backed(AcceptStep(server, fd, conns[c].id).state, next)
  {
    var after := AcceptStep(server, fd, conns[c].id).state;
    forall x | Online(after, x)
      ensures exists d :: d in next && next[d].link == Attached(after.clients[x].currFd)
    {
      if x == conns[c].id {
        assert next[c].link == Attached(after.clients[x].currFd);
      } else {
        assert Online(server, x);
        var d :| d in conns && conns[d].link == Attached(server.clients[x].currFd);
        assert next[d] == conns[d];
      }
    }
  }

  lemma AdmittedKeeps(s: System, next: System, c: nat, fd: int)
    requires SysInv(s) && c in s.conns && !s.conns[c].link.Attached? && !Online(s.server, s.conns[c].id)
    requires next.server == AcceptStep(s.server, fd, s.conns[c].id).state && Inv(next.server)
    requires c in next.conns && next.conns == s.conns[c := next.conns[c]] && ConnInv(next.conns[c])
    requires next.conns[c].link == Attached(fd) && next.conns[c].id == s.conns[c].id
    requires forall d :: d in s.conns && s.conns[d].link.Attached? ==> s.conns[d].link.fd != fd
    ensures SysInv(next)
  {
    AdmittedBacked(s.server, s.conns, next.conns, c, fd);
    AdmittedHeld(s.server, s.conns, next.conns, c, fd);
    hide Inv, ConnInv, Backed, LinksHeld, AcceptStep;
  }

  lemma AcceptKeeps(s: System, c: nat, fd: int)
    requires SysInv(s) && Can(s, ServerAccept(c, fd))
    ensures SysInv(Do(s, ServerAccept(c, fd)))
  {
    if Online(s.server, s.conns[c].id) {
      DenyResult(s, c, fd);
      hide *;
      Unattached(s, Do(s, ServerAccept(c, fd)), c);
    } else {
      AdmitResult(s, c, fd);
      FreshForAll(s, fd);
      hide *;
      AdmittedKeeps(s, Do(s, ServerAccept(c, fd)), c, fd);
    }
  }

  lemma DoKeepsInv(s: System, a: Action)
    requires SysInv(s) && Can(s, a)
    ensures SysInv(Do(s, a))
  {
    match a
    case Dial(c, id) => DialKeeps(s, c, id);
    case ServerAccept(c, fd) => AcceptKeeps(s, c, fd);
    case ServerServe(c) => ServeKeeps(s, c);
    case ServerEof(c) => EofKeeps(s, c);
    case ServerPublish(topic, payload) => PublishKeeps(s, topic, payload);
    case _ => SubscriberKeeps(s, a);
  }

  // ----- runs

  ghost predicate Start(s: System) { Prepared(s.server) && s.conns == map[] }

  /** The states of a run: `states[i + 1]` follows from `states[i]` by `actions[i]`. */
  ghost predicate IsRun(states: seq<System>, actions: seq<Action>) {
    && |states| == |actions| + 1 && Start(states[0])
    && forall i :: 0 <= i < |actions| ==> Can(states[i], actions[i]) && states[i + 1] == Do(states[i], actions[i])
  }

  lemma {:induction false} RunInv(states: seq<System>, actions: seq<Action>, i: nat)
    requires IsRun(states, actions) && i < |states|
    ensures SysInv(states[i])
  {
    if i == 0 {
    } else {
      RunInv(states, actions, i - 1);
      DoKeepsInv(states[i - 1], actions[i - 1]);
    }
  }

  lemma AdmittedAttached(conn: Conn)
    requires ConnInv(conn) && Admitted(conn)
    ensures conn.link.Attached?
  {
    assert conn.phase.Joining? ==> conn.got + conn.down == conn.down;
  }

  /** In every reachable state at most one subscriber per id has been accepted. */
  lemma MutualExclusion(states: seq<System>, actions: seq<Action>, i: nat, c: nat, d: nat)
    requires IsRun(states, actions) && i < |states|
    requires c in states[i].conns && d in states[i].conns
    requires Admitted(states[i].conns[c]) && Admitted(states[i].conns[d])
    requires states[i].conns[c].id == states[i].conns[d].id
    ensures c == d
  {
    RunInv(states, actions, i);
    var s := states[i];
    AdmittedAttached(s.conns[c]);
    AdmittedAttached(s.conns[d]);
  }

  lemma AllServed(conn: Conn)
    requires ConnInv(conn) && conn.link.Attached? && conn.up == []
    ensures conn.served == conn.asked
  {
    assert RequestsIn([]) == [];
  }

  /** An id becomes free only when its holder has closed its socket and all it sent has been consumed. */
  lemma FreedOnlyAtEnd(s: System, a: Action, id: string)
    requires SysInv(s) && Can(s, a)
    requires Online(s.server, id) && !Online(Do(s, a).server, id)
    ensures a.ServerEof? && s.conns[a.c].id == id && s.conns[a.c].phase.Gone?
    ensures s.conns[a.c].served == s.conns[a.c].asked
  {
    hide FromDatagram, Publishable;
    match a
    case ServerAccept(c, fd) => AcceptConnInv(s, c, fd);
    case ServerServe(c) => ServeResult(s, c);
    case ServerEof(c) =>
      EofResult(s, c);
      AllServed(s.conns[c]);
    case _ =>
      hide Inv, ConnInv;
  }

  lemma VerdictOf(conn: Conn)
    requires ConnInv(conn) && conn.phase.Joining? && conn.down != []
    ensures conn.down[0].command == CONNECT_ACCEPTED <==> conn.accepted
    ensures conn.got == []
    ensures if conn.accepted then conn.link.Attached? else conn.down == [Message(CONNECT_DENIED, [])]
  {
    assert conn.got + conn.down == conn.down;
  }

  /** The first message a subscriber reads is its verdict, and it runs exactly when the server admitted it. */
  lemma VerdictFirst(s: System, c: nat)
    requires SysInv(s) && Can(s, ReadVerdict(c))
    ensures var after := Do(s, ReadVerdict(c)).conns[c];
            && (after.phase.Running? <==> after.accepted)
            && (after.phase.Running? ==> after.link.Attached? && Holds(s.server, after.id, after.link.fd))
            && (!after.accepted ==> after.got == [Message(CONNECT_DENIED, [])] && after.down == [])
  {
    VerdictOf(s.conns[c]);
    hide Inv, ConnInv, Backed, LinksDistinct;
  }

  /** A subscriber that was accepted is never cut off: it finds no end of stream. */
  lemma NeverCutOff(s: System, c: nat)
    requires SysInv(s)
    ensures !Can(s, ReadEof(c))
  {
    if c in s.conns {
      assert s.conns[c].down == [] ==> s.conns[c].got + s.conns[c].down == s.conns[c].got;
    }
  }

  lemma {:induction false} AdmittedAccepted(states: seq<System>, actions: seq<Action>, i: nat, c: nat)
    requires IsRun(states, actions) && i < |states|
    requires c in states[i].conns && states[i].conns[c].accepted
    ensures !states[i].conns[c].link.Backlog?
  {
    if i == 0 {
    } else {
      var s, a := states[i - 1], actions[i - 1];
      if c in s.conns && s.conns[c].accepted {
        AdmittedAccepted(states, actions, i - 1, c);
      }
    }
  }

  /** Requests are consumed in the order they were sent, and the k-th reply answers the k-th request. */
  lemma RepliesInOrder(states: seq<System>, actions: seq<Action>, i: nat, c: nat)
    requires IsRun(states, actions) && i < |states|
    requires c in states[i].conns && states[i].conns[c].accepted
    ensures var conn := states[i].conns[c];
            && conn.served <= conn.asked
            && Paired(conn.served, Replies(conn.got + conn.down))
  {
    RunInv(states, actions, i);
    AdmittedAccepted(states, actions, i, c);
  }

  // ----- the server within the system

  /** The events of a run, as the server sees it. */
  ghost function EventsOfRun(states: seq<System>, actions: seq<Action>, n: nat): seq<Event>
    requires n <= |actions| < |states|
  {
    if n == 0 then [] else EventsOfRun(states, actions, n - 1) + EventOf(states[n - 1], actions[n - 1])
  }

  lemma ActionIsEvents(s: System, a: Action)
    requires SysInv(s) && Can(s, a)
    ensures |EventOf(s, a)| <= 1 && Do(s, a).server == After(s.server, EventOf(s, a))
    ensures EventOf(s, a) != [] ==> Enabled(s.server, EventOf(s, a)[0])
  {
    if a.ServerServe? || a.ServerEof? { LinkedFd(s, a.c); }
  }

  lemma EventsMore(st: ServerState, evs: seq<Event>, e: seq<Event>)
    requires |e| <= 1 && Legal(st, evs) && (e != [] ==> Enabled(Final(st, evs), e[0]))
    ensures Legal(st, evs + e) && Final(st, evs + e) == After(Final(st, evs), e)
  {
    if e == [] {
      assert evs + e == evs;
    } else {
      assert (evs + e)[..|evs|] == evs;
    }
  }

  /** Whatever the subscribers do, the server makes one of its own legal runs, so all that holds of those holds here. */
  lemma {:induction false} ServerRunsWithin(states: seq<System>, actions: seq<Action>, n: nat)
    requires IsRun(states, actions) && n <= |actions|
    ensures Legal(states[0].server, EventsOfRun(states, actions, n))
    ensures states[n].server == Final(states[0].server, EventsOfRun(states, actions, n))
  {
    if n == 0 {
    } else {
      var s, a := states[n - 1], actions[n - 1];
      assert Can(s, a) && states[n] == Do(s, a);
      var evs, e := EventsOfRun(states, actions, n - 1), EventOf(s, a);
      assert EventsOfRun(states, actions, n) == evs + e;
      hide *;
      ServerRunsWithin(states, actions, n - 1);
      RunInv(states, actions, n - 1);
      ActionIsEvents(s, a);
      EventsMore(states[0].server, evs, e);
    }
  }
}
