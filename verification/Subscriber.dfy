/**
 The subscriber: it sends its id, reads the verdict, and then serves stdin and its socket
 until it is told to exit or the server closes.  Every method performs on its connection the
 steps from which Distributed makes the actions of a subscriber.
 */
module Subscriber {
  import opened Wire
  import opened Network
  import opened Distributed
  import ClientHistory

  /** One line typed at a subscriber, already split into words. */
  datatype Typed = Nothing | Unsupported | Exit | Request(command: byte, topic: string)

  /** What one poll() of a subscriber reports. */
  datatype Ready = Ready(typed: Typed, socket: bool)

  /** A message read off the socket, as the answer to an id or a request, or on its own. */
  datatype Entry = Entry(asAnswer: bool, msg: Message)

  function Messages(log: seq<Entry>): seq<Message> {
    seq(|log|, i requires 0 <= i < |log| => log[i].msg)
  }

  /** The publications that reach the screen: those not read in place of an answer. */
  function Shown(log: seq<Entry>): seq<string> {
    if log == [] then []
    else
      var last := log[|log| - 1];
      Shown(log[..|log| - 1])
      + if !last.asAnswer && last.msg.command == MSG_FROM_UDP then [CString(last.msg.payload)] else []
  }

  ghost predicate Sendable(t: Typed) {
    t.Request? ==> (t.command == SUBSCRIBE_REQ || t.command == UNSUBSCRIBE_REQ) && |t.topic| <= 50
  }

  ghost predicate AllSendable(polls: seq<Ready>) {
    forall i :: 0 <= i < |polls| ==> Sendable(polls[i].typed)
  }

  // ----- what the polls do to the connection

  /** One receive: the next message, or the end of the stream. */
  function Received(conn: Conn): Conn {
    if conn.down == [] then EofRead(conn) else MessageRead(conn)
  }

  /** A line from stdin: a request goes out and the next message is taken as its answer. */
  ghost function AfterLine(conn: Conn, typed: Typed): Conn
    requires Sendable(typed)
  {
    match typed
    case Request(command, topic) => Received(Asking(conn, command, topic))
    case Exit => Quitting(conn)
    case _ => conn
  }

  ghost function AfterPoll(conn: Conn, ready: Ready): Conn
    requires Sendable(ready.typed)
  {
    var next := AfterLine(conn, ready.typed);
    if ready.typed.Exit? || !ready.socket then next else Received(next)
  }

  ghost function AfterPolls(conn: Conn, polls: seq<Ready>): Conn
    requires AllSendable(polls)
  {
    if polls == [] then conn
    else AfterPoll(AfterPolls(conn, polls[..|polls| - 1]), polls[|polls| - 1])
  }

  /** The requests that were typed, as messages and as acts. */
  ghost function TypedMessages(polls: seq<Ready>): seq<Message>
    requires AllSendable(polls)
  {
    if polls == [] then []
    else
      var typed := polls[|polls| - 1].typed;
      TypedMessages(polls[..|polls| - 1])
      + if typed.Request? then [TextMessage(typed.command, typed.topic)] else []
  }

  ghost function TypedActs(polls: seq<Ready>): seq<ClientHistory.Act> {
    if polls == [] then []
    else
      var typed := polls[|polls| - 1].typed;
      TypedActs(polls[..|polls| - 1])
      + if typed.Request? then [ClientHistory.Request(typed.command, typed.topic)] else []
  }

  lemma ReceivedAccounted(conn: Conn)
    ensures Received(conn).got + Received(conn).down == conn.got + conn.down && conn.got <= Received(conn).got
    ensures Received(conn).up == conn.up && Received(conn).asked == conn.asked
  {
    if conn.down != [] { MovedHead(conn.got, conn.down); }
  }

  lemma PollAccounted(conn: Conn, ready: Ready)
    requires Sendable(ready.typed)
    ensures var after := AfterPoll(conn, ready);
            var typed := ready.typed;
            && after.up == conn.up + (if typed.Request? then [TextMessage(typed.command, typed.topic)] else [])
            && after.asked == conn.asked
                              + (if typed.Request? then [ClientHistory.Request(typed.command, typed.topic)] else [])
            && after.got + after.down == conn.got + conn.down && conn.got <= after.got
  {
    var next := AfterLine(conn, ready.typed);
    ReceivedAccounted(conn);
    if ready.typed.Request? { ReceivedAccounted(Asking(conn, ready.typed.command, ready.typed.topic)); }
    ReceivedAccounted(next);
  }

  /** Polls send exactly the typed requests, in order, and neither lose nor reorder a message. */
  lemma {:induction false} PollsAccounted(conn: Conn, polls: seq<Ready>)
    requires AllSendable(polls)
    ensures var after := AfterPolls(conn, polls);
            && after.up == conn.up + TypedMessages(polls) && after.asked == conn.asked + TypedActs(polls)
            && after.got + after.down == conn.got + conn.down && conn.got <= after.got
  {
    if polls == [] {
      assert conn.up + [] == conn.up && conn.asked + [] == conn.asked;
    } else {
      var init, last := polls[..|polls| - 1], polls[|polls| - 1];
      PollsAccounted(conn, init);
      PollAccounted(AfterPolls(conn, init), last);
    }
  }

  /** How a poll goes on after its line, and when the subscriber still runs. */
  lemma LineFacts(conn: Conn, ready: Ready)
    requires Sendable(ready.typed) && conn.phase.Running?
    ensures var next := AfterLine(conn, ready.typed);
            && AfterPoll(conn, ready) == (if ready.typed.Exit? || !ready.socket then next else Received(next))
            && (next.phase.Running? <==> !ready.typed.Exit?)
            && (next.phase.Running? ==> (Received(next).phase.Running? <==> next.down != []))
  {
  }

  /** A message that arrives later does not change what is done before it is read. */
  lemma EarlyArrival(conn: Conn, more: seq<Message>)
    requires conn.down != []
    ensures MessageRead(conn.(down := conn.down + more)) == MessageRead(conn).(down := MessageRead(conn).down + more)
    ensures VerdictRead(conn.(down := conn.down + more)) == VerdictRead(conn).(down := VerdictRead(conn).down + more)
  {
    assert (conn.down + more)[1..] == conn.down[1..] + more;
  }

  // ----- logs and streams

  /** What a poll reads: first the answer to a typed request, then the message on the socket. */
  function PollLog(down: seq<Message>, ready: Ready): (log: seq<Entry>)
    ensures |log| <= |down|
  {
    var answers := if ready.typed.Request? && down != [] then [Entry(true, down[0])] else [];
    var rest := down[|answers|..];
    answers + if ready.socket && !ready.typed.Exit? && rest != [] then [Entry(false, rest[0])] else []
  }

  function PollsLog(down: seq<Message>, polls: seq<Ready>): (log: seq<Entry>)
    ensures |log| <= |down|
  {
    if polls == [] then []
    else
      var before := PollsLog(down, polls[..|polls| - 1]);
      before + PollLog(down[|before|..], polls[|polls| - 1])
  }

  /** Of these streams only the one of `fd` has changed. */
  ghost predicate OnlyAt(fd: int, before: map<int, seq<byte>>, after: map<int, seq<byte>>) {
    before.Keys == after.Keys && forall other :: other in before && other != fd ==> after[other] == before[other]
  }

  lemma NextCommand(s: seq<byte>)
    ensures ParseAll(s) != [] ==> s != [] && ParseAll(s)[0].command == s[0]
  {
  }

  lemma LogSnoc(log: seq<Entry>, e: Entry)
    ensures Messages(log + [e]) == Messages(log) + [e.msg]
    ensures Shown(log + [e]) == Shown(log)
            + if !e.asAnswer && e.msg.command == MSG_FROM_UDP then [CString(e.msg.payload)] else []
  {
    assert (log + [e])[..|log|] == log;
  }

  class Subscriber {
    const host: ByteOrder
    const net: Net
    const id: string
    const tcpSockfd: int
    // the lines printed for publications
    var screen: seq<string>
    ghost var log: seq<Entry>
    // the connection as Distributed has it, with all that the server will write already on its way
    ghost var conn: Conn

    /** A connected socket on which nothing has been sent. */
    constructor (host: ByteOrder, net: Net, id: string, tcpSockfd: int)
      requires |id| + 1 < 0x1_0000
      requires net.Holds(tcpSockfd) && net.outbound[tcpSockfd] == []
      ensures this.host == host && this.net == net && this.id == id && this.tcpSockfd == tcpSockfd
      ensures Valid() && log == [] && screen == []
      ensures conn == Dialed(id).(up := [], down := Down())
    {
      this.host, this.net, this.id, this.tcpSockfd := host, net, id, tcpSockfd;
      screen, log := [], [];
      conn := Dialed(id).(up := [], down := ParseAll(net.inbound[tcpSockfd]));
    }

    /** The messages that the server writes and this subscriber has not read. */
    ghost function Down(): seq<Message>
      requires net.Holds(tcpSockfd)
      reads this, net
    {
      ParseAll(net.inbound[tcpSockfd])
    }

    /** Sockets, log and screen are those of the connection. */
    ghost predicate Valid()
      reads this, net
    {
      && net.Holds(tcpSockfd) && net.outbound[tcpSockfd] == Stream(conn.up)
      && conn.down == Down() && conn.got == Messages(log) && screen == Shown(log)
    }

    lemma ValidDown()
      requires Valid()
      ensures net.Holds(tcpSockfd) && conn.down == Down() && screen == Shown(log)
      ensures net.outbound[tcpSockfd] == Stream(conn.up) && conn.got == Messages(log)
    {
    }

    /** The two halves of a request: send it, then read one message into the cleared structure. */
    method Exchange(command: byte, text: string) returns (answer: byte)
      requires net.Holds(tcpSockfd) && |text| + 1 < 0x1_0000
      modifies net`outbound, net`inbound
      ensures net.Holds(tcpSockfd)
      ensures OnlyAt(tcpSockfd, old(net.outbound), net.outbound) && OnlyAt(tcpSockfd, old(net.inbound), net.inbound)
      ensures net.outbound[tcpSockfd] == old(net.outbound[tcpSockfd]) + Frame(TextMessage(command, text))
      ensures var s := old(net.inbound[tcpSockfd]); answer == if s == [] then 0 else s[0]
      ensures Down() == if old(Down()) == [] then [] else old(Down())[1..]
      ensures old(Down()) != [] ==> old(Down())[0].command == answer
    {
      ParseAllNext(net.inbound[tcpSockfd]);
      NextCommand(net.inbound[tcpSockfd]);
      var msg := new TcpMessage(command, |text| + 1, ZeroEnded(text));
      assert msg.Value() == TextMessage(command, text);
      var total := SendEfficient(host, net, tcpSockfd, msg);
      msg := new TcpMessage(0, 0, []);
      var rc := RecvEfficient(host, net, tcpSockfd, msg);
      answer := msg.command;
      ParseAllNext(net.inbound[tcpSockfd]);
    }

    /**
     Send the id and take the next message as the verdict: the subscriber runs exactly when
     it is an acceptance.  Of a verdict cut short the command byte alone decides.
     */
    method CheckConnectionValidity() returns (accepted: bool)
      requires Valid() && |id| + 1 < 0x1_0000 && conn == Dialed(id).(up := [], down := Down())
      modifies net`outbound, net`inbound, this`log, this`conn
      ensures Valid()
      ensures OnlyAt(tcpSockfd, old(net.outbound), net.outbound) && OnlyAt(tcpSockfd, old(net.inbound), net.inbound)
      ensures var s := old(net.inbound[tcpSockfd]); accepted <==> s != [] && s[0] == CONNECT_ACCEPTED
      ensures var dialed := Dialed(id).(down := old(Down()));
              conn == if dialed.down == [] then EofRead(dialed) else VerdictRead(dialed)
      ensures old(net.inbound[tcpSockfd]) == [] ==> !accepted
      ensures old(Down()) != [] || old(net.inbound[tcpSockfd]) == [] ==> (accepted <==> conn.phase.Running?)
    {
      ghost var down := Down();
      var answer := Exchange(CONNECT_REQ, id);
      accepted := answer == CONNECT_ACCEPTED;
      StreamSnoc([], TextMessage(CONNECT_REQ, id));
      conn := conn.(up := [] + [TextMessage(CONNECT_REQ, id)]);
      if down != [] {
        LogSnoc(log, Entry(true, down[0]));
        log := log + [Entry(true, down[0])];
        conn := VerdictRead(conn);
      } else {
        conn := EofRead(conn);
      }
    }

    /** Send a request and take the next message as its answer, whatever it is. */
    method SubscribeUnsubscribeTopic(command: byte, topic: string) returns (confirmed: bool)
      requires Valid() && Sendable(Request(command, topic))
      modifies net`outbound, net`inbound, this`log, this`conn
      ensures Valid()
      ensures OnlyAt(tcpSockfd, old(net.outbound), net.outbound) && OnlyAt(tcpSockfd, old(net.inbound), net.inbound)
      ensures conn == Received(Asking(old(conn), command, topic))
      ensures var s := old(net.inbound[tcpSockfd]);
              confirmed <==> s != [] && s[0] == if command == SUBSCRIBE_REQ then SUBSCRIBE_SUCC else UNSUBSCRIBE_SUCC
      ensures old(net.inbound[tcpSockfd]) == [] ==> !confirmed
      ensures log == old(log) + if old(Down()) == [] then [] else [Entry(true, old(Down())[0])]
    {
      ghost var down := Down();
      var answer := Exchange(command, topic);
      confirmed := answer == if command == SUBSCRIBE_REQ then SUBSCRIBE_SUCC else UNSUBSCRIBE_SUCC;
      StreamSnoc(conn.up, TextMessage(command, topic));
      conn := Received(Asking(conn, command, topic));
      if down != [] {
        LogSnoc(log, Entry(true, down[0]));
        log := log + [Entry(true, down[0])];
      }
    }

    /** One receive into a cleared message structure. */
    method ReceiveNext() returns (rc: nat, command: byte, payload: seq<byte>)
      requires net.Holds(tcpSockfd)
      modifies net`inbound
      ensures net.Holds(tcpSockfd) && OnlyAt(tcpSockfd, old(net.inbound), net.inbound)
      ensures rc == 0 <==> old(Down()) == []
      ensures if rc == 0 then Down() == []
              else Down() == old(Down())[1..] && command == old(Down())[0].command && payload == old(Down())[0].payload
    {
      ParseAllNext(net.inbound[tcpSockfd]);
      var msg := new TcpMessage(0, 0, []);
      rc := RecvEfficient(host, net, tcpSockfd, msg);
      ParseAllNext(net.inbound[tcpSockfd]);
      command, payload := msg.command, msg.payload;
    }

    /**
     Read one message; a publication is printed, anything else is not, and the end of the
     stream ends the run.
     */
    method ManageTcpData() returns (closed: bool)
      requires Valid()
      modifies net`inbound, this`screen, this`log, this`conn
      ensures Valid()
      ensures OnlyAt(tcpSockfd, old(net.outbound), net.outbound) && OnlyAt(tcpSockfd, old(net.inbound), net.inbound)
      ensures conn == Received(old(conn)) && (closed <==> old(Down()) == [])
      ensures Down() == if closed then [] else old(Down())[1..]
      ensures log == old(log) + if closed then [] else [Entry(false, old(Down())[0])]
      ensures screen == old(screen) + if closed || old(Down())[0].command != MSG_FROM_UDP then []
                                      else [CString(old(Down())[0].payload)]
    {
      ghost var down := Down();
      hide ParseAll, Parse, Stream, Shown, Messages, CString;
      var rc, command, payload := ReceiveNext();
      conn := Received(conn);
      if rc == 0 { return true; }
      LogSnoc(log, Entry(false, down[0]));
      log := log + [Entry(false, down[0])];
      if command == MSG_FROM_UDP {
        screen := screen + [CString(payload)];
      }
      closed := false;
    }

    /** One line from stdin; only `exit` ends the run. */
    method ManageStdinData(typed: Typed) returns (exit: bool)
      requires Valid() && Sendable(typed)
      modifies net`outbound, net`inbound, this`log, this`conn
      ensures Valid()
      ensures OnlyAt(tcpSockfd, old(net.outbound), net.outbound) && OnlyAt(tcpSockfd, old(net.inbound), net.inbound)
      ensures conn == AfterLine(old(conn), typed) && (exit <==> typed.Exit?)
      ensures log == old(log) + if typed.Request? && old(Down()) != [] then [Entry(true, old(Down())[0])] else []
      ensures Down() == if typed.Request? && old(Down()) != [] then old(Down())[1..] else old(Down())
    {
      hide ParseAll, Stream, Shown, Messages;
      exit := typed.Exit?;
      if typed.Exit? {
        conn := Quitting(conn);
      } else if typed.Request? {
        var confirmed := SubscribeUnsubscribeTopic(typed.command, typed.topic);
      }
    }

    /** One iteration of the main loop. */
    method Serve(ready: Ready) returns (ended: bool)
      requires Valid() && Sendable(ready.typed) && conn.phase.Running?
      modifies net`outbound, net`inbound, this`screen, this`log, this`conn
      ensures Valid()
      ensures OnlyAt(tcpSockfd, old(net.outbound), net.outbound) && OnlyAt(tcpSockfd, old(net.inbound), net.inbound)
      ensures old(log) <= log
      ensures conn == AfterPoll(old(conn), ready) && (ended <==> !conn.phase.Running?)
      ensures ready.typed.Exit? ==> ended
      ensures log == old(log) + PollLog(old(Down()), ready)
      ensures Down() == old(Down())[|PollLog(old(Down()), ready)|..]
    {
      hide ParseAll, Parse, Stream, Shown, Messages, Valid, AfterLine, AfterPoll, Received;
      LineFacts(conn, ready);
      ended := ManageStdinData(ready.typed);
      if ended || !ready.socket { return; }
      ValidDown();
      ghost var rest := Down();
      ended := ManageTcpData();
      assert !ended ==> rest[1..] == old(Down())[|PollLog(old(Down()), ready)|..];
    }

    /**
     The main loop over what each poll reports; `polled` counts the polls that were handled.
     The typed requests go out in order, every message is read once and in order, and exactly
     the publications not taken for an answer reach the screen.
     */
    method Run(polls: seq<Ready>) returns (ended: bool, ghost polled: nat)
      requires Valid() && AllSendable(polls) && conn.phase.Running?
      modifies net`outbound, net`inbound, this`screen, this`log, this`conn
      ensures Valid()
      ensures OnlyAt(tcpSockfd, old(net.outbound), net.outbound) && OnlyAt(tcpSockfd, old(net.inbound), net.inbound)
      ensures polled <= |polls| && (ended <==> !conn.phase.Running?) && (!ended ==> polled == |polls|)
      ensures forall k :: 0 <= k < polled - 1 ==> !polls[k].typed.Exit?
      ensures conn == AfterPolls(old(conn), polls[..polled])
      ensures log == old(log) + PollsLog(old(Down()), polls[..polled])
      ensures net.outbound[tcpSockfd] == Stream(old(conn).up + TypedMessages(polls[..polled]))
      ensures Messages(log) + Down() == old(Messages(log) + Down()) && old(log) <= log && screen == Shown(log)
    {
      hide ParseAll, Stream, Shown, Messages, Valid, AfterPoll, TypedMessages, PollLog, Down;
      ValidDown();
      ended, polled := false, 0;
      ghost var conn0, log0, down0 := conn, log, Down();
      for i := 0 to |polls|
        invariant Valid() && old(log) <= log && conn.phase.Running?
        invariant OnlyAt(tcpSockfd, old(net.outbound), net.outbound) && OnlyAt(tcpSockfd, old(net.inbound), net.inbound)
        invariant polled == i && conn == AfterPolls(conn0, polls[..i])
        invariant log == log0 + PollsLog(down0, polls[..i]) && Down() == down0[|PollsLog(down0, polls[..i])|..]
        invariant forall k :: 0 <= k < i ==> !polls[k].typed.Exit?
      {
        assert polls[..i + 1][..i] == polls[..i];
        ended := Serve(polls[i]);
        polled := i + 1;
        if ended { break; }
      }
      ValidDown();
      PollsAccounted(conn0, polls[..polled]);
    }

    /** The destructor: closing the socket is what the server sees as the end of the stream. */
    method Close()
      modifies net`open
      ensures net.open == old(net.open) - {tcpSockfd}
    {
      net.Close(tcpSockfd);
    }
  }
}
