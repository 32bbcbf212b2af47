/**
 What arrives in the distributed system.  On every open connection the messages read and
 those on their way are exactly the messages that the history of its client calls for since
 it connected, and the requests consumed are exactly those in that history.
 */
module Channels {
  import opened Wire
  import opened UdpPayload
  import opened ServerModel
  import opened ClientHistory
  import opened ServerRound
  import opened ServerInput
  import opened Distributed

  /** All that the server has written to a connection so far. */
  function Log(conn: Conn): seq<Message> { conn.got + conn.down }

  /** The log and the consumed requests of an open connection are those of its history. */
  ghost predicate Recorded(conn: Conn, acts: seq<Act>) {
    Log(conn) == PresentMessages(acts) && conn.served == PresentRequests(acts)
  }

  /** What an action writes to the descriptor of a connection. */
  ghost function WrittenTo(s: System, a: Action, fd: int): seq<Message> {
    if EventOf(s, a) == [] then []
    else
      var sends := Step(s.server, EventOf(s, a)[0]).sends;
      if fd in sends then [sends[fd]] else []
  }

  /** The requests of a connection that an action consumes. */
  ghost function ConsumedBy(s: System, a: Action, c: nat): seq<Act> {
    if a == ServerServe(c) && c in s.conns && s.conns[c].up != [] then [RequestOf(s.conns[c].up[0])] else []
  }

  // ----- one action, seen on an open connection

  /** The connection is open and stays open. */
  ghost predicate StaysOpen(s: System, a: Action, c: nat)
    requires Can(s, a)
  {
    && c in s.conns && s.conns[c].link.Attached?
    && c in Do(s, a).conns && Do(s, a).conns[c].link == s.conns[c].link && Do(s, a).conns[c].id == s.conns[c].id
  }

  ghost predicate LogGrows(s: System, a: Action, c: nat)
    requires Can(s, a) && StaysOpen(s, a, c)
  {
    && Log(Do(s, a).conns[c]) == Log(s.conns[c]) + WrittenTo(s, a, s.conns[c].link.fd)
    && Do(s, a).conns[c].served == s.conns[c].served + ConsumedBy(s, a, c)
  }

  lemma LocalGrows(s: System, a: Action, c: nat)
    requires Can(s, a) && StaysOpen(s, a, c)
    requires a.Dial? || a.ReadVerdict? || a.Ask? || a.Read? || a.ReadEof? || a.Quit?
    ensures LogGrows(s, a, c)
  {
    var conn := s.conns[c];
    assert Log(conn) + [] == Log(conn) && conn.served + [] == conn.served;
    if a == ReadVerdict(c) || a == Read(c) {
      MovedHead(conn.got, conn.down);
    }
    hide FromDatagram;
  }

  lemma RepliesOnly(st: ServerState, ev: Event)
    ensures ev.Requested? || ev.Accepted? ==> Step(st, ev).sends.Keys <= {ev.fd}
    ensures ev.Closed? ==> Step(st, ev).sends.Keys == {}
  {
  }

  /** The reply to a request goes to its own connection. */
  lemma ServeGrows(s: System, d: nat, c: nat)
    requires LinksDistinct(s.conns) && Can(s, ServerServe(d)) && StaysOpen(s, ServerServe(d), c)
    ensures LogGrows(s, ServerServe(d), c)
  {
    var a := ServerServe(d);
    var conn := s.conns[c];
    var written := WrittenTo(s, a, conn.link.fd);
    RepliesOnly(s.server, EventOf(s, a)[0]);
    hide Step;
    if c == d {
      assert conn.got + (conn.down + written) == conn.got + conn.down + written;
    } else {
      assert conn.link != s.conns[d].link;
      assert Log(conn) + [] == Log(conn) && conn.served + [] == conn.served;
    }
  }

  /** Nothing written to the connection, nothing consumed from it. */
  lemma Unmoved(s: System, a: Action, c: nat)
    requires Can(s, a) && StaysOpen(s, a, c) && Do(s, a).conns[c] == s.conns[c]
    requires WrittenTo(s, a, s.conns[c].link.fd) == [] && ConsumedBy(s, a, c) == []
    ensures LogGrows(s, a, c)
  {
    hide Do, Can, WrittenTo, ConsumedBy;
    assert Log(s.conns[c]) + [] == Log(s.conns[c]) && s.conns[c].served + [] == s.conns[c].served;
  }

  lemma AcceptElsewhere(s: System, d: nat, fd: int, c: nat)
    requires Can(s, ServerAccept(d, fd)) && StaysOpen(s, ServerAccept(d, fd), c) && s.conns[c].link.fd != fd
    ensures Do(s, ServerAccept(d, fd)).conns[c] == s.conns[c]
    ensures WrittenTo(s, ServerAccept(d, fd), s.conns[c].link.fd) == []
  {
    RepliesOnly(s.server, EventOf(s, ServerAccept(d, fd))[0]);
    hide Step, Enabled;
  }

  lemma AcceptGrows(s: System, d: nat, fd: int, c: nat)
    requires SysInv(s) && Can(s, ServerAccept(d, fd)) && StaysOpen(s, ServerAccept(d, fd), c)
    ensures LogGrows(s, ServerAccept(d, fd), c)
  {
    FreshForAll(s, fd);
    hide SysInv, Do;
    AcceptElsewhere(s, d, fd, c);
    Unmoved(s, ServerAccept(d, fd), c);
  }

  lemma EofGrows(s: System, d: nat, c: nat)
    requires Can(s, ServerEof(d)) && StaysOpen(s, ServerEof(d), c)
    ensures LogGrows(s, ServerEof(d), c)
  {
    var conn := s.conns[c];
    assert Log(conn) + [] == Log(conn) && conn.served + [] == conn.served;
    RepliesOnly(s.server, EventOf(s, ServerEof(d))[0]);
    hide Step;
  }

  lemma PublishGrows(s: System, topic: string, payload: Payload, c: nat)
    requires Can(s, ServerPublish(topic, payload)) && StaysOpen(s, ServerPublish(topic, payload), c)
    ensures LogGrows(s, ServerPublish(topic, payload), c)
  {
    var conn := s.conns[c];
    var written := WrittenTo(s, ServerPublish(topic, payload), conn.link.fd);
    assert conn.served + [] == conn.served && Log(conn) + [] == Log(conn);
    assert conn.got + (conn.down + written) == conn.got + conn.down + written;
    hide FromDatagram, Recipients;
  }

  lemma ActionGrows(s: System, a: Action, c: nat)
    requires SysInv(s) && Can(s, a) && StaysOpen(s, a, c)
    ensures LogGrows(s, a, c)
  {
    assert LinksDistinct(s.conns);
    hide *;
    match a
    case ServerAccept(d, fd) => AcceptGrows(s, d, fd, c);
    case ServerServe(d) => ServeGrows(s, d, c);
    case ServerEof(d) => EofGrows(s, d, c);
    case ServerPublish(topic, payload) => PublishGrows(s, topic, payload, c);
    case _ => LocalGrows(s, a, c);
  }

  // ----- against the history

  /** What an action is for a client. */
  ghost function ActsBy(s: System, a: Action, id: string): seq<Act> {
    if EventOf(s, a) == [] then [] else ActOf(s.server, EventOf(s, a)[0], id)
  }

  lemma ActsMore(st: ServerState, evs: seq<Event>, e: seq<Event>, id: string)
    requires |e| <= 1
    ensures ActsOf(st, evs + e, id)
            == ActsOf(st, evs, id) + if e == [] then [] else ActOf(Final(st, evs), e[0], id)
  {
    if e == [] {
      assert evs + e == evs && ActsOf(st, evs, id) + [] == ActsOf(st, evs, id);
    } else {
      assert (evs + e)[..|evs|] == evs;
    }
  }

  /** What an event delivers to the client of an open connection is what it writes to its descriptor. */
  lemma DeliveredIsWritten(s: System, a: Action, c: nat)
    requires SysInv(s) && Can(s, a) && StaysOpen(s, a, c) && EventOf(s, a) != []
    ensures Delivered(s.server, EventOf(s, a)[0], s.conns[c].id) == WrittenTo(s, a, s.conns[c].link.fd)
  {
    DoKeepsInv(s, a);
    ActionIsEvents(s, a);
    var next := Do(s, a);
    assert Online(next.server, next.conns[c].id) && Holds(next.server, next.conns[c].id, next.conns[c].link.fd);
    hide SysInv, Step, Do;
  }

  lemma NoRequest(st: ServerState, ev: Event, id: string)
    requires !ev.Requested?
    ensures var acts := ActOf(st, ev, id); acts == [] || !acts[0].Request?
  {
  }

  lemma ServedActs(st: ServerState, ev: Event, id: string)
    ensures ev.Requested? ==>
              ActOf(st, ev, id) == if Holds(st, id, ev.fd) then [Request(ev.command, ev.topic)] else []
  {
  }

  /** The requests that an event is for the client are those consumed from its connection. */
  lemma RequestsConsumed(s: System, a: Action, c: nat)
    requires SysInv(s) && Can(s, a) && c in s.conns && s.conns[c].link.Attached? && EventOf(s, a) != []
    ensures var acts := ActOf(s.server, EventOf(s, a)[0], s.conns[c].id);
            ConsumedBy(s, a, c) == if acts != [] && acts[0].Request? then acts else []
  {
    var ev := EventOf(s, a)[0];
    if a.ServerServe? {
      assert Holds(s.server, s.conns[c].id, s.conns[c].link.fd);
      assert s.conns[a.c].link == s.conns[c].link ==> a.c == c by { assert LinksDistinct(s.conns); }
    } else {
      NoRequest(s.server, ev, s.conns[c].id);
    }
    hide SysInv, Enabled, FromDatagram, Step, CString, ActOf;
    ServedActs(s.server, ev, s.conns[c].id);
  }

  lemma RequestsMore(acts: seq<Act>, a: seq<Act>)
    requires |a| <= 1 && (a == [] || !(a[0].Connect? && !ConnectedAfter(acts)))
    ensures PresentRequests(acts + a) == PresentRequests(acts) + if a != [] && a[0].Request? then a else []
  {
    if a == [] {
      assert acts + a == acts;
    } else {
      assert acts + a == acts + [a[0]] && (acts + [a[0]])[..|acts|] == acts;
      assert [a[0]] == a;
    }
  }

  lemma NothingConsumed(s: System, a: Action, c: nat)
    requires Can(s, a) && EventOf(s, a) == []
    ensures ConsumedBy(s, a, c) == []
  {
    hide Enabled, FromDatagram;
  }

  /** On an open connection the record goes on. */
  lemma RecordGoesOn(s: System, a: Action, c: nat, acts: seq<Act>)
    requires SysInv(s) && Can(s, a) && StaysOpen(s, a, c)
    requires Agrees(s.server, s.conns[c].id, acts) && Recorded(s.conns[c], acts)
    ensures Recorded(Do(s, a).conns[c], acts + ActsBy(s, a, s.conns[c].id))
  {
    var id := s.conns[c].id;
    ActionGrows(s, a, c);
    assert Online(s.server, id) && ConnectedAfter(acts);
    var more := ActsBy(s, a, id);
    if EventOf(s, a) == [] {
      NothingConsumed(s, a, c);
    } else {
      ActionIsEvents(s, a);
      StepRefines(s.server, EventOf(s, a)[0], id, acts);
      DeliveredIsWritten(s, a, c);
      RequestsConsumed(s, a, c);
    }
    assert |more| <= 1 && (more == [] || !(more[0].Connect? && !ConnectedAfter(acts)));
    hide SysInv, Agrees, ActOf, EventOf, Do, Can, Delivered, WrittenTo, ConsumedBy, Reaction;
    PresentMore(acts, more, if more == [] then [] else Reaction(acts, more[0]));
    RequestsMore(acts, more);
  }

  lemma OpenedByAccept(s: System, a: Action, c: nat)
    requires Can(s, a) && c in Do(s, a).conns && Do(s, a).conns[c].link.Attached?
    requires !(c in s.conns && s.conns[c].link.Attached?)
    ensures a.ServerAccept? && a.c == c
  {
    hide FromDatagram, Enabled, Step;
  }

  lemma OpenedConn(s: System, c: nat, fd: int)
    requires SysInv(s) && Can(s, ServerAccept(c, fd)) && Do(s, ServerAccept(c, fd)).conns[c].link.Attached?
    ensures var conn := Do(s, ServerAccept(c, fd)).conns[c];
            && conn.id == s.conns[c].id && !Online(s.server, conn.id)
            && Log(conn) == [Message(CONNECT_ACCEPTED, [])] && conn.served == []
  {
    AcceptConnInv(s, c, fd);
    assert ConnInv(s.conns[c]);
    hide SysInv, Inv;
  }

  /** A connection is opened by being accepted, and then its record begins. */
  lemma RecordBegins(s: System, a: Action, c: nat, acts: seq<Act>)
    requires SysInv(s) && Can(s, a) && c in Do(s, a).conns && Do(s, a).conns[c].link.Attached?
    requires !(c in s.conns && s.conns[c].link.Attached?)
    requires Agrees(s.server, Do(s, a).conns[c].id, acts)
    ensures Recorded(Do(s, a).conns[c], acts + ActsBy(s, a, Do(s, a).conns[c].id))
  {
    OpenedByAccept(s, a, c);
    AcceptConnInv(s, c, a.fd);
    OpenedConn(s, c, a.fd);
    hide SysInv, ConnInv, Can, Do;
    assert (acts + [Connect])[..|acts|] == acts;
  }

  /** An open connection that was open before is the same one. */
  lemma OpenBefore(s: System, a: Action, c: nat)
    requires Can(s, a) && c in s.conns && s.conns[c].link.Attached?
    requires c in Do(s, a).conns && Do(s, a).conns[c].link.Attached?
    ensures StaysOpen(s, a, c)
  {
    hide FromDatagram, Enabled, Step;
  }

  lemma SameId(s: System, a: Action, c: nat)
    requires Can(s, a) && StaysOpen(s, a, c)
    ensures Do(s, a).conns[c].id == s.conns[c].id
  {
  }

  lemma ActsByIs(s: System, a: Action, id: string)
    ensures ActsBy(s, a, id) == if EventOf(s, a) == [] then [] else ActOf(s.server, EventOf(s, a)[0], id)
  {
  }

  /** One more action, with the history that the run before it has made. */
  lemma RecordStep(st: ServerState, evs: seq<Event>, s: System, a: Action, c: nat, id: string)
    requires Prepared(st) && Legal(st, evs) && s.server == Final(st, evs)
    requires SysInv(s) && Can(s, a) && c in Do(s, a).conns && Do(s, a).conns[c].link.Attached?
    requires id == Do(s, a).conns[c].id
    requires c in s.conns && s.conns[c].link.Attached? ==> Recorded(s.conns[c], ActsOf(st, evs, s.conns[c].id))
    ensures Recorded(Do(s, a).conns[c], ActsOf(st, evs + EventOf(s, a), id))
  {
    hide *;
    ActionIsEvents(s, a);
    RunRefines(st, evs, id);
    ActsMore(st, evs, EventOf(s, a), id);
    ActsByIs(s, a, id);
    if c in s.conns && s.conns[c].link.Attached? {
      OpenBefore(s, a, c);
      SameId(s, a, c);
      RecordGoesOn(s, a, c, ActsOf(st, evs, id));
    } else {
      RecordBegins(s, a, c, ActsOf(st, evs, id));
    }
  }

  /**
   Over every run: on every open connection, the messages read followed by those on their way
   are the messages that the history of its client calls for since it connected, and the
   requests consumed are those of that history.
   */
  lemma {:induction false} RunRecorded(states: seq<System>, actions: seq<Action>, n: nat, c: nat)
    requires IsRun(states, actions) && n <= |actions|
    requires c in states[n].conns && states[n].conns[c].link.Attached?
    ensures Recorded(states[n].conns[c],
                     ActsOf(states[0].server, EventsOfRun(states, actions, n), states[n].conns[c].id))
  {
    if n == 0 {
    } else {
      var s, a := states[n - 1], actions[n - 1];
      assert Can(s, a) && states[n] == Do(s, a) && Prepared(states[0].server);
      var evs := EventsOfRun(states, actions, n - 1);
      assert EventsOfRun(states, actions, n) == evs + EventOf(s, a);
      hide *;
      ServerRunsWithin(states, actions, n - 1);
      RunInv(states, actions, n - 1);
      if c in s.conns && s.conns[c].link.Attached? {
        RunRecorded(states, actions, n - 1, c);
      }
      RecordStep(states[0].server, evs, s, a, c, states[n].conns[c].id);
    }
  }

  // ----- the channel and the wire

  /** The bytes that the server has written to an open connection are the frames of its log. */
  lemma LogIsWire(states: seq<System>, actions: seq<Action>, n: nat, c: nat, out: map<int, seq<byte>>)
    requires IsRun(states, actions) && n <= |actions|
    requires c in states[n].conns && states[n].conns[c].link.Attached?
    ensures var conn, now := states[n].conns[c], Traffic(out, states[0].server, EventsOfRun(states, actions, n));
            conn.link.fd in now && now[conn.link.fd] == Stream(Log(conn))
  {
    RunRecorded(states, actions, n, c);
    RunInv(states, actions, n);
    ServerRunsWithin(states, actions, n);
    var conn := states[n].conns[c];
    assert Online(states[n].server, conn.id) && Holds(states[n].server, conn.id, conn.link.fd);
    hide SysInv, Can, Do;
    WireMatchesHistory(states[0].server, out, EventsOfRun(states, actions, n), conn.id);
  }

  // ----- the publications

  /** The publications of a history that the client wanted at the time, since it connected. */
  ghost function PresentHeard(acts: seq<Act>): seq<Message> {
    if acts == [] then []
    else
      var init, last := acts[..|acts| - 1], acts[|acts| - 1];
      if last.Connect? && !ConnectedAfter(init) then []
      else PresentHeard(init) + if last.Publish? && ConnectedAfter(init) && WantedAfter(init, last.topic)
                                then [Message(MSG_FROM_UDP, last.payload)] else []
  }

  lemma PublicationsOfReaction(acts: seq<Act>, act: Act)
    ensures Publications(Reaction(acts, act)) ==
            if act.Publish? && ConnectedAfter(acts) && WantedAfter(acts, act.topic)
            then [Message(MSG_FROM_UDP, act.payload)] else []
  {
    var r := Reaction(acts, act);
    if r != [] {
      assert r[1..] == [];
      assert Publications(r) == (if r[0].command == MSG_FROM_UDP then [r[0]] else []) + Publications([]);
    }
  }

  lemma {:induction false} PresentPublications(acts: seq<Act>)
    ensures Publications(PresentMessages(acts)) == PresentHeard(acts)
  {
    if acts == [] {
    } else {
      var init, last := acts[..|acts| - 1], acts[|acts| - 1];
      PresentPublications(init);
      PublicationsOfReaction(init, last);
      PublicationsConcat(PresentMessages(init), Reaction(init, last));
    }
  }

  /**
   Which publications a subscriber gets: those that its client wanted when they were
   published, from the moment it was accepted on, each once and in order.
   */
  lemma SubscriberHears(states: seq<System>, actions: seq<Action>, n: nat, c: nat)
    requires IsRun(states, actions) && n <= |actions|
    requires c in states[n].conns && states[n].conns[c].link.Attached?
    ensures var acts := ActsOf(states[0].server, EventsOfRun(states, actions, n), states[n].conns[c].id);
            Publications(Log(states[n].conns[c])) == PresentHeard(acts)
  {
    RunRecorded(states, actions, n, c);
    PresentPublications(ActsOf(states[0].server, EventsOfRun(states, actions, n), states[n].conns[c].id));
    hide IsRun, ActsOf;
  }
}
