/**
 Whether the message that a subscriber takes for an answer is the answer.  It waits for the
 next message and does not look at its command, so a publication may be taken instead; then
 the reply comes later, as a stray.  Here is exactly when that happens, over all runs.
 */
module AnswerOrder {
  import opened Wire
  import opened UdpPayload
  import opened Interest
  import opened ServerModel
  import opened ClientHistory
  import opened Distributed

  /** The position of the k-th message of a log that is no publication, or the length of the log. */
  function ReplyAt(log: seq<Message>, k: nat): (i: nat)
    ensures i <= |log|
    decreases |log|
  {
    if log == [] then 0
    else if log[0].command == MSG_FROM_UDP then 1 + ReplyAt(log[1..], k)
    else if k == 0 then 0
    else 1 + ReplyAt(log[1..], k - 1)
  }

  lemma {:induction false} ReplyAtHead(got: seq<Message>, down: seq<Message>, k: nat)
    requires down != []
    ensures ReplyAt(got + down, k) == |got| <==> down[0].command != MSG_FROM_UDP && |Replies(got)| == k
    decreases |got|
  {
    if got == [] {
      assert got + down == down;
    } else {
      assert (got + down)[1..] == got[1..] + down;
      if got[0].command == MSG_FROM_UDP {
        ReplyAtHead(got[1..], down, k);
      } else if k > 0 {
        ReplyAtHead(got[1..], down, k - 1);
      }
    }
  }

  /**
   The next message to be read is the reply to the last request: among the replies to this
   connection, of which the verdict is number 0, it has the number of that request.
   */
  ghost predicate NextIsAnswer(conn: Conn) {
    conn.down != [] && ReplyAt(conn.got + conn.down, |conn.asked|) == |conn.got|
  }

  /** Waiting for an answer, the subscriber takes a publication for it. */
  ghost predicate TakesPublication(s: System, a: Action, c: nat) {
    a == Read(c) && Can(s, a) && s.conns[c].phase.Waiting? && s.conns[c].down[0].command == MSG_FROM_UDP
  }

  /** Not waiting, it reads a reply, which the code calls a big error. */
  ghost predicate ReadsStray(s: System, a: Action, c: nat) {
    a == Read(c) && Can(s, a) && s.conns[c].phase.Running? && s.conns[c].down[0].command != MSG_FROM_UDP
  }

  ghost function Taken(states: seq<System>, actions: seq<Action>, i: nat, c: nat): nat
    requires i <= |actions| < |states|
  {
    if i == 0 then 0
    else Taken(states, actions, i - 1, c) + if TakesPublication(states[i - 1], actions[i - 1], c) then 1 else 0
  }

  ghost function Strays(states: seq<System>, actions: seq<Action>, i: nat, c: nat): nat
    requires i <= |actions| < |states|
  {
    if i == 0 then 0
    else Strays(states, actions, i - 1, c) + if ReadsStray(states[i - 1], actions[i - 1], c) then 1 else 0
  }

  // ----- the balance of a connection

  /** Replies read and publications taken for replies against requests sent and replies read as strays. */
  ghost predicate Balanced(conn: Conn, taken: nat, strays: nat) {
    && (conn.phase.Joining? ==> taken == 0 && strays == 0)
    && (conn.phase.Running? ==> |Replies(conn.got)| + taken == |conn.asked| + 1 + strays)
    && (conn.phase.Waiting? ==> conn.asked != [] && |Replies(conn.got)| + taken == |conn.asked| + strays)
  }

  lemma RepliesSnoc(got: seq<Message>, m: Message)
    ensures Replies(got + [m]) == Replies(got) + if m.command == MSG_FROM_UDP then [] else [m]
  {
    RepliesConcat(got, [m]);
    assert [m][1..] == [];
  }

  /** A running subscriber has a stray before it only when a publication was taken for a reply. */
  lemma StrayOwed(conn: Conn, taken: nat, strays: nat)
    requires ConnInv(conn) && Balanced(conn, taken, strays)
    requires conn.phase.Running? && conn.down != [] && conn.down[0].command != MSG_FROM_UDP
    ensures strays < taken
  {
    assert conn.got + conn.down == conn.got + [conn.down[0]] + conn.down[1..];
    RepliesConcat(conn.got + [conn.down[0]], conn.down[1..]);
    RepliesSnoc(conn.got, conn.down[0]);
  }

  /** Only its own actions change what a subscriber has read and asked. */
  lemma OthersKeepBooks(s: System, a: Action, c: nat)
    requires Can(s, a) && c in s.conns
    requires a != ReadVerdict(c) && a != Read(c) && a != ReadEof(c) && a != Quit(c) && !(a.Ask? && a.c == c)
    ensures c in Do(s, a).conns
    ensures var conn, next := s.conns[c], Do(s, a).conns[c];
            next.phase == conn.phase && next.got == conn.got && next.asked == conn.asked
  {
  }

  lemma BalancedStep(s: System, a: Action, c: nat, taken: nat, strays: nat)
    requires SysInv(s) && Can(s, a) && c in Do(s, a).conns && strays <= taken
    requires if c in s.conns then Balanced(s.conns[c], taken, strays) else taken == 0 && strays == 0
    ensures var t := taken + if TakesPublication(s, a, c) then 1 else 0;
            var r := strays + if ReadsStray(s, a, c) then 1 else 0;
            Balanced(Do(s, a).conns[c], t, r) && r <= t
  {
    if c !in s.conns {
      assert a.Dial? && a.c == c;
    } else {
      var conn := s.conns[c];
      assert ConnInv(conn);
      if a == ReadVerdict(c) || a == Read(c) {
        RepliesSnoc(conn.got, conn.down[0]);
        if ReadsStray(s, a, c) { StrayOwed(conn, taken, strays); }
      } else if a == ReadEof(c) {
        NeverCutOff(s, c);
      } else if !(a == Quit(c) || (a.Ask? && a.c == c)) {
        OthersKeepBooks(s, a, c);
      }
    }
  }

  lemma ConnsStay(s: System, a: Action, c: nat)
    requires Can(s, a) && c !in Do(s, a).conns
    ensures c !in s.conns
  {
  }

  /**
   Over every run: a running subscriber has read one reply for each request and the verdict,
   less those for which it took a publication, plus those it has read since as strays.
   */
  lemma {:induction false} AnswersBalance(states: seq<System>, actions: seq<Action>, i: nat, c: nat)
    requires IsRun(states, actions) && i < |states|
    ensures Strays(states, actions, i, c) <= Taken(states, actions, i, c)
    ensures if c in states[i].conns
            then Balanced(states[i].conns[c], Taken(states, actions, i, c), Strays(states, actions, i, c))
            else Taken(states, actions, i, c) == 0
  {
    if i == 0 {
    } else {
      var s, a := states[i - 1], actions[i - 1];
      AnswersBalance(states, actions, i - 1, c);
      RunInv(states, actions, i - 1);
      if c in states[i].conns {
        BalancedStep(s, a, c, Taken(states, actions, i - 1, c), Strays(states, actions, i - 1, c));
      } else {
        ConnsStay(s, a, c);
      }
    }
  }

  // ----- when the answer is the right one

  lemma AnswerPaired(conn: Conn)
    requires ConnInv(conn) && conn.phase.Waiting? && conn.asked != [] && conn.down != []
    requires conn.down[0].command != MSG_FROM_UDP && |Replies(conn.got)| == |conn.asked|
    ensures Answers(conn.asked[|conn.asked| - 1], conn.down[0])
  {
    var n := |conn.asked|;
    var log := conn.got + conn.down;
    assert log == conn.got + [conn.down[0]] + conn.down[1..];
    RepliesConcat(conn.got + [conn.down[0]], conn.down[1..]);
    RepliesSnoc(conn.got, conn.down[0]);
    assert Replies(log)[n] == conn.down[0];
    assert Paired(conn.served, Replies(log));
    assert |conn.asked| == |conn.served| + |conn.up|;
    assert conn.asked == conn.served;
    assert Answers(conn.served[n - 1], Replies(log)[n - 1 + 1]);
  }

  /**
   The message taken for an answer is the reply to the pending request exactly when it is no
   publication and every reply missed before has been read as a stray.
   */
  lemma RightAnswerExactly(states: seq<System>, actions: seq<Action>, i: nat, c: nat)
    requires IsRun(states, actions) && i < |states|
    requires c in states[i].conns && states[i].conns[c].phase.Waiting? && states[i].conns[c].down != []
    ensures var conn := states[i].conns[c];
            && (NextIsAnswer(conn) <==>
                conn.down[0].command != MSG_FROM_UDP
                && Taken(states, actions, i, c) == Strays(states, actions, i, c))
            && (NextIsAnswer(conn) ==>
                conn.asked != [] && Answers(conn.asked[|conn.asked| - 1], conn.down[0]))
  {
    var conn := states[i].conns[c];
    AnswersBalance(states, actions, i, c);
    ReplyAtHead(conn.got, conn.down, |conn.asked|);
    RunInv(states, actions, i);
    assert ConnInv(conn);
    if NextIsAnswer(conn) { AnswerPaired(conn); }
  }

  lemma {:induction false} NoneTaken(states: seq<System>, actions: seq<Action>, i: nat, c: nat)
    requires i <= |actions| < |states|
    requires forall j :: 0 <= j < i ==> !TakesPublication(states[j], actions[j], c)
    ensures Taken(states, actions, i, c) == 0
  {
    if i == 0 {
    } else {
      NoneTaken(states, actions, i - 1, c);
    }
  }

  /**
   As long as no publication was taken for an answer: the next one is right exactly when it is
   no publication, which its command byte tells, and no stray is ever read.
   */
  lemma CleanAnswers(states: seq<System>, actions: seq<Action>, i: nat, c: nat)
    requires IsRun(states, actions) && i < |states|
    requires c in states[i].conns && states[i].conns[c].down != []
    requires forall j :: 0 <= j < i ==> !TakesPublication(states[j], actions[j], c)
    ensures var conn := states[i].conns[c];
            && (conn.phase.Waiting? ==> (NextIsAnswer(conn) <==> conn.down[0].command != MSG_FROM_UDP))
            && (conn.phase.Running? ==> conn.down[0].command == MSG_FROM_UDP)
  {
    NoneTaken(states, actions, i, c);
    AnswersBalance(states, actions, i, c);
    var conn := states[i].conns[c];
    if conn.phase.Waiting? {
      RightAnswerExactly(states, actions, i, c);
    }
    if conn.phase.Running? && conn.down[0].command != MSG_FROM_UDP {
      RunInv(states, actions, i);
      StrayOwed(conn, 0, 0);
    }
  }

  lemma RequestPending(s: System, c: nat, taken: nat, strays: nat)
    requires SysInv(s) && c in s.conns && s.conns[c].phase.Waiting?
    requires Balanced(s.conns[c], taken, strays) && strays <= taken
    ensures Can(s, Read(c)) || Can(s, ServerServe(c))
  {
    var conn := s.conns[c];
    assert ConnInv(conn);
    hide SysInv, Enabled, Step;
    if conn.down == [] {
      assert conn.got + conn.down == conn.got;
      assert |conn.asked| == |conn.served| + |conn.up|;
    }
  }

  /** No deadlock: a subscriber that waits can read, or the server has its request before it. */
  lemma WaitingProgresses(states: seq<System>, actions: seq<Action>, i: nat, c: nat)
    requires IsRun(states, actions) && i < |states|
    requires c in states[i].conns && states[i].conns[c].phase.Waiting?
    ensures Can(states[i], Read(c)) || Can(states[i], ServerServe(c))
  {
    assert i <= |actions| < |states|;
    hide *;
    AnswersBalance(states, actions, i, c);
    RunInv(states, actions, i);
    RequestPending(states[i], c, Taken(states, actions, i, c), Strays(states, actions, i, c));
  }

  // ----- publications overtake replies

  lemma AskedConn(s: System, c: nat, command: byte, topic: string)
    requires Can(s, Ask(c, command, topic))
    ensures var asked := Do(s, Ask(c, command, topic));
            && asked.server == s.server && c in asked.conns
            && asked.conns[c] == Asking(s.conns[c], command, topic)
  {
  }

  lemma PublishRoutes(s: System, c: nat, topic: string, payload: Payload)
    requires c in s.conns && Can(s, ServerPublish(topic, payload))
    ensures c in Do(s, ServerPublish(topic, payload)).conns
    ensures Do(s, ServerPublish(topic, payload)).conns[c]
            == Routed(s.conns[c], PublishStep(s.server, topic, payload).sends)
  {
    hide FromDatagram;
  }

  lemma RoutedTo(st: ServerState, conn: Conn, topic: string, payload: Payload)
    requires Inv(st) && conn.link.Attached? && Online(st, conn.id) && Holds(st, conn.id, conn.link.fd)
    ensures Routed(conn, PublishStep(st, topic, payload).sends) ==
            if Interested(st.clients[conn.id].topics, topic)
            then conn.(down := conn.down + [Message(MSG_FROM_UDP, payload)]) else conn
  {
    RecipientsByFd(st, topic);
    hide Inv, Interested, Recipients;
  }

  /** The channels after a publication: one more message for whoever wants it. */
  lemma PublishedTo(s: System, c: nat, topic: string, payload: Payload)
    requires SysInv(s) && c in s.conns && s.conns[c].link.Attached? && Can(s, ServerPublish(topic, payload))
    ensures s.conns[c].id in s.server.clients
    ensures c in Do(s, ServerPublish(topic, payload)).conns
    ensures Do(s, ServerPublish(topic, payload)).conns[c] ==
            if Interested(s.server.clients[s.conns[c].id].topics, topic)
            then s.conns[c].(down := s.conns[c].down + [Message(MSG_FROM_UDP, payload)]) else s.conns[c]
  {
    assert Inv(s.server) && Online(s.server, s.conns[c].id) && Holds(s.server, s.conns[c].id, s.conns[c].link.fd);
    assert s.conns[c].id in s.server.clients;
    hide *;
    PublishRoutes(s, c, topic, payload);
    RoutedTo(s.server, s.conns[c], topic, payload);
  }

  /** The server may publish this now, and the subscriber may take it for its answer. */
  ghost predicate Overtakes(s: System, c: nat, topic: string, payload: Payload) {
    Can(s, ServerPublish(topic, payload)) && TakesPublication(Do(s, ServerPublish(topic, payload)), Read(c), c)
  }

  // ----- all topics in play are topics of datagrams

  ghost predicate ServerTopicsFit(server: ServerState) {
    forall id, key :: id in server.clients && key in server.clients[id].topics ==> Publishable(key)
  }

  ghost predicate AskedTopicsFit(conns: map<nat, Conn>) {
    forall c, act :: c in conns && act in conns[c].asked ==> act.Request? && Publishable(act.topic)
  }

  ghost predicate TopicsFit(s: System) { ServerTopicsFit(s.server) && AskedTopicsFit(s.conns) }

  lemma AskedFits(s: System, a: Action)
    requires Can(s, a) && AskedTopicsFit(s.conns)
    ensures AskedTopicsFit(Do(s, a).conns)
  {
    hide Step, FromDatagram, Enabled;
  }

  lemma RequestFits(s: System, c: nat)
    requires SysInv(s) && Can(s, ServerServe(c)) && AskedTopicsFit(s.conns)
    ensures Publishable(CString(s.conns[c].up[0].payload))
  {
    var conn := s.conns[c];
    AttachedServes(conn);
    assert RequestOf(conn.up[0]) in conn.asked;
  }

  lemma ServerFits(st: ServerState, ev: Event)
    requires ServerTopicsFit(st) && (ev.Requested? ==> Publishable(ev.topic))
    ensures ServerTopicsFit(Step(st, ev).state)
  {
  }

  lemma {:induction false} RunTopicsFit(states: seq<System>, actions: seq<Action>, i: nat)
    requires IsRun(states, actions) && i < |states|
    ensures TopicsFit(states[i])
  {
    if i == 0 {
    } else {
      var s, a := states[i - 1], actions[i - 1];
      RunTopicsFit(states, actions, i - 1);
      RunInv(states, actions, i - 1);
      AskedFits(s, a);
      if a.ServerServe? { RequestFits(s, a.c); }
      ActionIsEvents(s, a);
      if EventOf(s, a) != [] { ServerFits(s.server, EventOf(s, a)[0]); }
      hide SysInv, ServerTopicsFit, AskedTopicsFit, Step, Enabled, FromDatagram;
    }
  }

  lemma CanPublish(s: System, topic: string, payload: Payload)
    ensures FromDatagram(topic, payload) ==> Can(s, ServerPublish(topic, payload))
  {
  }

  lemma OvertakesIff(s: System, c: nat, topic: string, payload: Payload)
    requires c in s.conns && s.conns[c].phase.Waiting? && s.conns[c].down == []
    requires Can(s, ServerPublish(topic, payload)) && c in Do(s, ServerPublish(topic, payload)).conns
    requires var conn := Do(s, ServerPublish(topic, payload)).conns[c];
             conn == s.conns[c] || conn == s.conns[c].(down := s.conns[c].down + [Message(MSG_FROM_UDP, payload)])
    ensures Overtakes(s, c, topic, payload) <==> Do(s, ServerPublish(topic, payload)).conns[c] != s.conns[c]
  {
    hide Do, FromDatagram;
  }

  /** Right after asking, with nothing under way to the subscriber. */
  lemma AskedFirst(s: System, c: nat, command: byte, topic: string)
    requires SysInv(s) && Can(s, Ask(c, command, topic)) && s.conns[c].down == []
    ensures var asked := Do(s, Ask(c, command, topic));
            && SysInv(asked) && asked.server == s.server && c in asked.conns && asked.conns[c].id == s.conns[c].id
            && asked.conns[c].phase.Waiting? && asked.conns[c].down == [] && asked.conns[c].link.Attached?
            && s.conns[c].id in s.server.clients
  {
    DoKeepsInv(s, Ask(c, command, topic));
    assert s.conns[c].link.Attached? by { assert ConnInv(s.conns[c]); }
    assert Online(s.server, s.conns[c].id);
    AskedConn(s, c, command, topic);
    hide SysInv, Do;
  }

  lemma OvertakenBy(s: System, c: nat, command: byte, topic: string, published: string, payload: Payload)
    requires SysInv(s) && Can(s, Ask(c, command, topic)) && s.conns[c].down == []
    ensures s.conns[c].id in s.server.clients
    ensures Overtakes(Do(s, Ask(c, command, topic)), c, published, payload)
            <==> FromDatagram(published, payload) && Interested(s.server.clients[s.conns[c].id].topics, published)
  {
    var asked := Do(s, Ask(c, command, topic));
    AskedFirst(s, c, command, topic);
    if FromDatagram(published, payload) {
      hide *;
      CanPublish(asked, published, payload);
      PublishedTo(asked, c, published, payload);
      OvertakesIff(asked, c, published, payload);
    } else {
      hide SysInv, FromDatagram, Do;
    }
  }

  /**
   In every reachable state, a running subscriber that has read all it was sent and asks
   something: a publication can be taken for the answer exactly when it has a subscription.
   */
  lemma OvertakenExactly(states: seq<System>, actions: seq<Action>, i: nat, c: nat, command: byte, topic: string)
    requires IsRun(states, actions) && i < |states|
    requires Can(states[i], Ask(c, command, topic)) && states[i].conns[c].down == []
    ensures var s := states[i];
            && s.conns[c].id in s.server.clients
            && ((exists published, payload :: Overtakes(Do(s, Ask(c, command, topic)), c, published, payload))
                <==> s.server.clients[s.conns[c].id].topics != map[])
  {
    var s := states[i];
    RunInv(states, actions, i);
    RunTopicsFit(states, actions, i);
    OvertakenBy(s, c, command, topic, "", []);
    var topics := s.server.clients[s.conns[c].id].topics;
    if topics != map[] {
      var key :| key in topics;
      assert Publishable(key);
      PublishableExactly(key);
      var payload :| FromDatagram(key, payload);
      OvertakenBy(s, c, command, topic, key, payload);
    }
    hide SysInv, IsRun, Can, Overtakes, FromDatagram, TopicsFit;
    if published, payload :| Overtakes(Do(s, Ask(c, command, topic)), c, published, payload) {
      OvertakenBy(s, c, command, topic, published, payload);
    }
  }

  // ----- a run in which the answer is wrong

  /** One more action at the end of a run. */
  lemma RunOn(states: seq<System>, actions: seq<Action>, a: Action)
    returns (more: seq<System>, moreActions: seq<Action>)
    requires IsRun(states, actions) && Can(states[|actions|], a)
    ensures IsRun(more, moreActions) && |more| == |moreActions| + 1 && moreActions == actions + [a]
    ensures more[|moreActions|] == Do(states[|actions|], a) && SysInv(more[|moreActions|])
  {
    more, moreActions := states + [Do(states[|actions|], a)], actions + [a];
    RunInv(more, moreActions, |moreActions|);
  }

  ghost predicate Subscribed(s: System, topics: set<string>) {
    0 in s.conns && s.conns[0].id in s.server.clients && s.server.clients[s.conns[0].id].topics.Keys == topics
  }

  /** Subscriber 0 runs, with nothing under way in either direction, and has these subscriptions. */
  ghost predicate Settled(s: System, topics: set<string>) {
    && SysInv(s) && 0 in s.conns
    && s.conns[0].phase.Running? && s.conns[0].up == [] && s.conns[0].down == []
    && Subscribed(s, topics)
  }

  lemma DialedAtStart(s0: System, id: string)
    requires Start(s0) && Shippable(id)
    ensures Can(s0, Dial(0, id))
    ensures var s := Do(s0, Dial(0, id));
            s.server == s0.server && 0 in s.conns && s.conns[0] == Dialed(id)
  {
  }

  lemma AcceptedFirst(s: System, id: string, fd: int)
    requires SysInv(s) && 0 in s.conns && Shippable(id) && s.conns[0] == Dialed(id) && s.server.clients == map[]
    requires 0 <= fd && fd !in Fds(s.server.pollFds)
    ensures Can(s, ServerAccept(0, fd))
    ensures var after := Do(s, ServerAccept(0, fd));
            && 0 in after.conns && after.conns[0].phase.Joining? && after.conns[0].up == []
            && after.conns[0].down == [Message(CONNECT_ACCEPTED, [])] && Subscribed(after, {})
  {
    AcceptConnInv(s, 0, fd);
  }

  lemma VerdictReadFirst(s: System)
    requires SysInv(s) && 0 in s.conns && s.conns[0].phase.Joining? && s.conns[0].up == []
    requires s.conns[0].down == [Message(CONNECT_ACCEPTED, [])] && Subscribed(s, {})
    ensures Can(s, ReadVerdict(0))
    ensures SysInv(Do(s, ReadVerdict(0))) ==> Settled(Do(s, ReadVerdict(0)), {})
  {
    hide SysInv;
  }

  /** The first subscriber of a server is accepted. */
  lemma Admission(s0: System, id: string, fd: int) returns (states: seq<System>, actions: seq<Action>)
    requires Start(s0) && Shippable(id) && 0 <= fd && fd !in Fds(s0.server.pollFds)
    ensures IsRun(states, actions) && |states| == |actions| + 1 && Settled(states[|actions|], {})
  {
    states, actions := [s0], [];
    assert IsRun(states, actions) && s0.server.clients == map[];
    hide *;
    DialedAtStart(s0, id);
    states, actions := RunOn(states, actions, Dial(0, id));
    AcceptedFirst(states[|actions|], id, fd);
    states, actions := RunOn(states, actions, ServerAccept(0, fd));
    VerdictReadFirst(states[|actions|]);
    states, actions := RunOn(states, actions, ReadVerdict(0));
  }

  /** A subscriber that has just asked. */
  ghost predicate Pending(s: System, command: byte, topic: string, topics: set<string>) {
    && SysInv(s) && 0 in s.conns && |topic| + 1 < 0x1_0000
    && s.conns[0].phase.Waiting? && s.conns[0].up == [TextMessage(command, topic)] && s.conns[0].down == []
    && Subscribed(s, topics)
  }

  lemma AsksSettled(s: System, command: byte, topic: string, topics: set<string>)
    requires Settled(s, topics) && Publishable(topic) && (command == SUBSCRIBE_REQ || command == UNSUBSCRIBE_REQ)
    ensures Can(s, Ask(0, command, topic)) && Pending(Do(s, Ask(0, command, topic)), command, topic, topics)
  {
    AskedConn(s, 0, command, topic);
    DoKeepsInv(s, Ask(0, command, topic));
    hide SysInv, Do;
  }

  lemma ServedFirst(s: System, topic: string)
    requires Pending(s, SUBSCRIBE_REQ, topic, {}) && Publishable(topic)
    ensures Can(s, ServerServe(0))
    ensures var after := Do(s, ServerServe(0));
            && 0 in after.conns && after.conns[0].phase.Waiting? && after.conns[0].up == []
            && after.conns[0].down == [Message(SUBSCRIBE_SUCC, [])] && Subscribed(after, {topic})
  {
    CStringOfZeroEnded(topic);
    assert s.conns[0].link.Attached? by { assert ConnInv(s.conns[0]); }
    LinkedFd(s, 0);
    hide SysInv;
  }

  lemma AnswerReadFirst(s: System, topic: string)
    requires SysInv(s) && 0 in s.conns && s.conns[0].phase.Waiting? && s.conns[0].up == []
    requires s.conns[0].down == [Message(SUBSCRIBE_SUCC, [])] && Subscribed(s, {topic})
    ensures Can(s, Read(0))
    ensures SysInv(Do(s, Read(0))) ==> Settled(Do(s, Read(0)), {topic})
  {
    hide SysInv;
  }

  lemma TopicInterests(s: System, topic: string)
    requires Subscribed(s, {topic})
    ensures Interested(s.server.clients[s.conns[0].id].topics, topic)
  {
    assert topic in s.server.clients[s.conns[0].id].topics.Keys;
  }

  lemma TakenIsNoAnswer(s: System, c: nat)
    requires TakesPublication(s, Read(c), c)
    ensures c in s.conns && !NextIsAnswer(s.conns[c])
  {
    hide ReplyAt, Replies;
    var conn := s.conns[c];
    ReplyAtHead(conn.got, conn.down, |conn.asked|);
  }

  lemma AskedLast(s: System, c: nat, command: byte, topic: string, published: string, payload: Payload)
    requires Can(s, Ask(c, command, topic))
    requires Can(Do(s, Ask(c, command, topic)), ServerPublish(published, payload))
    ensures var after := Do(Do(s, Ask(c, command, topic)), ServerPublish(published, payload));
            && c in after.conns && after.conns[c].asked != []
            && after.conns[c].asked[|after.conns[c].asked| - 1] == Request(command, topic)
  {
    AskedConn(s, c, command, topic);
    hide Do, FromDatagram;
    OthersKeepBooks(Do(s, Ask(c, command, topic)), ServerPublish(published, payload), c);
  }

  lemma PublishedFirst(s: System, topic: string, payload: Payload, other: string)
    requires FromDatagram(topic, payload) && Settled(s, {topic}) && Can(s, Ask(0, SUBSCRIBE_REQ, other))
    ensures var asked := Do(s, Ask(0, SUBSCRIBE_REQ, other));
            && Can(asked, ServerPublish(topic, payload))
            && var after := Do(asked, ServerPublish(topic, payload));
            && TakesPublication(after, Read(0), 0) && !NextIsAnswer(after.conns[0])
            && after.conns[0].asked != []
            && after.conns[0].asked[|after.conns[0].asked| - 1] == Request(SUBSCRIBE_REQ, other)
  {
    OvertakenBy(s, 0, SUBSCRIBE_REQ, other, topic, payload);
    TopicInterests(s, topic);
    var after := Do(Do(s, Ask(0, SUBSCRIBE_REQ, other)), ServerPublish(topic, payload));
    assert TakesPublication(after, Read(0), 0);
    hide *;
    TakenIsNoAnswer(after, 0);
    AskedLast(s, 0, SUBSCRIBE_REQ, other, topic, payload);
  }

  /** It subscribes to its first topic, is served and reads the reply. */
  lemma FirstSubscription(states: seq<System>, actions: seq<Action>, topic: string)
    returns (more: seq<System>, moreActions: seq<Action>)
    requires IsRun(states, actions) && |states| == |actions| + 1 && Settled(states[|actions|], {}) && Publishable(topic)
    ensures IsRun(more, moreActions) && |more| == |moreActions| + 1 && Settled(more[|moreActions|], {topic})
  {
    hide *;
    AsksSettled(states[|actions|], SUBSCRIBE_REQ, topic, {});
    more, moreActions := RunOn(states, actions, Ask(0, SUBSCRIBE_REQ, topic));
    ServedFirst(more[|moreActions|], topic);
    more, moreActions := RunOn(more, moreActions, ServerServe(0));
    AnswerReadFirst(more[|moreActions|], topic);
    more, moreActions := RunOn(more, moreActions, Read(0));
  }

  lemma DatagramTopic(sender: Sender, datagram: seq<byte>)
    requires Conforms(datagram) && TypeOf(datagram) <= STRING
    ensures Publishable(TopicOf(datagram)) && FromDatagram(TopicOf(datagram), Publication(sender, datagram))
  {
    PublishableExactly(TopicOf(datagram));
    assert Announces(sender, datagram, TopicOf(datagram), Publication(sender, datagram));
  }

  /**
   The answer can be wrong: whoever subscribes first to one topic and then asks for another
   may take any publication on the first for its answer.
   */
  lemma WrongAnswerRun(s0: System, id: string, fd: int, sender: Sender, datagram: seq<byte>, other: string)
    returns (states: seq<System>, actions: seq<Action>)
    requires Start(s0) && Shippable(id) && 0 <= fd && fd !in Fds(s0.server.pollFds)
    requires Conforms(datagram) && TypeOf(datagram) <= STRING && Publishable(other)
    ensures IsRun(states, actions) && actions != []
    ensures actions[|actions| - 1] == ServerPublish(TopicOf(datagram), Publication(sender, datagram))
    ensures var s := states[|actions|];
            && TakesPublication(s, Read(0), 0) && !NextIsAnswer(s.conns[0])
            && s.conns[0].asked != [] && s.conns[0].asked[|s.conns[0].asked| - 1] == Request(SUBSCRIBE_REQ, other)
  {
    hide *;
    DatagramTopic(sender, datagram);
    var topic, payload := TopicOf(datagram), Publication(sender, datagram);
    states, actions := Admission(s0, id, fd);
    states, actions := FirstSubscription(states, actions, topic);
    var s := states[|actions|];
    AsksSettled(s, SUBSCRIBE_REQ, other, {topic});
    states, actions := RunOn(states, actions, Ask(0, SUBSCRIBE_REQ, other));
    PublishedFirst(s, topic, payload, other);
    states, actions := RunOn(states, actions, ServerPublish(topic, payload));
  }
}
