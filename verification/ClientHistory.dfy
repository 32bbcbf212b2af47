/**
 The server as its clients see it.  Everything a client is sent depends only on its own
 connects, disconnects and requests and on the publications, and is defined here directly by
 that history, without clients, descriptors or stored subscriptions.  The server simulates it
 for every client over every run.
 */
module ClientHistory {
  import opened Wire
  import opened Topics
  import opened Matching
  import opened Completeness
  import opened Interest
  import opened ServerModel

  datatype Act =
    | Connect
    | Disconnect
    | Request(command: byte, topic: string)
    | Publish(topic: string, payload: Payload)

  /** The request that the server takes a message for. */
  function RequestOf(m: Message): Act { Request(m.command, CString(m.payload)) }

  function RequestsIn(ms: seq<Message>): seq<Act> {
    seq(|ms|, i requires 0 <= i < |ms| => RequestOf(ms[i]))
  }

  lemma RequestsInConcat(a: seq<Message>, b: seq<Message>)
    ensures RequestsIn(a + b) == RequestsIn(a) + RequestsIn(b)
  {
  }

  // ----- what a history means

  /** The last connect or disconnect is a connect. */
  ghost predicate ConnectedAfter(acts: seq<Act>) {
    if acts == [] then false
    else match acts[|acts| - 1]
      case Connect => true
      case Disconnect => false
      case _ => ConnectedAfter(acts[..|acts| - 1])
  }

  /** The last request about the topic subscribes; connections play no part in it. */
  ghost predicate SubscribedAfter(acts: seq<Act>, topic: string) {
    if acts == [] then false
    else match acts[|acts| - 1]
      case Request(command, t) =>
        if t == topic then command == SUBSCRIBE_REQ else SubscribedAfter(acts[..|acts| - 1], topic)
      case _ => SubscribedAfter(acts[..|acts| - 1], topic)
  }

  /** A connect with no disconnect after it. */
  ghost predicate StillConnected(acts: seq<Act>, i: nat) {
    i < |acts| && acts[i] == Connect && forall j :: i < j < |acts| ==> acts[j] != Disconnect
  }

  /** Connected is who has connected and not disconnected since. */
  lemma {:induction false} ConnectedExactly(acts: seq<Act>)
    ensures ConnectedAfter(acts) <==> exists i: nat :: StillConnected(acts, i)
  {
    if acts == [] {
    } else {
      var n := |acts| - 1;
      ConnectedExactly(acts[..n]);
      if acts[n] == Connect {
        assert StillConnected(acts, n);
      } else if acts[n] != Disconnect {
        forall i: nat ensures StillConnected(acts, i) <==> StillConnected(acts[..n], i) {
          assert i < n ==> acts[..n][i] == acts[i];
          assert forall j :: i < j < n ==> acts[..n][j] == acts[j];
        }
      }
    }
  }

  /** The last request about the topic. */
  ghost predicate LastAbout(acts: seq<Act>, topic: string, i: nat) {
    && i < |acts| && acts[i].Request? && acts[i].topic == topic
    && forall j :: i < j < |acts| && acts[j].Request? ==> acts[j].topic != topic
  }

  /** Subscribed is whose last request about the topic subscribes, however often it came and went. */
  lemma {:induction false} SubscribedExactly(acts: seq<Act>, topic: string)
    ensures SubscribedAfter(acts, topic) <==>
            exists i: nat :: LastAbout(acts, topic, i) && acts[i].command == SUBSCRIBE_REQ
  {
    if acts == [] {
    } else {
      var n := |acts| - 1;
      SubscribedExactly(acts[..n], topic);
      if acts[n].Request? && acts[n].topic == topic {
        assert LastAbout(acts, topic, n);
      } else {
        forall i: nat ensures LastAbout(acts, topic, i) <==> LastAbout(acts[..n], topic, i) {
          assert i < n ==> acts[..n][i] == acts[i];
          assert forall j :: i < j < n ==> acts[..n][j] == acts[j];
        }
      }
    }
  }

  ghost predicate WantedAfter(acts: seq<Act>, topic: string) {
    exists pattern :: SubscribedAfter(acts, pattern)
                      && (pattern == topic || Greedy(Tokenize(pattern), Tokenize(topic)))
  }

  function ReplyTo(command: byte, subscribed: bool): byte {
    if command == SUBSCRIBE_REQ then if subscribed then SUBSCRIBE_FAIL else SUBSCRIBE_SUCC
    else if subscribed then UNSUBSCRIBE_SUCC else UNSUBSCRIBE_FAIL
  }

  /** What the client is sent for one more act: at most one message. */
  ghost function Reaction(acts: seq<Act>, act: Act): seq<Message> {
    match act
    case Connect => if ConnectedAfter(acts) then [] else [Message(CONNECT_ACCEPTED, [])]
    case Disconnect => []
    case Request(command, topic) => [Message(ReplyTo(command, SubscribedAfter(acts, topic)), [])]
    case Publish(topic, payload) =>
      if ConnectedAfter(acts) && WantedAfter(acts, topic) then [Message(MSG_FROM_UDP, payload)] else []
  }

  ghost function Expected(acts: seq<Act>): seq<Message> {
    if acts == [] then []
    else Expected(acts[..|acts| - 1]) + Reaction(acts[..|acts| - 1], acts[|acts| - 1])
  }

  // ----- runs of the server

  ghost function Final(st: ServerState, evs: seq<Event>): ServerState {
    if evs == [] then st
    else Step(Final(st, evs[..|evs| - 1]), evs[|evs| - 1]).state
  }

  ghost predicate Legal(st: ServerState, evs: seq<Event>) {
    evs == [] ||
    (Legal(st, evs[..|evs| - 1]) && Enabled(Final(st, evs[..|evs| - 1]), evs[|evs| - 1]))
  }

  /** The part of an event that concerns one client; descriptors are resolved by their holder. */
  ghost function ActOf(st: ServerState, ev: Event, id: string): seq<Act> {
    match ev
    case Woken(_) => []
    case Accepted(_, other) => if other == id then [Connect] else []
    case Closed(fd) => if Holds(st, id, fd) then [Disconnect] else []
    case Requested(fd, command, topic) => if Holds(st, id, fd) then [Request(command, topic)] else []
    case Published(topic, payload) => [Publish(topic, payload)]
  }

  ghost function ActsOf(st: ServerState, evs: seq<Event>, id: string): seq<Act> {
    if evs == [] then []
    else
      var init := evs[..|evs| - 1];
      ActsOf(st, init, id) + ActOf(Final(st, init), evs[|evs| - 1], id)
  }

  /** What one event writes to the connection of a client. */
  ghost function Delivered(st: ServerState, ev: Event, id: string): seq<Message> {
    var out := Step(st, ev);
    if Online(out.state, id) && out.state.clients[id].currFd in out.sends
    then [out.sends[out.state.clients[id].currFd]] else []
  }

  ghost function Inbox(st: ServerState, evs: seq<Event>, id: string): seq<Message> {
    if evs == [] then []
    else
      var init := evs[..|evs| - 1];
      Inbox(st, init, id) + Delivered(Final(st, init), evs[|evs| - 1], id)
  }

  // ----- the simulation

  ghost predicate HasTopic(st: ServerState, id: string, topic: string) {
    id in st.clients && topic in st.clients[id].topics
  }

  /** The state of the server says about a client what its history says. */
  ghost predicate Agrees(st: ServerState, id: string, acts: seq<Act>) {
    && (Online(st, id) <==> ConnectedAfter(acts))
    && (forall topic :: HasTopic(st, id, topic) <==> SubscribedAfter(acts, topic))
  }

  lemma AgreesOnInterest(st: ServerState, id: string, acts: seq<Act>, topic: string)
    requires Inv(st) && Agrees(st, id, acts) && id in st.clients
    ensures Interested(st.clients[id].topics, topic) <==> WantedAfter(acts, topic)
  {
    var topics := st.clients[id].topics;
    assert forall key :: HasTopic(st, id, key) <==> key in topics;
    if Interested(topics, topic) {
      if topic !in topics {
        var key :| key in topics && Greedy(topics[key], Tokenize(topic));
        assert SubscribedAfter(acts, key);
      } else {
        assert SubscribedAfter(acts, topic);
      }
    }
    if WantedAfter(acts, topic) {
      var pattern :| SubscribedAfter(acts, pattern)
                     && (pattern == topic || Greedy(Tokenize(pattern), Tokenize(topic)));
      assert HasTopic(st, id, pattern);
    }
  }

  lemma FreshFd(st: ServerState, fd: int, id: string)
    requires Inv(st) && fd !in Fds(st.pollFds) && Online(st, id)
    ensures st.clients[id].currFd != fd
  {
    assert st.clients[id].currFd in ConnectedFds(st);
    assert st.pollFds == st.pollFds[..3] + st.pollFds[3..];
    FdsConcat(st.pollFds[..3], st.pollFds[3..]);
  }

  lemma StepAccepted(st: ServerState, fd: int, id': string, id: string, acts: seq<Act>)
    requires Inv(st) && Enabled(st, Accepted(fd, id')) && Agrees(st, id, acts)
    ensures var ev := Accepted(fd, id');
            Agrees(Step(st, ev).state, id, acts + ActOf(st, ev, id))
            && Delivered(st, ev, id) == if id' == id then Reaction(acts, Connect) else []
  {
    var ev := Accepted(fd, id');
    var next := Step(st, ev).state;
    assert forall topic :: HasTopic(next, id, topic) <==> HasTopic(st, id, topic);
    if Online(st, id) {
      FreshFd(st, fd, id);
    }
    if id' == id {
      assert (acts + [Connect])[..|acts|] == acts;
    } else {
      assert acts + [] == acts;
    }
  }

  lemma StepClosed(st: ServerState, fd: int, id: string, acts: seq<Act>)
    requires Inv(st) && Enabled(st, Closed(fd)) && Agrees(st, id, acts)
    ensures var ev := Closed(fd);
            Agrees(Step(st, ev).state, id, acts + ActOf(st, ev, id)) && Delivered(st, ev, id) == []
  {
    HolderExists(st, fd);
    var next := Step(st, Closed(fd)).state;
    assert forall topic :: HasTopic(next, id, topic) <==> HasTopic(st, id, topic);
    if Holds(st, id, fd) {
      assert (acts + [Disconnect])[..|acts|] == acts;
    } else {
      assert acts + [] == acts;
    }
  }

  lemma StepRequested(st: ServerState, fd: int, command: byte, topic: string, id: string,
                      acts: seq<Act>)
    requires Inv(st) && Enabled(st, Requested(fd, command, topic)) && Agrees(st, id, acts)
    ensures var ev := Requested(fd, command, topic);
            Agrees(Step(st, ev).state, id, acts + ActOf(st, ev, id))
            && Delivered(st, ev, id) == if Holds(st, id, fd) then Reaction(acts, Request(command, topic)) else []
  {
    HolderExists(st, fd);
    var ev := Requested(fd, command, topic);
    var next := Step(st, ev).state;
    if Holds(st, id, fd) {
      assert HasTopic(st, id, topic) <==> topic in st.clients[id].topics;
      assert (acts + [Request(command, topic)])[..|acts|] == acts;
      forall t ensures HasTopic(next, id, t) <==> SubscribedAfter(acts + [Request(command, topic)], t) {
        assert HasTopic(st, id, t) <==> SubscribedAfter(acts, t);
      }
    } else {
      assert forall t :: HasTopic(next, id, t) <==> HasTopic(st, id, t);
      assert acts + [] == acts;
      if Online(next, id) { assert Online(st, id) && Online(st, HolderOf(st, fd)); }
    }
  }

  lemma StepPublished(st: ServerState, topic: string, payload: Payload, id: string, acts: seq<Act>)
    requires Inv(st) && Agrees(st, id, acts)
    ensures var ev := Published(topic, payload);
            Agrees(Step(st, ev).state, id, acts + ActOf(st, ev, id))
            && Delivered(st, ev, id) == Reaction(acts, Publish(topic, payload))
  {
    assert (acts + [Publish(topic, payload)])[..|acts|] == acts;
    RecipientsByFd(st, topic);
    if Online(st, id) {
      AgreesOnInterest(st, id, acts, topic);
    }
  }

  lemma StepWoken(st: ServerState, ready: set<int>, id: string, acts: seq<Act>)
    requires Agrees(st, id, acts)
    ensures Agrees(Step(st, Woken(ready)).state, id, acts + []) && Delivered(st, Woken(ready), id) == []
  {
    assert acts + [] == acts;
    assert forall topic :: HasTopic(Step(st, Woken(ready)).state, id, topic) <==> HasTopic(st, id, topic);
  }

  /** One event of the server is at most one act of each client, with the same effect. */
  lemma StepRefines(st: ServerState, ev: Event, id: string, acts: seq<Act>)
    requires Inv(st) && Enabled(st, ev) && Agrees(st, id, acts)
    ensures Agrees(Step(st, ev).state, id, acts + ActOf(st, ev, id))
    ensures Delivered(st, ev, id) == var a := ActOf(st, ev, id); if a == [] then [] else Reaction(acts, a[0])
  {
    match ev
    case Woken(ready) => StepWoken(st, ready, id, acts);
    case Accepted(fd, other) => StepAccepted(st, fd, other, id, acts);
    case Closed(fd) => StepClosed(st, fd, id, acts);
    case Requested(fd, command, topic) => StepRequested(st, fd, command, topic, id, acts);
    case Published(topic, payload) => StepPublished(st, topic, payload, id, acts);
  }

  /** The server right after `prepare`: no clients, three fixed descriptors. */
  ghost predicate Prepared(st: ServerState) {
    st.clients == map[] && |st.pollFds| == 3 && Inv(st)
  }

  /** The last event of a run. */
  lemma RunLast(st: ServerState, evs: seq<Event>, id: string)
    requires Legal(st, evs) && evs != []
    ensures var init, last := evs[..|evs| - 1], evs[|evs| - 1];
            && Legal(st, init) && Enabled(Final(st, init), last)
            && Final(st, evs) == Step(Final(st, init), last).state
            && ActsOf(st, evs, id) == ActsOf(st, init, id) + ActOf(Final(st, init), last, id)
            && |ActOf(Final(st, init), last, id)| <= 1
            && Inbox(st, evs, id) == Inbox(st, init, id) + Delivered(Final(st, init), last, id)
  {
    hide Step, Enabled, Delivered;
  }

  lemma ExpectedMore(acts: seq<Act>, a: seq<Act>)
    requires |a| <= 1
    ensures Expected(acts + a) == Expected(acts) + if a == [] then [] else Reaction(acts, a[0])
  {
    if a == [] {
      assert acts + a == acts;
    } else {
      assert (acts + a)[..|acts|] == acts;
    }
  }

  /**
   For every run from the prepared server and every client: the state and all messages
   written to its connections are those its own history calls for.
   */
  lemma {:induction false} RunRefines(st: ServerState, evs: seq<Event>, id: string)
    requires Prepared(st) && Legal(st, evs)
    ensures Inv(Final(st, evs)) && Agrees(Final(st, evs), id, ActsOf(st, evs, id))
    ensures Inbox(st, evs, id) == Expected(ActsOf(st, evs, id))
  {
    if evs == [] {
    } else {
      var init, last := evs[..|evs| - 1], evs[|evs| - 1];
      RunLast(st, evs, id);
      hide *;
      RunRefines(st, init, id);
      var mid, acts := Final(st, init), ActsOf(st, init, id);
      StepKeepsInv(mid, last);
      StepRefines(mid, last, id, acts);
      ExpectedMore(acts, ActOf(mid, last, id));
    }
  }

  lemma {:induction false} RunKeepsFixed(st: ServerState, evs: seq<Event>, i: nat)
    requires Inv(st) && Legal(st, evs) && i < 3
    ensures Inv(Final(st, evs)) && Final(st, evs).pollFds[i].fd == st.pollFds[i].fd
  {
    if evs == [] {
    } else {
      var init, last := evs[..|evs| - 1], evs[|evs| - 1];
      RunKeepsFixed(st, init, i);
      StepKeepsInv(Final(st, init), last);
      StepKeepsFixed(Final(st, init), last, i);
    }
  }

  /** No message goes anywhere else: a descriptor written to belongs to a client or to a denied peer. */
  lemma SendsAccounted(st: ServerState, ev: Event, fd: int)
    requires Inv(st) && Enabled(st, ev) && fd in Step(st, ev).sends
    ensures (exists id :: Online(Step(st, ev).state, id) && Holds(Step(st, ev).state, id, fd))
            || (ev.Accepted? && ev.fd == fd && Online(st, ev.id) && Step(st, ev).sends[fd].command == CONNECT_DENIED)
  {
    var next := Step(st, ev).state;
    match ev
    case Woken(_) =>
    case Accepted(_, id) =>
      assert !Online(st, id) ==> Online(next, id) && Holds(next, id, fd);
    case Closed(_) =>
    case Requested(_, _, _) =>
      HolderExists(st, fd);
      assert Online(next, HolderOf(st, fd)) && Holds(next, HolderOf(st, fd), fd);
    case Published(topic, payload) =>
      RecipientsByFd(st, topic);
      assert fd in RecipientFds(st, topic);
      HolderExists(st, fd);
      assert Online(next, HolderOf(st, fd)) && Holds(next, HolderOf(st, fd), fd);
  }

  // ----- replies

  function Replies(ms: seq<Message>): seq<Message> {
    if ms == [] then []
    else (if ms[0].command == MSG_FROM_UDP then [] else [ms[0]]) + Replies(ms[1..])
  }

  ghost predicate CallsForReply(acts: seq<Act>, act: Act) {
    act.Request? || (act.Connect? && !ConnectedAfter(acts))
  }

  /** The acts of a client that call for a reply to it. */
  ghost function Asked(acts: seq<Act>): seq<Act> {
    if acts == [] then []
    else
      var init, last := acts[..|acts| - 1], acts[|acts| - 1];
      Asked(init) + if CallsForReply(init, last) then [last] else []
  }

  predicate Answers(act: Act, reply: Message) {
    match act
    case Connect => reply.command == CONNECT_ACCEPTED
    case Request(command, _) =>
      if command == SUBSCRIBE_REQ then reply.command == SUBSCRIBE_SUCC || reply.command == SUBSCRIBE_FAIL
      else reply.command == UNSUBSCRIBE_SUCC || reply.command == UNSUBSCRIBE_FAIL
    case _ => false
  }

  /** The subscriptions one can work out from the requests and the replies to them alone. */
  ghost function Rebuilt(asked: seq<Act>, replies: seq<Message>): set<string>
    requires |asked| == |replies|
  {
    if asked == [] then {}
    else
      var n := |asked| - 1;
      var before := Rebuilt(asked[..n], replies[..n]);
      if !asked[n].Request? then before
      else if replies[n].command == SUBSCRIBE_SUCC then before + {asked[n].topic}
      else if replies[n].command == UNSUBSCRIBE_SUCC then before - {asked[n].topic}
      else before
  }

  lemma {:induction false} RepliesConcat(a: seq<Message>, b: seq<Message>)
    ensures Replies(a + b) == Replies(a) + Replies(b)
  {
    if a == [] {
      assert a + b == b;
    } else {
      assert (a + b)[1..] == a[1..] + b;
      RepliesConcat(a[1..], b);
    }
  }

  lemma RepliesOfReaction(acts: seq<Act>, act: Act)
    ensures Replies(Reaction(acts, act)) == if act.Publish? then [] else Reaction(acts, act)
  {
    var r := Reaction(acts, act);
    if r != [] {
      assert r[1..] == [];
      assert Replies(r) == (if r[0].command == MSG_FROM_UDP then [] else [r[0]]) + Replies([]);
    }
  }

  lemma RepliesStep(acts: seq<Act>)
    requires acts != []
    ensures var init, last := acts[..|acts| - 1], acts[|acts| - 1];
            if CallsForReply(init, last) then
              && |Reaction(init, last)| == 1 && Asked(acts) == Asked(init) + [last]
              && Replies(Expected(acts)) == Replies(Expected(init)) + Reaction(init, last)
            else Asked(acts) == Asked(init) && Replies(Expected(acts)) == Replies(Expected(init))
  {
    var init, last := acts[..|acts| - 1], acts[|acts| - 1];
    RepliesConcat(Expected(init), Reaction(init, last));
    RepliesOfReaction(init, last);
  }

  /** Publications dropped, the k-th message to a client answers its k-th request, over all its connections. */
  lemma {:induction false} RepliesPaired(acts: seq<Act>)
    ensures |Replies(Expected(acts))| == |Asked(acts)|
    ensures forall k :: 0 <= k < |Asked(acts)| ==> Answers(Asked(acts)[k], Replies(Expected(acts))[k])
  {
    if acts == [] {
    } else {
      RepliesPaired(acts[..|acts| - 1]);
      RepliesStep(acts);
    }
  }

  /** Requests and replies alone tell the subscriptions. */
  lemma {:induction false} RepliesRebuild(acts: seq<Act>)
    requires |Replies(Expected(acts))| == |Asked(acts)|
    ensures forall t :: t in Rebuilt(Asked(acts), Replies(Expected(acts))) <==> SubscribedAfter(acts, t)
  {
    if acts == [] {
    } else {
      var init, last := acts[..|acts| - 1], acts[|acts| - 1];
      RepliesPaired(init);
      RepliesRebuild(init);
      RepliesStep(acts);
      if CallsForReply(init, last) {
        var asked, replies, r := Asked(init), Replies(Expected(init)), Reaction(init, last);
        assert (asked + [last])[..|asked|] == asked && (replies + r)[..|asked|] == replies;
      }
    }
  }

  // ----- publications

  function Publications(ms: seq<Message>): seq<Message> {
    if ms == [] then []
    else (if ms[0].command == MSG_FROM_UDP then [ms[0]] else []) + Publications(ms[1..])
  }

  /** The publications of a history that the client wanted at the time, while it was connected. */
  ghost function Heard(acts: seq<Act>): seq<Message> {
    if acts == [] then []
    else
      var init, last := acts[..|acts| - 1], acts[|acts| - 1];
      Heard(init) + if last.Publish? && ConnectedAfter(init) && WantedAfter(init, last.topic)
                    then [Message(MSG_FROM_UDP, last.payload)] else []
  }

  lemma {:induction false} PublicationsConcat(a: seq<Message>, b: seq<Message>)
    ensures Publications(a + b) == Publications(a) + Publications(b)
  {
    if a == [] {
      assert a + b == b;
    } else {
      assert (a + b)[1..] == a[1..] + b && (a + b)[0] == a[0];
      PublicationsConcat(a[1..], b);
      var first, x, y := if a[0].command == MSG_FROM_UDP then [a[0]] else [], Publications(a[1..]), Publications(b);
      assert first + (x + y) == first + x + y;
    }
  }

  lemma {:induction false} PublicationsExpected(acts: seq<Act>)
    ensures Publications(Expected(acts)) == Heard(acts)
  {
    if acts == [] {
    } else {
      var init, last := acts[..|acts| - 1], acts[|acts| - 1];
      PublicationsExpected(init);
      var r := Reaction(init, last);
      PublicationsConcat(Expected(init), r);
      if r != [] {
        assert r[1..] == [];
        assert Publications(r) == (if r[0].command == MSG_FROM_UDP then [r[0]] else []) + Publications([]);
      }
    }
  }

  /**
   Every publication goes to a client while it is connected and subscribed, in the order of
   publication, once; what is published while it is away is not kept for it.
   */
  lemma RunPublications(st: ServerState, evs: seq<Event>, id: string)
    requires Prepared(st) && Legal(st, evs)
    ensures Publications(Inbox(st, evs, id)) == Heard(ActsOf(st, evs, id))
  {
    RunRefines(st, evs, id);
    PublicationsExpected(ActsOf(st, evs, id));
  }

  /** A client wants only what one of its subscriptions matches, for all histories and topics. */
  lemma WantedSound(acts: seq<Act>, topic: string)
    requires WantedAfter(acts, topic)
    ensures exists pattern :: SubscribedAfter(acts, pattern) && Matches(Tokenize(pattern), Tokenize(topic))
  {
    var pattern :| SubscribedAfter(acts, pattern)
                   && (pattern == topic || Greedy(Tokenize(pattern), Tokenize(topic)));
    if pattern == topic {
      MatchesSelf(Tokenize(topic));
    } else {
      GreedySound(Tokenize(pattern), Tokenize(topic));
    }
  }

  /** Where no subscription can miss a topic, being wanted is the declarative relation. */
  lemma WantedMatches(acts: seq<Act>, topic: string)
    requires forall pattern :: SubscribedAfter(acts, pattern) ==> NeverMisses(Tokenize(pattern))
    ensures WantedAfter(acts, topic) <==>
            exists pattern :: SubscribedAfter(acts, pattern) && Matches(Tokenize(pattern), Tokenize(topic))
  {
    forall pattern | SubscribedAfter(acts, pattern)
      ensures Greedy(Tokenize(pattern), Tokenize(topic)) <==> Matches(Tokenize(pattern), Tokenize(topic))
    {
      CompleteByExchange(Tokenize(pattern), Tokenize(topic));
    }
    if WantedAfter(acts, topic) {
      WantedSound(acts, topic);
    }
    if pattern :| SubscribedAfter(acts, pattern) && Matches(Tokenize(pattern), Tokenize(topic)) {
      assert Greedy(Tokenize(pattern), Tokenize(topic));
    }
  }

  // ----- requests

  /** A request succeeds exactly when it changes the subscriptions, and it touches its topic only. */
  lemma SuccessIffChange(acts: seq<Act>, command: byte, topic: string)
    ensures var after := acts + [Request(command, topic)];
            var reply := Reaction(acts, Request(command, topic))[0].command;
            && ((reply == SUBSCRIBE_SUCC || reply == UNSUBSCRIBE_SUCC) <==>
                (SubscribedAfter(after, topic) != SubscribedAfter(acts, topic)))
            && (forall t :: t != topic ==> (SubscribedAfter(after, t) <==> SubscribedAfter(acts, t)))
  {
    assert (acts + [Request(command, topic)])[..|acts|] == acts;
  }

  /** The replies a server run writes to a client, paired with the requests of that client. */
  lemma RunRepliesPaired(st: ServerState, evs: seq<Event>, id: string)
    requires Prepared(st) && Legal(st, evs)
    ensures var asked := Asked(ActsOf(st, evs, id));
            var replies := Replies(Inbox(st, evs, id));
            && |replies| == |asked|
            && (forall k :: 0 <= k < |asked| ==> Answers(asked[k], replies[k]))
            && (forall t :: t in Rebuilt(asked, replies) <==> HasTopic(Final(st, evs), id, t))
  {
    RunRefines(st, evs, id);
    RepliesPaired(ActsOf(st, evs, id));
    RepliesRebuild(ActsOf(st, evs, id));
  }
}
