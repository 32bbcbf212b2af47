/**
 The state of the server and what one event does to it: the specification of the methods of
 class Server.  An event says what the outside world does; an outcome says the next state
 and which single message is written to which descriptors.
 */
module ServerModel {
  import opened Wire
  import opened Topics
  import opened Interest

  datatype PollFd = PollFd(fd: int, readable: bool)

  /** One registered client; `topics` maps each subscription to its stored tokens. */
  datatype ClientState = ClientState(currFd: int, connected: bool, topics: map<string, seq<Token>>)

  datatype ServerState = ServerState(clients: map<string, ClientState>, pollFds: seq<PollFd>, numPollFds: int)

  datatype Event =
    | Woken(ready: set<int>)
    | Accepted(fd: int, id: string)
    | Closed(fd: int)
    | Requested(fd: int, command: byte, topic: string)
    | Published(topic: string, payload: Payload)

  datatype Outcome = Outcome(state: ServerState, sends: map<int, Message>)

  // ----- the state invariant

  ghost function Fds(s: seq<PollFd>): set<int> { set e | e in s :: e.fd }

  ghost predicate DistinctFds(s: seq<PollFd>) {
    forall i, j :: 0 <= i < j < |s| ==> s[i].fd != s[j].fd
  }

  ghost predicate Online(st: ServerState, id: string) {
    id in st.clients && st.clients[id].connected
  }

  /** `get_client_from_fd` answers `id`. */
  ghost predicate Holds(st: ServerState, id: string, fd: int) {
    id in st.clients && st.clients[id].currFd == fd
  }

  ghost function ConnectedFds(st: ServerState): set<int> {
    set id | id in st.clients && st.clients[id].connected :: st.clients[id].currFd
  }

  /**
   What every event keeps: the count is the size of the vector, no descriptor is polled
   twice, and behind stdin, the UDP and the listening socket stand exactly the descriptors
   of the connected clients, one each.
   */
  ghost predicate Inv(st: ServerState) {
    && st.numPollFds == |st.pollFds| >= 3
    && DistinctFds(st.pollFds)
    && (forall i :: 0 <= i < |st.pollFds| ==> 0 <= st.pollFds[i].fd)
    && Fds(st.pollFds[3..]) == ConnectedFds(st)
    && (forall id :: id in st.clients && !st.clients[id].connected ==> st.clients[id].currFd == -1)
    && (forall a, b :: Online(st, a) && Online(st, b) && st.clients[a].currFd == st.clients[b].currFd ==> a == b)
    && (forall id :: id in st.clients ==> Tokenized(st.clients[id].topics))
  }

  lemma FdsConcat(s: seq<PollFd>, r: seq<PollFd>)
    ensures Fds(s + r) == Fds(s) + Fds(r)
  {
    forall fd | fd in Fds(s) + Fds(r) ensures fd in Fds(s + r) {
      if fd in Fds(s) {
        var e :| e in s && e.fd == fd;
        assert e in s + r;
      } else {
        var e :| e in r && e.fd == fd;
        assert e in s + r;
      }
    }
  }

  /** Every polled client descriptor has one connected holder, found by its descriptor. */
  lemma HolderExists(st: ServerState, fd: int)
    requires Inv(st) && fd in Fds(st.pollFds[3..])
    ensures exists id :: Holds(st, id, fd)
    ensures forall id :: Holds(st, id, fd) ==> Online(st, id)
    ensures forall a, b :: Holds(st, a, fd) && Holds(st, b, fd) ==> a == b
    ensures 0 <= fd
  {
    assert fd in ConnectedFds(st);
    var id :| id in st.clients && st.clients[id].connected && st.clients[id].currFd == fd;
    assert Holds(st, id, fd);
    var e :| e in st.pollFds[3..] && e.fd == fd;
    var i :| 0 <= i < |st.pollFds[3..]| && st.pollFds[3..][i] == e;
    assert st.pollFds[i + 3].fd == fd;
  }

  ghost function HolderOf(st: ServerState, fd: int): (id: string)
    ensures (exists a :: Holds(st, a, fd)) ==> Holds(st, id, fd)
  {
    if exists a :: Holds(st, a, fd) then var a :| Holds(st, a, fd); a else "placeholder"
  }

  // ----- the events

  /** What the outside world may do in a state: accept() picks a descriptor that is not open. */
  ghost predicate Enabled(st: ServerState, ev: Event) {
    |st.pollFds| >= 3 &&
    match ev
    case Woken(_) => true
    case Accepted(fd, _) => 0 <= fd && fd !in Fds(st.pollFds)
    case Closed(fd) => fd in Fds(st.pollFds[3..])
    case Requested(fd, _, _) => fd in Fds(st.pollFds[3..])
    case Published(_, _) => true
  }

  /** The vector after poll(): the same descriptors with new readiness flags. */
  function Flagged(s: seq<PollFd>, ready: set<int>): seq<PollFd> {
    seq(|s|, i requires 0 <= i < |s| => PollFd(s[i].fd, s[i].fd in ready))
  }

  function WakeStep(st: ServerState, ready: set<int>): Outcome {
    Outcome(st.(pollFds := Flagged(st.pollFds, ready)), map[])
  }

  function RemoveFd(s: seq<PollFd>, fd: int): seq<PollFd> {
    if s == [] then [] else if s[0].fd == fd then s[1..] else [s[0]] + RemoveFd(s[1..], fd)
  }

  ghost function AcceptStep(st: ServerState, fd: int, id: string): Outcome {
    if Online(st, id) then Outcome(st, map[fd := Message(CONNECT_DENIED, [])])
    else
      var topics := if id in st.clients then st.clients[id].topics else map[];
      Outcome(ServerState(st.clients[id := ClientState(fd, true, topics)],
                          st.pollFds + [PollFd(fd, false)], st.numPollFds + 1),
              map[fd := Message(CONNECT_ACCEPTED, [])])
  }

  ghost function CloseStep(st: ServerState, fd: int): Outcome {
    var id := HolderOf(st, fd);
    if id !in st.clients then Outcome(st, map[])
    else
      var gone := st.clients[id].(connected := false, currFd := -1);
      Outcome(ServerState(st.clients[id := gone], RemoveFd(st.pollFds, fd), st.numPollFds - 1), map[])
  }

  /** The reply to a request and the subscriptions after it; any other command unsubscribes. */
  function Answered(topics: map<string, seq<Token>>, command: byte, topic: string): (byte, map<string, seq<Token>>) {
    if command == SUBSCRIBE_REQ then
      if topic in topics then (SUBSCRIBE_FAIL, topics)
      else (SUBSCRIBE_SUCC, topics[topic := Tokenize(topic)])
    else
      if topic !in topics then (UNSUBSCRIBE_FAIL, topics)
      else (UNSUBSCRIBE_SUCC, topics - {topic})
  }

  ghost function WithTopics(st: ServerState, id: string, topics: map<string, seq<Token>>): ServerState
    requires id in st.clients
  {
    st.(clients := st.clients[id := st.clients[id].(topics := topics)])
  }

  ghost function RequestStep(st: ServerState, fd: int, command: byte, topic: string): Outcome {
    var id := HolderOf(st, fd);
    if id !in st.clients then Outcome(st, map[])
    else
      var (reply, topics) := Answered(st.clients[id].topics, command, topic);
      Outcome(WithTopics(st, id, topics), map[fd := Message(reply, [])])
  }

  ghost function Recipients(st: ServerState, topic: string): set<string> {
    set id | id in st.clients && st.clients[id].connected && Interested(st.clients[id].topics, topic)
  }

  ghost function RecipientFds(st: ServerState, topic: string): set<int> {
    set id | id in Recipients(st, topic) :: st.clients[id].currFd
  }

  ghost function PublishStep(st: ServerState, topic: string, payload: Payload): Outcome {
    Outcome(st, map fd | fd in RecipientFds(st, topic) :: Message(MSG_FROM_UDP, payload))
  }

  ghost function Step(st: ServerState, ev: Event): Outcome {
    match ev
    case Woken(ready) => WakeStep(st, ready)
    case Accepted(fd, id) => AcceptStep(st, fd, id)
    case Closed(fd) => CloseStep(st, fd)
    case Requested(fd, command, topic) => RequestStep(st, fd, command, topic)
    case Published(topic, payload) => PublishStep(st, topic, payload)
  }

  // ----- every event keeps the invariant

  lemma SameFds(a: seq<PollFd>, b: seq<PollFd>)
    requires |a| == |b| && forall i :: 0 <= i < |a| ==> a[i].fd == b[i].fd
    ensures Fds(a) == Fds(b)
  {
    forall fd | fd in Fds(a) ensures fd in Fds(b) {
      var e :| e in a && e.fd == fd;
      var i :| 0 <= i < |a| && a[i] == e;
      assert b[i] in b;
    }
    forall fd | fd in Fds(b) ensures fd in Fds(a) {
      var e :| e in b && e.fd == fd;
      var i :| 0 <= i < |b| && b[i] == e;
      assert a[i] in a;
    }
  }

  lemma WakeKeepsInv(st: ServerState, ready: set<int>)
    requires Inv(st)
    ensures Inv(WakeStep(st, ready).state) && Fds(Flagged(st.pollFds, ready)) == Fds(st.pollFds)
  {
    var next := WakeStep(st, ready).state;
    SameFds(next.pollFds, st.pollFds);
    SameFds(next.pollFds[3..], st.pollFds[3..]);
    assert ConnectedFds(next) == ConnectedFds(st);
  }

  lemma AcceptConnects(st: ServerState, fd: int, id: string)
    requires Inv(st) && Enabled(st, Accepted(fd, id)) && !Online(st, id)
    ensures var next := AcceptStep(st, fd, id).state;
            && ConnectedFds(next) == ConnectedFds(st) + {fd}
            && (forall a, b :: (Online(next, a) && Online(next, b) && next.clients[a].currFd == next.clients[b].currFd)
                  ==> a == b)
  {
    var next := AcceptStep(st, fd, id).state;
    assert fd !in ConnectedFds(st) by {
      assert st.pollFds == st.pollFds[..3] + st.pollFds[3..];
      FdsConcat(st.pollFds[..3], st.pollFds[3..]);
    }
    forall other | other in ConnectedFds(st) ensures other in ConnectedFds(next) {
      var a :| a in st.clients && st.clients[a].connected && st.clients[a].currFd == other;
      assert a in next.clients && next.clients[a].connected;
    }
    assert next.clients[id].connected;
    forall a | Online(next, a) && a != id
      ensures Online(st, a) && next.clients[a].currFd in ConnectedFds(st)
    {
      assert a in st.clients && st.clients[a].connected;
    }
    assert ConnectedFds(next) == ConnectedFds(st) + {fd};
  }

  lemma AcceptKeepsInv(st: ServerState, fd: int, id: string)
    requires Inv(st) && Enabled(st, Accepted(fd, id))
    ensures Inv(AcceptStep(st, fd, id).state)
  {
    if !Online(st, id) {
      var next := AcceptStep(st, fd, id).state;
      var e := PollFd(fd, false);
      assert forall i :: 0 <= i < |st.pollFds| ==> st.pollFds[i] in st.pollFds;
      assert DistinctFds(next.pollFds);
      assert next.pollFds[3..] == st.pollFds[3..] + [e];
      FdsConcat(st.pollFds[3..], [e]);
      assert Fds([e]) == {fd} by { assert e in [e]; }
      AcceptConnects(st, fd, id);
    }
  }

  /** Erasing the one entry of a descriptor keeps the others in order. */
  lemma {:induction false} RemoveFdParts(s: seq<PollFd>, fd: int) returns (k: nat)
    requires fd in Fds(s) && DistinctFds(s)
    ensures k < |s| && s[k].fd == fd && RemoveFd(s, fd) == s[..k] + s[k + 1..]
  {
    if s[0].fd == fd {
      k := 0;
    } else {
      forall i, j | 0 <= i < j < |s[1..]| ensures s[1..][i].fd != s[1..][j].fd {
        assert s[i + 1].fd != s[j + 1].fd;
      }
      var e :| e in s && e.fd == fd;
      assert e in s[1..];
      var k' := RemoveFdParts(s[1..], fd);
      k := k' + 1;
    }
  }

  lemma ErasedFds(s: seq<PollFd>, k: nat)
    requires k < |s| && DistinctFds(s)
    ensures DistinctFds(s[..k] + s[k + 1..])
    ensures Fds(s[..k] + s[k + 1..]) == Fds(s) - {s[k].fd}
  {
    var r := s[..k] + s[k + 1..];
    assert s == s[..k] + ([s[k]] + s[k + 1..]);
    FdsConcat(s[..k], s[k + 1..]);
    FdsConcat(s[..k], [s[k]] + s[k + 1..]);
    FdsConcat([s[k]], s[k + 1..]);
    assert Fds([s[k]]) == {s[k].fd};
    assert s[k].fd !in Fds(s[..k]) && s[k].fd !in Fds(s[k + 1..]);
  }

  /** Erasing behind the fixed entries, seen from there. */
  lemma ErasedBehind(s: seq<PollFd>, k: nat)
    requires DistinctFds(s) && 3 <= k < |s|
    ensures Fds((s[..k] + s[k + 1..])[3..]) == Fds(s[3..]) - {s[k].fd}
  {
    var r := s[3..];
    forall i, j | 0 <= i < j < |r| ensures r[i].fd != r[j].fd {
      assert s[i + 3].fd != s[j + 3].fd;
    }
    ErasedFds(r, k - 3);
    assert (s[..k] + s[k + 1..])[3..] == r[..k - 3] + r[k - 3 + 1..];
  }

  /** The fixed entries are never erased. */
  lemma ClientErased(st: ServerState, fd: int) returns (k: nat)
    requires Inv(st) && fd in Fds(st.pollFds[3..])
    ensures 3 <= k < |st.pollFds| && st.pollFds[k].fd == fd
    ensures RemoveFd(st.pollFds, fd) == st.pollFds[..k] + st.pollFds[k + 1..]
  {
    assert st.pollFds == st.pollFds[..3] + st.pollFds[3..];
    FdsConcat(st.pollFds[..3], st.pollFds[3..]);
    k := RemoveFdParts(st.pollFds, fd);
    var e :| e in st.pollFds[3..] && e.fd == fd;
    var i :| 0 <= i < |st.pollFds[3..]| && st.pollFds[3..][i] == e;
    assert st.pollFds[i + 3].fd == fd;
  }

  lemma CloseDisconnects(st: ServerState, fd: int)
    requires Inv(st) && Enabled(st, Closed(fd))
    ensures var next := CloseStep(st, fd).state;
            && ConnectedFds(next) == ConnectedFds(st) - {fd}
            && (forall a, b :: (Online(next, a) && Online(next, b) && next.clients[a].currFd == next.clients[b].currFd)
                  ==> a == b)
  {
    HolderExists(st, fd);
    var id := HolderOf(st, fd);
    var next := CloseStep(st, fd).state;
    forall a | Online(next, a)
      ensures Online(st, a) && next.clients[a] == st.clients[a] && st.clients[a].currFd != fd
    {
      assert Online(st, id) && a != id;
    }
    forall other | other in ConnectedFds(st) && other != fd ensures other in ConnectedFds(next) {
      var a :| a in st.clients && st.clients[a].connected && st.clients[a].currFd == other;
      assert a in next.clients && next.clients[a].connected;
    }
    forall other | other in ConnectedFds(next) ensures other in ConnectedFds(st) && other != fd {
      var a :| a in next.clients && next.clients[a].connected && next.clients[a].currFd == other;
      assert Online(next, a);
    }
  }

  lemma CloseKeepsInv(st: ServerState, fd: int)
    requires Inv(st) && Enabled(st, Closed(fd))
    ensures Inv(CloseStep(st, fd).state)
  {
    HolderExists(st, fd);
    var next := CloseStep(st, fd).state;
    var k := ClientErased(st, fd);
    ErasedFds(st.pollFds, k);
    ErasedBehind(st.pollFds, k);
    CloseDisconnects(st, fd);
    hide DistinctFds, Fds, ConnectedFds, RemoveFd;
  }

  lemma RequestKeepsInv(st: ServerState, fd: int, command: byte, topic: string)
    requires Inv(st) && Enabled(st, Requested(fd, command, topic))
    ensures Inv(RequestStep(st, fd, command, topic).state)
  {
    HolderExists(st, fd);
    var next := RequestStep(st, fd, command, topic).state;
    forall a ensures Online(next, a) <==> Online(st, a) {}
    assert ConnectedFds(next) == ConnectedFds(st) by {
      forall other | other in ConnectedFds(st) ensures other in ConnectedFds(next) {
        var a :| a in st.clients && st.clients[a].connected && st.clients[a].currFd == other;
        assert a in next.clients && next.clients[a].connected;
      }
    }
  }

  /** The descriptor invariant holds after every event, whichever free descriptor accept() picks. */
  lemma StepKeepsInv(st: ServerState, ev: Event)
    requires Inv(st) && Enabled(st, ev)
    ensures Inv(Step(st, ev).state)
  {
    match ev
    case Woken(ready) => WakeKeepsInv(st, ready);
    case Accepted(fd, id) => AcceptKeepsInv(st, fd, id);
    case Closed(fd) => CloseKeepsInv(st, fd);
    case Requested(fd, command, topic) => RequestKeepsInv(st, fd, command, topic);
    case Published(_, _) =>
  }

  /**
   Subscriptions are kept: no client is ever forgotten, connecting and disconnecting change no
   subscription, and a request changes one topic of its own client only.
   */
  lemma StepKeepsTopics(st: ServerState, ev: Event, id: string)
    requires Inv(st) && Enabled(st, ev) && id in st.clients
    ensures id in Step(st, ev).state.clients
    ensures var before, after := st.clients[id].topics, Step(st, ev).state.clients[id].topics;
            if ev.Requested? && Holds(st, id, ev.fd) then
              && (forall t :: t != ev.topic ==> (t in after <==> t in before))
              && (ev.topic in after <==> ev.command == SUBSCRIBE_REQ)
            else after == before
  {
    if ev.Requested? || ev.Closed? {
      HolderExists(st, ev.fd);
    }
  }

  /** stdin, the UDP socket and the listening socket keep their places. */
  lemma StepKeepsFixed(st: ServerState, ev: Event, i: nat)
    requires Inv(st) && Enabled(st, ev) && i < 3
    ensures |Step(st, ev).state.pollFds| >= 3 && Step(st, ev).state.pollFds[i].fd == st.pollFds[i].fd
  {
    StepKeepsInv(st, ev);
    if ev.Closed? {
      HolderExists(st, ev.fd);
      var k := ClientErased(st, ev.fd);
    }
  }

  // ----- fan-out

  /** An injective image has as many elements. */
  lemma {:induction false} SameCount(ids: set<string>, f: map<string, int>, image: set<int>)
    requires ids <= f.Keys && image == set a | a in ids :: f[a]
    requires forall a, b :: a in ids && b in ids && f[a] == f[b] ==> a == b
    ensures |ids| == |image|
  {
    if ids == {} {
    } else {
      var a :| a in ids;
      SameCount(ids - {a}, f, image - {f[a]});
    }
  }

  lemma RecipientsByFd(st: ServerState, topic: string)
    requires Inv(st)
    ensures forall id :: id in st.clients && st.clients[id].connected ==>
              (st.clients[id].currFd in RecipientFds(st, topic) <==> Interested(st.clients[id].topics, topic))
    ensures RecipientFds(st, topic) <= Fds(st.pollFds[3..])
  {
    forall id | id in st.clients && st.clients[id].connected
      ensures st.clients[id].currFd in RecipientFds(st, topic) <==> Interested(st.clients[id].topics, topic)
    {
      if Interested(st.clients[id].topics, topic) {
        assert id in Recipients(st, topic);
      }
      if st.clients[id].currFd in RecipientFds(st, topic) {
        var a :| a in Recipients(st, topic) && st.clients[a].currFd == st.clients[id].currFd;
        assert Online(st, a) && Online(st, id);
      }
    }
    forall fd | fd in RecipientFds(st, topic) ensures fd in ConnectedFds(st) {
      var a :| a in Recipients(st, topic) && st.clients[a].currFd == fd;
    }
  }

  lemma RecipientCount(st: ServerState, topic: string)
    requires Inv(st)
    ensures |RecipientFds(st, topic)| == |Recipients(st, topic)|
  {
    var ids := Recipients(st, topic);
    var f := map id | id in ids :: st.clients[id].currFd;
    assert forall a :: a in ids ==> Online(st, a);
    assert RecipientFds(st, topic) == set id | id in ids :: f[id];
    SameCount(ids, f, RecipientFds(st, topic));
  }

  /**
   One publication: the same message once to every connected client with a matching
   subscription, on its own descriptor, and to nobody else.
   */
  lemma FanOutExactly(st: ServerState, topic: string, payload: Payload)
    requires Inv(st)
    ensures var sends := PublishStep(st, topic, payload).sends;
            && (forall id :: id in st.clients && st.clients[id].connected ==>
                  (st.clients[id].currFd in sends <==> Interested(st.clients[id].topics, topic)))
            && sends.Keys <= Fds(st.pollFds[3..])
            && (forall fd :: fd in sends ==> sends[fd] == Message(MSG_FROM_UDP, payload))
            && |sends| == |Recipients(st, topic)|
  {
    RecipientsByFd(st, topic);
    RecipientCount(st, topic);
    var sends := PublishStep(st, topic, payload).sends;
    assert sends.Keys == RecipientFds(st, topic);
    assert |sends| == |sends.Keys|;
  }
}
