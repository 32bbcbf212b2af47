/**
 What one iteration of the main loop does to each client: whoever is ready is served once,
 whoever is not is left alone, and everything happens in the order of the loop.
 */
module Iteration {
  import opened Wire
  import opened ServerModel
  import opened ClientHistory
  import opened ServerRound
  import opened ServerInput
  import opened UdpPayload
  import opened MainLoop

  // ----- what an iteration does to each client

  predicate IsAbout(ev: Event, fd: int) {
    match ev
    case Accepted(f, _) => f == fd
    case Closed(f) => f == fd
    case Requested(f, _, _) => f == fd
    case _ => false
  }

  /** The events of one descriptor, in order. */
  function EventsAbout(evs: seq<Event>, fd: int): seq<Event> {
    if evs == [] then []
    else
      var last := evs[|evs| - 1];
      EventsAbout(evs[..|evs| - 1], fd) + if IsAbout(last, fd) then [last] else []
  }

  /**
   With something due, exactly one message is taken off the stream of the descriptor, and it
   is the one event there; at the end of the stream that event is the end of the connection.
   With nothing due there is no event, and nothing is read.
   */
  ghost predicate ServedOnce(evs: seq<Event>, fd: int, due: bool, before: seq<byte>, after: seq<byte>) {
    if !due then EventsAbout(evs, fd) == [] && after == before
    else match Parse(before)
      case EndOfStream => EventsAbout(evs, fd) == [Closed(fd)] && after == []
      case Complete(m, rest) =>
        EventsAbout(evs, fd) == [Requested(fd, m.command, CString(m.payload))] && after == rest
  }

  lemma {:induction false} EventsAboutConcat(a: seq<Event>, b: seq<Event>, fd: int)
    ensures EventsAbout(a + b, fd) == EventsAbout(a, fd) + EventsAbout(b, fd)
    decreases |b|
  {
    if b == [] {
      assert a + b == a;
    } else {
      assert (a + b)[..|a + b| - 1] == a + b[..|b| - 1];
      EventsAboutConcat(a, b[..|b| - 1], fd);
    }
  }

  lemma OneAbout(ev: Event, fd: int)
    ensures EventsAbout([ev], fd) == if IsAbout(ev, fd) then [ev] else []
  {
    assert [ev][..0] == [];
  }

  lemma EntryAbout(e: PollFd, inbound: map<int, seq<byte>>, fd: int)
    ensures EventsAbout(EventsOf(e, inbound), fd) ==
            if e.readable && e.fd == fd then [EventOn(fd, StreamOf(inbound, fd))] else []
  {
    if e.readable { OneAbout(EventOn(e.fd, StreamOf(inbound, e.fd)), fd); }
  }

  /** What is left of a stream from which one receive took what it could. */
  function Rest(stream: seq<byte>): seq<byte> {
    match Parse(stream)
    case EndOfStream => []
    case Complete(_, rest) => rest
  }

  /** The last entry of a pass, seen from one descriptor. */
  lemma PassAbout(entries: seq<PollFd>, inbound: map<int, seq<byte>>, fd: int)
    requires entries != []
    ensures var init, last := entries[..|entries| - 1], entries[|entries| - 1];
            if last.readable && last.fd == fd then
              && EventsAbout(PassEvents(entries, inbound), fd)
                 == EventsAbout(PassEvents(init, inbound), fd) + [EventOn(fd, StreamOf(inbound, fd))]
              && StreamOf(StreamsAfter(entries, inbound), fd) == Rest(StreamOf(inbound, fd))
            else
              && EventsAbout(PassEvents(entries, inbound), fd) == EventsAbout(PassEvents(init, inbound), fd)
              && StreamOf(StreamsAfter(entries, inbound), fd) == StreamOf(StreamsAfter(init, inbound), fd)
  {
    var init, last := entries[..|entries| - 1], entries[|entries| - 1];
    var evs := PassEvents(init, inbound);
    assert PassEvents(entries, inbound) == evs + EventsOf(last, inbound);
    EventsAboutConcat(evs, EventsOf(last, inbound), fd);
    EntryAbout(last, inbound, fd);
    assert EventsAbout(evs, fd) + [] == EventsAbout(evs, fd);
    hide PassEvents, EventsAbout, EventsOf, EventOn;
  }

  /** A pass leaves a descriptor that it does not have alone. */
  lemma {:induction false} PassLeavesOthers(entries: seq<PollFd>, inbound: map<int, seq<byte>>, fd: int)
    requires forall i :: 0 <= i < |entries| ==> entries[i].fd != fd
    ensures EventsAbout(PassEvents(entries, inbound), fd) == []
    ensures StreamOf(StreamsAfter(entries, inbound), fd) == StreamOf(inbound, fd)
  {
    if entries == [] {
    } else {
      PassAbout(entries, inbound, fd);
      hide *;
      PassLeavesOthers(entries[..|entries| - 1], inbound, fd);
    }
  }

  /** The events and the stream of a descriptor that is served once. */
  lemma OnceServed(evs: seq<Event>, fd: int, before: seq<byte>)
    requires EventsAbout(evs, fd) == [EventOn(fd, before)]
    ensures ServedOnce(evs, fd, true, before, Rest(before))
  {
    hide EventsAbout, Parse, CString;
  }

  lemma NotServed(evs: seq<Event>, fd: int, before: seq<byte>)
    requires EventsAbout(evs, fd) == []
    ensures ServedOnce(evs, fd, false, before, before)
  {
  }

  lemma SameServed(evs: seq<Event>, more: seq<Event>, fd: int, due: bool, before: seq<byte>, after: seq<byte>)
    requires ServedOnce(evs, fd, due, before, after) && EventsAbout(evs, fd) == EventsAbout(more, fd)
    ensures ServedOnce(more, fd, due, before, after)
  {
    hide EventsAbout, Parse, CString;
  }

  lemma DistinctLast(entries: seq<PollFd>, k: nat)
    requires DistinctFds(entries) && k < |entries|
    ensures var n := |entries| - 1;
            && DistinctFds(entries[..n]) && (k < n ==> entries[n].fd != entries[k].fd)
            && (k == n ==> forall i :: 0 <= i < n ==> entries[..n][i].fd != entries[k].fd)
  {
  }

  /** A pass serves a descriptor once if its entry is readable. */
  lemma {:induction false} PassServesOnce(entries: seq<PollFd>, inbound: map<int, seq<byte>>, k: nat)
    requires DistinctFds(entries) && k < |entries|
    ensures ServedOnce(PassEvents(entries, inbound), entries[k].fd, entries[k].readable,
                       StreamOf(inbound, entries[k].fd), StreamOf(StreamsAfter(entries, inbound), entries[k].fd))
    decreases |entries|
  {
    hide *;
    var n, fd := |entries| - 1, entries[k].fd;
    var init, evs := entries[..n], PassEvents(entries, inbound);
    DistinctLast(entries, k);
    PassAbout(entries, inbound, fd);
    if k < n {
      PassServesOnce(init, inbound, k);
      SameServed(PassEvents(init, inbound), evs, fd, entries[k].readable, StreamOf(inbound, fd),
                 StreamOf(StreamsAfter(entries, inbound), fd));
    } else {
      PassLeavesOthers(init, inbound, fd);
      if entries[k].readable {
        assert [] + [EventOn(fd, StreamOf(inbound, fd))] == [EventOn(fd, StreamOf(inbound, fd))];
        OnceServed(evs, fd, StreamOf(inbound, fd));
      } else {
        NotServed(evs, fd, StreamOf(inbound, fd));
      }
    }
  }

  lemma PacketAbout(packet: Packet, fd: int)
    requires packet.Packet? ==> Conforms(packet.datagram)
    ensures EventsAbout(PacketEvents(packet), fd) == []
  {
    if PacketEvents(packet) != [] { OneAbout(PacketEvents(packet)[0], fd); }
    hide Conforms, Publication, TopicOf;
  }

  lemma PeerAbout(peer: Incoming, fd: int)
    requires peer.Peer? ==> Parse(peer.stream).Complete? && peer.fd != fd
    ensures EventsAbout(PeerEvents(peer), fd) == []
  {
    if PeerEvents(peer) != [] { OneAbout(PeerEvents(peer)[0], fd); }
    hide CString;
  }

  /** What comes before the pass is about no polled client. */
  lemma SocketsAbout(packet: Packet, peer: Incoming, ready: set<int>, fd: int)
    requires packet.Packet? ==> Conforms(packet.datagram)
    requires peer.Peer? ==> Parse(peer.stream).Complete? && peer.fd != fd
    ensures EventsAbout([Woken(ready)], fd) == []
    ensures EventsAbout([Woken(ready)] + (PacketEvents(packet) + PeerEvents(peer)), fd) == []
  {
    OneAbout(Woken(ready), fd);
    PacketAbout(packet, fd);
    PeerAbout(peer, fd);
    hide EventsAbout, PacketEvents, PeerEvents, Conforms, Parse;
    EventsAboutConcat(PacketEvents(packet), PeerEvents(peer), fd);
    EventsAboutConcat([Woken(ready)], PacketEvents(packet) + PeerEvents(peer), fd);
  }

  lemma FlaggedDistinct(s: seq<PollFd>, ready: set<int>)
    requires DistinctFds(s) && |s| >= 3
    ensures |Flagged(s, ready)| == |s| && DistinctFds(Flagged(s, ready)[3..])
    ensures forall k :: 3 <= k < |s| ==>
      Flagged(s, ready)[3..][k - 3].fd == s[k].fd && (Flagged(s, ready)[3..][k - 3].readable <==> s[k].fd in ready)
  {
    DistinctSuffix(s, 3);
    assert forall i :: 0 <= i < |s| - 3 ==> s[3..][i] == s[i + 3];
  }

  lemma WithPeerElsewhere(inbound: map<int, seq<byte>>, peer: Incoming, fd: int)
    requires peer.Peer? ==> Parse(peer.stream).Complete? && peer.fd != fd
    ensures StreamOf(WithPeer(inbound, peer), fd) == StreamOf(inbound, fd)
  {
  }

  /** The events of a descriptor depend on its own stream only. */
  lemma {:induction false} PassSameEvents(entries: seq<PollFd>, a: map<int, seq<byte>>, b: map<int, seq<byte>>, fd: int)
    requires StreamOf(a, fd) == StreamOf(b, fd)
    ensures EventsAbout(PassEvents(entries, a), fd) == EventsAbout(PassEvents(entries, b), fd)
  {
    if entries == [] {
    } else {
      PassAbout(entries, a, fd);
      PassAbout(entries, b, fd);
      hide *;
      PassSameEvents(entries[..|entries| - 1], a, b, fd);
    }
  }

  /** An iteration serves a client exactly when its descriptor is ready and stdin does not say exit. */
  lemma RoundServesOnce(pollFds: seq<PollFd>, ready: set<int>, stop: bool, packet: Packet, peer: Incoming,
                        inbound: map<int, seq<byte>>, k: nat)
    requires 3 <= k < |pollFds| && DistinctFds(pollFds)
    requires packet.Packet? ==> Conforms(packet.datagram)
    requires peer.Peer? ==> Parse(peer.stream).Complete? && peer.fd != pollFds[k].fd
    ensures |Flagged(pollFds, ready)| >= 3
    ensures var fd := pollFds[k].fd;
            ServedOnce(RoundEvents(pollFds, ready, stop, packet, peer, inbound), fd, !stop && fd in ready,
                       StreamOf(inbound, fd),
                       StreamOf(if stop then inbound
                                else StreamsAfter(Flagged(pollFds, ready)[3..], WithPeer(inbound, peer)), fd))
  {
    hide *;
    var fd := pollFds[k].fd;
    RoundEventsAre(pollFds, ready, stop, packet, peer, inbound);
    FlaggedDistinct(pollFds, ready);
    SocketsAbout(packet, peer, ready, fd);
    WithPeerElsewhere(inbound, peer, fd);
    if stop {
      NotServed([Woken(ready)], fd, StreamOf(inbound, fd));
    } else {
      var entries := Flagged(pollFds, ready)[3..];
      var sockets := [Woken(ready)] + (PacketEvents(packet) + PeerEvents(peer));
      var in1 := WithPeer(inbound, peer);
      EventsAboutConcat(sockets, PassEvents(entries, inbound), fd);
      assert [] + EventsAbout(PassEvents(entries, inbound), fd) == EventsAbout(PassEvents(entries, inbound), fd);
      PassServesOnce(entries, in1, k - 3);
      PassSameEvents(entries, inbound, in1, fd);
      SameServed(PassEvents(entries, in1), sockets + PassEvents(entries, inbound), fd, fd in ready,
                 StreamOf(inbound, fd), StreamOf(StreamsAfter(entries, in1), fd));
    }
  }

  lemma PolledAt(pollFds: seq<PollFd>, fd: int) returns (k: nat)
    requires |pollFds| >= 3 && fd in Fds(pollFds[3..])
    ensures 3 <= k < |pollFds| && pollFds[k].fd == fd && fd in Fds(pollFds)
  {
    var e :| e in pollFds[3..] && e.fd == fd;
    var i :| 0 <= i < |pollFds[3..]| && pollFds[3..][i] == e;
    k := i + 3;
    assert pollFds[k] in pollFds;
  }

  /** The same for every client that was polled. */
  lemma RoundServesAll(pollFds: seq<PollFd>, ready: set<int>, stop: bool, packet: Packet, peer: Incoming,
                       inbound: map<int, seq<byte>>)
    requires |pollFds| >= 3 && DistinctFds(pollFds)
    requires packet.Packet? ==> Conforms(packet.datagram)
    requires peer.Peer? ==> Parse(peer.stream).Complete? && peer.fd !in Fds(pollFds)
    ensures |Flagged(pollFds, ready)| >= 3
    ensures forall fd :: fd in Fds(pollFds[3..]) ==>
              ServedOnce(RoundEvents(pollFds, ready, stop, packet, peer, inbound), fd, !stop && fd in ready,
                         StreamOf(inbound, fd),
                         StreamOf(if stop then inbound
                                  else StreamsAfter(Flagged(pollFds, ready)[3..], WithPeer(inbound, peer)), fd))
  {
    FlaggedDistinct(pollFds, ready);
    var evs := RoundEvents(pollFds, ready, stop, packet, peer, inbound);
    var after := if stop then inbound else StreamsAfter(Flagged(pollFds, ready)[3..], WithPeer(inbound, peer));
    forall fd | fd in Fds(pollFds[3..])
      ensures ServedOnce(evs, fd, !stop && fd in ready, StreamOf(inbound, fd), StreamOf(after, fd))
    {
      var k := PolledAt(pollFds, fd);
      hide *;
      RoundServesOnce(pollFds, ready, stop, packet, peer, inbound, k);
    }
  }

  // ----- the order within an iteration

  /** First the wake-up, then the datagram, then the connection request, then the clients. */
  function Turn(ev: Event): nat {
    match ev
    case Woken(_) => 0
    case Published(_, _) => 1
    case Accepted(_, _) => 2
    case _ => 3
  }

  ghost predicate InTurn(evs: seq<Event>) {
    forall i, j :: 0 <= i < j < |evs| ==> Turn(evs[i]) <= Turn(evs[j])
  }

  ghost predicate AllTurn(evs: seq<Event>, least: nat, most: nat) {
    forall i :: 0 <= i < |evs| ==> least <= Turn(evs[i]) <= most
  }

  /** Turns up to `m`, in turn, and then turns from `m` to `most`. */
  lemma InTurnConcat(a: seq<Event>, b: seq<Event>, m: nat, most: nat)
    requires InTurn(a) && InTurn(b) && AllTurn(a, 0, m) && AllTurn(b, m, most) && m <= most
    ensures InTurn(a + b) && AllTurn(a + b, 0, most)
  {
    hide Turn;
  }

  lemma {:induction false} PassTurn(entries: seq<PollFd>, inbound: map<int, seq<byte>>)
    ensures AllTurn(PassEvents(entries, inbound), 3, 3) && InTurn(PassEvents(entries, inbound))
  {
    if entries == [] {
    } else {
      PassTurn(entries[..|entries| - 1], inbound);
    }
  }

  lemma PacketTurn(packet: Packet)
    requires packet.Packet? ==> Conforms(packet.datagram)
    ensures AllTurn(PacketEvents(packet), 0, 1) && InTurn(PacketEvents(packet))
  {
  }

  lemma PeerTurn(peer: Incoming)
    requires peer.Peer? ==> Parse(peer.stream).Complete?
    ensures AllTurn(PeerEvents(peer), 1, 2) && InTurn(PeerEvents(peer))
  {
  }

  lemma WokenTurn(ready: set<int>)
    ensures AllTurn([Woken(ready)], 0, 0) && InTurn([Woken(ready)])
  {
  }

  lemma PassTurnWider(evs: seq<Event>)
    requires AllTurn(evs, 3, 3)
    ensures AllTurn(evs, 2, 3)
  {
  }

  lemma RoundInTurn(pollFds: seq<PollFd>, ready: set<int>, stop: bool, packet: Packet, peer: Incoming,
                    inbound: map<int, seq<byte>>)
    requires |pollFds| >= 3
    requires packet.Packet? ==> Conforms(packet.datagram)
    requires peer.Peer? ==> Parse(peer.stream).Complete?
    ensures InTurn(RoundEvents(pollFds, ready, stop, packet, peer, inbound))
  {
    hide *;
    RoundEventsAre(pollFds, ready, stop, packet, peer, inbound);
    WokenTurn(ready);
    if !stop {
      var entries := Flagged(pollFds, ready)[3..];
      PacketTurn(packet);
      PeerTurn(peer);
      PassTurn(entries, inbound);
      PassTurnWider(PassEvents(entries, inbound));
      InTurnConcat(PacketEvents(packet), PeerEvents(peer), 1, 2);
      InTurnConcat([Woken(ready)], PacketEvents(packet) + PeerEvents(peer), 0, 2);
      InTurnConcat([Woken(ready)] + (PacketEvents(packet) + PeerEvents(peer)), PassEvents(entries, inbound), 2, 3);
    }
  }

  /** The clients are served in the order of the vector. */
  lemma {:induction false} PassInOrder(entries: seq<PollFd>, inbound: map<int, seq<byte>>) returns (places: seq<nat>)
    ensures |places| == |PassEvents(entries, inbound)|
    ensures forall i :: 0 <= i < |places| ==>
      places[i] < |entries| && IsAbout(PassEvents(entries, inbound)[i], entries[places[i]].fd)
    ensures forall i, j :: 0 <= i < j < |places| ==> places[i] < places[j]
  {
    if entries == [] {
      places := [];
    } else {
      var n := |entries| - 1;
      places := PassInOrder(entries[..n], inbound);
      if entries[n].readable {
        places := places + [n];
      }
    }
  }
}
