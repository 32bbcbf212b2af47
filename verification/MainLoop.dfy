/**
 The main loop of the server, as events: what one iteration does, and what the iterations do
 one after the other, while the descriptors that accept() picks and the streams that are left
 to read depend on what came before.
 */
module MainLoop {
  import opened Wire
  import opened ServerModel
  import opened ClientHistory
  import opened ServerRound
  import opened ServerInput
  import opened UdpPayload
  import Completeness

  /** What the UDP socket has ready. */
  datatype Packet = NoPacket | Packet(sender: Sender, datagram: seq<byte>)

  /** What the listening socket has ready: the descriptor accept() will pick and what its peer writes. */
  datatype Incoming = NoPeer | Peer(fd: int, stream: seq<byte>)

  ghost predicate PeerConforms(peer: Incoming, open: set<int>) {
    peer.Peer? ==>
      && 0 <= peer.fd && peer.fd !in open
      && Parse(peer.stream).Complete? && 0 in Parse(peer.stream).msg.payload
  }

  lemma PeerParses(peer: Incoming, open: set<int>)
    requires PeerConforms(peer, open)
    ensures peer.Peer? ==> Parse(peer.stream).Complete?
  {
  }

  function PacketEvents(packet: Packet): seq<Event>
    requires packet.Packet? ==> Conforms(packet.datagram)
  {
    if packet.Packet? && TypeOf(packet.datagram) <= STRING
    then [Published(TopicOf(packet.datagram), Publication(packet.sender, packet.datagram))] else []
  }

  function PeerEvents(peer: Incoming): seq<Event>
    requires peer.Peer? ==> Parse(peer.stream).Complete?
  {
    if peer.Peer? then [Accepted(peer.fd, CString(Parse(peer.stream).msg.payload))] else []
  }

  function PeerStreams(peer: Incoming): seq<seq<byte>> {
    if peer.Peer? then [peer.stream] else []
  }

  /** The input streams once the id of the peer has been read. */
  function WithPeer(inbound: map<int, seq<byte>>, peer: Incoming): map<int, seq<byte>>
    requires peer.Peer? ==> Parse(peer.stream).Complete?
  {
    if peer.Peer? then inbound[peer.fd := Parse(peer.stream).rest] else inbound
  }

  /** What a round does, as events: one poll, then what was ready, in the order of the loop. */
  function RoundEvents(pollFds: seq<PollFd>, ready: set<int>, stop: bool, packet: Packet, peer: Incoming,
                       inbound: map<int, seq<byte>>): seq<Event>
    requires |pollFds| >= 3
    requires packet.Packet? ==> Conforms(packet.datagram)
    requires peer.Peer? ==> Parse(peer.stream).Complete?
  {
    if stop then [Woken(ready)]
    else
      [Woken(ready)] + (PacketEvents(packet) + PeerEvents(peer)) + PassEvents(Flagged(pollFds, ready)[3..], inbound)
  }

  lemma RoundEventsAre(pollFds: seq<PollFd>, ready: set<int>, stop: bool, packet: Packet, peer: Incoming,
                       inbound: map<int, seq<byte>>)
    requires |pollFds| >= 3
    requires packet.Packet? ==> Conforms(packet.datagram)
    requires peer.Peer? ==> Parse(peer.stream).Complete?
    ensures |Flagged(pollFds, ready)| >= 3
    ensures RoundEvents(pollFds, ready, stop, packet, peer, inbound) ==
            if stop then [Woken(ready)]
            else [Woken(ready)] + (PacketEvents(packet) + PeerEvents(peer))
                 + PassEvents(Flagged(pollFds, ready)[3..], inbound)
  {
  }

  lemma SocketsFeed(inbound: map<int, seq<byte>>, packet: Packet, peer: Incoming)
    requires packet.Packet? ==> Conforms(packet.datagram)
    requires peer.Peer? ==> Parse(peer.stream).Complete?
    ensures Feeds(inbound, PacketEvents(packet), [], inbound)
    ensures Feeds(inbound, PacketEvents(packet) + PeerEvents(peer), PeerStreams(peer), WithPeer(inbound, peer))
  {
    var published := PacketEvents(packet);
    if published != [] {
      assert [] + [published[0]] == published && Takes(inbound, published[0], inbound);
      FeedsTakes(inbound, [], [], inbound, published[0], inbound);
    } else {
      assert Feeds(inbound, published, [], inbound);
    }
    hide Feeds, Conforms, Publication, TopicOf, TypeOf;
    if peer.Peer? {
      FeedsOpens(inbound, PacketEvents(packet), [], inbound, PeerEvents(peer)[0], peer.stream, WithPeer(inbound, peer));
    } else {
      assert PacketEvents(packet) + [] == PacketEvents(packet);
    }
  }

  lemma WokenFeeds(ready: set<int>, inbound: map<int, seq<byte>>)
    ensures Feeds(inbound, [Woken(ready)], [], inbound)
  {
    FeedsTakes(inbound, [], [], inbound, Woken(ready), inbound);
  }

  /** What a round reads: nothing while it wakes, the peer's id, then one message per ready client. */
  lemma RoundFeeds(ready: set<int>, packet: Packet, peer: Incoming, in0: map<int, seq<byte>>,
                   served: seq<Event>, in1: map<int, seq<byte>>)
    requires packet.Packet? ==> Conforms(packet.datagram)
    requires peer.Peer? ==> Parse(peer.stream).Complete?
    requires Feeds(WithPeer(in0, peer), served, [], in1)
    ensures Feeds(in0, [Woken(ready)] + (PacketEvents(packet) + PeerEvents(peer)) + served, PeerStreams(peer), in1)
  {
    hide *;
    var sockets := PacketEvents(packet) + PeerEvents(peer);
    assert [] + PeerStreams(peer) == PeerStreams(peer) && PeerStreams(peer) + [] == PeerStreams(peer);
    WokenFeeds(ready, in0);
    SocketsFeed(in0, packet, peer);
    FeedsOn(in0, [Woken(ready)], [], in0, sockets, PeerStreams(peer), WithPeer(in0, peer));
    FeedsOn(in0, [Woken(ready)] + sockets, PeerStreams(peer), WithPeer(in0, peer), served, [], in1);
  }

  lemma WokenRun(out: map<int, seq<byte>>, st: ServerState, ready: set<int>)
    requires |st.pollFds| >= 3
    ensures Leads(st, out, [Woken(ready)], WakeStep(st, ready).state, out)
  {
    OneEvent(out, st, Woken(ready));
    assert Sent(out, map[]) == out;
  }

  lemma EmptyLeads(st: ServerState, out: map<int, seq<byte>>)
    ensures Leads(st, out, [], st, out)
  {
  }

  // ----- peers that terminate their texts

  /** Every message of the stream holds a text with its NUL. */
  ghost predicate Textual(stream: seq<byte>) {
    forall m :: m in ParseAll(stream) ==> 0 in m.payload
  }

  ghost predicate AllTextual(inbound: map<int, seq<byte>>) {
    forall fd :: fd in inbound ==> Textual(inbound[fd])
  }

  lemma TextualNext(stream: seq<byte>)
    requires Textual(stream)
    ensures match Parse(stream)
            case EndOfStream => true
            case Complete(m, rest) => 0 in m.payload && Textual(rest)
  {
    if Parse(stream).Complete? {
      var m, rest := Parse(stream).msg, Parse(stream).rest;
      assert ParseAll(stream) == [m] + ParseAll(rest);
      assert m in [m] + ParseAll(rest);
      assert forall x :: x in ParseAll(rest) ==> x in [m] + ParseAll(rest);
    }
  }

  lemma TextualConform(entries: seq<PollFd>, inbound: map<int, seq<byte>>)
    requires AllTextual(inbound)
    ensures RequestsConform(entries, inbound)
  {
    forall i | 0 <= i < |entries| && entries[i].fd in inbound
      ensures var p := Parse(StreamOf(inbound, entries[i].fd)); p.Complete? ==> 0 in p.msg.payload
    {
      TextualNext(inbound[entries[i].fd]);
    }
    hide AllTextual, Textual;
    assert Parse([]).EndOfStream?;
  }

  /** A pass leaves the streams textual. */
  lemma {:induction false} AllTextualAfter(entries: seq<PollFd>, inbound: map<int, seq<byte>>)
    requires AllTextual(inbound)
    ensures AllTextual(StreamsAfter(entries, inbound))
  {
    if entries == [] {
    } else {
      var last := entries[|entries| - 1];
      AllTextualAfter(entries[..|entries| - 1], inbound);
      var stream := StreamOf(inbound, last.fd);
      assert Textual([]);
      TextualNext(stream);
    }
  }

  // ----- the whole loop

  /** What one iteration finds: which descriptors are readable, what stdin and the two server sockets hold. */
  datatype Input = Input(ready: set<int>, exitCommand: bool, packet: Packet, caller: Caller)

  /** A peer that waits to be accepted and what it writes. */
  datatype Caller = NoCaller | Caller(stream: seq<byte>)

  ghost predicate InputConforms(input: Input) {
    && (input.packet.Packet? ==> Conforms(input.packet.datagram))
    && (input.caller.Caller? ==> Parse(input.caller.stream).Complete? && Textual(input.caller.stream))
  }

  ghost predicate InputsConform(inputs: seq<Input>) {
    forall i :: 0 <= i < |inputs| ==> InputConforms(inputs[i])
  }

  /** What some iterations have done: the events, the streams of the peers accepted, and what is left to read. */
  datatype Trace = Trace(evs: seq<Event>, streams: seq<seq<byte>>, inbound: map<int, seq<byte>>)

  /** The caller is accepted at a descriptor that is free in this state. */
  ghost predicate Admits(st: ServerState, caller: Caller, peer: Incoming) {
    match caller
    case NoCaller => peer == NoPeer
    case Caller(stream) => peer.Peer? && peer.stream == stream && 0 <= peer.fd && peer.fd !in Fds(st.pollFds)
  }

  /** The events of one more iteration, with the server in the state `now`. */
  ghost function NextEvents(before: Trace, now: ServerState, input: Input, peer: Incoming): seq<Event>
    requires InputConforms(input) && |now.pollFds| >= 3 && Admits(now, input.caller, peer)
  {
    RoundEvents(now.pollFds, input.ready, input.exitCommand, input.packet, peer, before.inbound)
  }

  ghost function NextTrace(before: Trace, now: ServerState, input: Input, peer: Incoming): Trace
    requires InputConforms(input) && |now.pollFds| >= 3 && Admits(now, input.caller, peer)
  {
    Trace(before.evs + NextEvents(before, now, input, peer),
          before.streams + (if input.exitCommand then [] else PeerStreams(peer)),
          if input.exitCommand then before.inbound
          else StreamsAfter(Flagged(now.pollFds, input.ready)[3..], WithPeer(before.inbound, peer)))
  }

  lemma RoundIsNext(before: Trace, now: ServerState, input: Input, peer: Incoming)
    requires InputConforms(input) && |now.pollFds| >= 3 && Admits(now, input.caller, peer)
    ensures peer.Peer? ==> Parse(peer.stream).Complete?
    ensures input.packet.Packet? ==> Conforms(input.packet.datagram)
    ensures |Flagged(now.pollFds, input.ready)| >= 3
    ensures NextEvents(before, now, input, peer)
            == RoundEvents(now.pollFds, input.ready, input.exitCommand, input.packet, peer, before.inbound)
    ensures NextTrace(before, now, input, peer).inbound ==
            if input.exitCommand then before.inbound
            else StreamsAfter(Flagged(now.pollFds, input.ready)[3..], WithPeer(before.inbound, peer))
  {
  }

  /** One more iteration, in the state that the iterations before it have reached. */
  ghost predicate RoundOn(st: ServerState, before: Trace, input: Input, peer: Incoming, after: Trace)
    requires InputConforms(input)
  {
    var now := Final(st, before.evs);
    |now.pollFds| >= 3 && Admits(now, input.caller, peer) && after == NextTrace(before, now, input, peer)
  }

  /** All these iterations, from a state and its input streams on. */
  ghost predicate LoopOf(st: ServerState, in0: map<int, seq<byte>>, inputs: seq<Input>, trace: Trace)
    requires InputsConform(inputs)
  {
    if inputs == [] then trace == Trace([], [], in0)
    else
      var init, last := inputs[..|inputs| - 1], inputs[|inputs| - 1];
      exists before, peer :: LoopOf(st, in0, init, before) && RoundOn(st, before, last, peer, trace)
  }

  lemma LoopOn(st: ServerState, in0: map<int, seq<byte>>, inputs: seq<Input>, before: Trace, input: Input,
               peer: Incoming, after: Trace)
    requires InputsConform(inputs) && InputConforms(input)
    requires LoopOf(st, in0, inputs, before) && RoundOn(st, before, input, peer, after)
    ensures InputsConform(inputs + [input]) && LoopOf(st, in0, inputs + [input], after)
  {
    hide RoundOn, InputConforms;
    var all := inputs + [input];
    assert all[..|all| - 1] == inputs && all[|all| - 1] == input;
    assert LoopOf(st, in0, all[..|all| - 1], before) && RoundOn(st, before, all[|all| - 1], peer, after);
  }

  /** The iterations lead from one state, its output and its input streams to others. */
  ghost predicate Reached(st: ServerState, out: map<int, seq<byte>>, in0: map<int, seq<byte>>, inputs: seq<Input>,
                          trace: Trace, now: ServerState, nowOut: map<int, seq<byte>>)
    requires InputsConform(inputs)
  {
    && LoopOf(st, in0, inputs, trace)
    && Leads(st, out, trace.evs, now, nowOut)
    && Feeds(in0, trace.evs, trace.streams, trace.inbound)
  }

  lemma ReachedStart(st: ServerState, out: map<int, seq<byte>>, in0: map<int, seq<byte>>)
    ensures Reached(st, out, in0, [], Trace([], [], in0), st, out)
  {
  }

  lemma ReachedParts(st: ServerState, out: map<int, seq<byte>>, in0: map<int, seq<byte>>, inputs: seq<Input>,
                     trace: Trace, now: ServerState, nowOut: map<int, seq<byte>>)
    requires InputsConform(inputs) && Reached(st, out, in0, inputs, trace, now, nowOut)
    ensures LoopOf(st, in0, inputs, trace) && Leads(st, out, trace.evs, now, nowOut)
    ensures Feeds(in0, trace.evs, trace.streams, trace.inbound)
  {
  }

  lemma ConformParts(inputs: seq<Input>)
    requires InputsConform(inputs)
    ensures InputsConform(inputs[..0]) && forall i :: 0 <= i < |inputs| ==> InputConforms(inputs[i])
  {
  }

  lemma ReachedOn(st: ServerState, out: map<int, seq<byte>>, in0: map<int, seq<byte>>, inputs: seq<Input>,
                  before: Trace, mid: ServerState, midOut: map<int, seq<byte>>, input: Input, peer: Incoming,
                  now: ServerState, nowOut: map<int, seq<byte>>)
    requires InputsConform(inputs) && InputConforms(input) && |mid.pollFds| >= 3 && Admits(mid, input.caller, peer)
    requires Reached(st, out, in0, inputs, before, mid, midOut)
    requires Leads(mid, midOut, NextEvents(before, mid, input, peer), now, nowOut)
    requires Feeds(before.inbound, NextEvents(before, mid, input, peer),
                   if input.exitCommand then [] else PeerStreams(peer), NextTrace(before, mid, input, peer).inbound)
    ensures InputsConform(inputs + [input])
    ensures Reached(st, out, in0, inputs + [input], NextTrace(before, mid, input, peer), now, nowOut)
  {
    var after, evs := NextTrace(before, mid, input, peer), NextEvents(before, mid, input, peer);
    assert mid == Final(st, before.evs);
    LoopOn(st, in0, inputs, before, input, peer, after);
    LeadsOn(st, out, before.evs, mid, midOut, evs, now, nowOut);
    FeedsOn(in0, before.evs, before.streams, before.inbound, evs, if input.exitCommand then [] else PeerStreams(peer),
            after.inbound);
    hide LoopOf, Leads, Feeds, NextEvents, Admits;
  }

  lemma NextTextual(before: Trace, now: ServerState, input: Input, peer: Incoming)
    requires InputConforms(input) && |now.pollFds| >= 3 && Admits(now, input.caller, peer)
    requires AllTextual(before.inbound)
    ensures AllTextual(NextTrace(before, now, input, peer).inbound)
  {
    if peer.Peer? { TextualNext(peer.stream); }
    AllTextualAfter(Flagged(now.pollFds, input.ready)[3..], WithPeer(before.inbound, peer));
  }

  lemma FreeDescriptor(open: set<int>)
    ensures exists fd :: 0 <= fd && fd !in open
  {
    assert Completeness.FirstUnused(open, 0) !in open;
  }

  // ----- which publications and peers the loop handles

  function PublishedIn(evs: seq<Event>): seq<Event> {
    if evs == [] then []
    else
      var last := evs[|evs| - 1];
      PublishedIn(evs[..|evs| - 1]) + if last.Published? then [last] else []
  }

  lemma {:induction false} PublishedInConcat(a: seq<Event>, b: seq<Event>)
    ensures PublishedIn(a + b) == PublishedIn(a) + PublishedIn(b)
    decreases |b|
  {
    if b == [] {
      assert a + b == a;
    } else {
      assert (a + b)[..|a + b| - 1] == a + b[..|b| - 1];
      PublishedInConcat(a, b[..|b| - 1]);
    }
  }

  lemma {:induction false} PassPublishesNothing(entries: seq<PollFd>, inbound: map<int, seq<byte>>)
    ensures PublishedIn(PassEvents(entries, inbound)) == []
  {
    if entries == [] {
    } else {
      var init, last := entries[..|entries| - 1], entries[|entries| - 1];
      PassPublishesNothing(init, inbound);
      PublishedInConcat(PassEvents(init, inbound), EventsOf(last, inbound));
    }
  }

  /** What a datagram calls for: nothing if its type is unknown, else one publication. */
  ghost function Announcement(packet: Packet): seq<Event>
    requires packet.Packet? ==> Conforms(packet.datagram)
  {
    match packet
    case NoPacket => []
    case Packet(sender, datagram) =>
      if TypeOf(datagram) > STRING then [] else [Published(TopicOf(datagram), Publication(sender, datagram))]
  }

  lemma PacketIsAnnounced(packet: Packet)
    requires packet.Packet? ==> Conforms(packet.datagram)
    ensures PacketEvents(packet) == Announcement(packet)
  {
  }

  /** The publications that the datagrams of the inputs call for; an exit command leaves its datagram unread. */
  ghost function PublicationsOf(inputs: seq<Input>): seq<Event>
    requires InputsConform(inputs)
  {
    if inputs == [] then []
    else
      var last := inputs[|inputs| - 1];
      PublicationsOf(inputs[..|inputs| - 1]) + if last.exitCommand then [] else Announcement(last.packet)
  }

  function StreamsOf(inputs: seq<Input>): seq<seq<byte>> {
    if inputs == [] then []
    else
      var last := inputs[|inputs| - 1];
      StreamsOf(inputs[..|inputs| - 1])
      + if last.exitCommand || last.caller.NoCaller? then [] else [last.caller.stream]
  }

  lemma OnePublished(ev: Event)
    ensures PublishedIn([ev]) == if ev.Published? then [ev] else []
  {
    assert [ev][..0] == [];
  }

  lemma SocketsPublish(packet: Packet, peer: Incoming)
    requires packet.Packet? ==> Conforms(packet.datagram)
    requires peer.Peer? ==> Parse(peer.stream).Complete?
    ensures PublishedIn(PacketEvents(packet) + PeerEvents(peer)) == PacketEvents(packet)
  {
    PublishedInConcat(PacketEvents(packet), PeerEvents(peer));
    if PacketEvents(packet) != [] { OnePublished(PacketEvents(packet)[0]); }
    if PeerEvents(peer) != [] { OnePublished(PeerEvents(peer)[0]); }
  }

  lemma RoundPublishes(pollFds: seq<PollFd>, ready: set<int>, stop: bool, packet: Packet, peer: Incoming,
                       inbound: map<int, seq<byte>>)
    requires |pollFds| >= 3
    requires packet.Packet? ==> Conforms(packet.datagram)
    requires peer.Peer? ==> Parse(peer.stream).Complete?
    ensures PublishedIn(RoundEvents(pollFds, ready, stop, packet, peer, inbound))
            == if stop then [] else PacketEvents(packet)
  {
    hide *;
    RoundEventsAre(pollFds, ready, stop, packet, peer, inbound);
    var served := PassEvents(Flagged(pollFds, ready)[3..], inbound);
    var sockets := PacketEvents(packet) + PeerEvents(peer);
    OnePublished(Woken(ready));
    SocketsPublish(packet, peer);
    PassPublishesNothing(Flagged(pollFds, ready)[3..], inbound);
    PublishedInConcat([Woken(ready)], sockets);
    PublishedInConcat([Woken(ready)] + sockets, served);
  }

  /** The loop publishes every datagram of a known type once and in order, and accepts every caller in order. */
  lemma {:induction false} LoopHandles(st: ServerState, in0: map<int, seq<byte>>, inputs: seq<Input>, trace: Trace)
    requires InputsConform(inputs) && LoopOf(st, in0, inputs, trace)
    ensures PublishedIn(trace.evs) == PublicationsOf(inputs) && trace.streams == StreamsOf(inputs)
    decreases |inputs|
  {
    if inputs == [] {
    } else {
      var init, last := inputs[..|inputs| - 1], inputs[|inputs| - 1];
      assert InputConforms(last);
      var before, peer :| LoopOf(st, in0, init, before) && RoundOn(st, before, last, peer, trace);
      LoopHandles(st, in0, init, before);
      var pollFds := Final(st, before.evs).pollFds;
      var round := RoundEvents(pollFds, last.ready, last.exitCommand, last.packet, peer, before.inbound);
      RoundPublishes(pollFds, last.ready, last.exitCommand, last.packet, peer, before.inbound);
      PacketIsAnnounced(last.packet);
      PublishedInConcat(before.evs, round);
    }
  }

  // ----- what the loop does to the connections

  ghost predicate Served(st: ServerState, evs: seq<Event>, nowOut: map<int, seq<byte>>, in0: map<int, seq<byte>>,
                         streams: seq<seq<byte>>, in1: map<int, seq<byte>>, id: string, fd: int) {
    var acts := ActsOf(st, evs, id);
    && fd in nowOut && nowOut[fd] == Stream(PresentMessages(acts))
    && PresentRequests(acts) + RequestsIn(ParseAll(StreamOf(in1, fd)))
       == RequestsIn(ParseAll(WrittenSince(in0, evs, streams, fd)))
  }

  /**
   After any number of iterations: the bytes written to a connected client are the frames of
   the messages its history calls for since it connected, and the requests in that history,
   followed by those still unread, are those that its peer writes.
   */
  lemma LoopServes(st: ServerState, out: map<int, seq<byte>>, evs: seq<Event>, now: ServerState,
                   nowOut: map<int, seq<byte>>, in0: map<int, seq<byte>>, streams: seq<seq<byte>>,
                   in1: map<int, seq<byte>>, id: string)
    requires Prepared(st) && Leads(st, out, evs, now, nowOut) && Feeds(in0, evs, streams, in1) && Online(now, id)
    ensures Served(st, evs, nowOut, in0, streams, in1, id, now.clients[id].currFd)
  {
    WireMatchesHistory(st, out, evs, id);
    InputMatchesHistory(st, evs, in0, streams, in1, id);
  }

  lemma AllServed(st: ServerState, out: map<int, seq<byte>>, evs: seq<Event>, now: ServerState,
                  nowOut: map<int, seq<byte>>, in0: map<int, seq<byte>>, streams: seq<seq<byte>>,
                  in1: map<int, seq<byte>>)
    requires Prepared(st) && Leads(st, out, evs, now, nowOut) && Feeds(in0, evs, streams, in1)
    ensures now == Final(st, evs) && |now.pollFds| >= 3 && now.pollFds[0].fd == st.pollFds[0].fd
    ensures forall id :: Online(now, id) ==>
              Served(st, evs, nowOut, in0, streams, in1, id, now.clients[id].currFd)
  {
    RunKeepsFixed(st, evs, 0);
    forall id | Online(now, id) ensures Served(st, evs, nowOut, in0, streams, in1, id, now.clients[id].currFd) {
      LoopServes(st, out, evs, now, nowOut, in0, streams, in1, id);
    }
  }
}
