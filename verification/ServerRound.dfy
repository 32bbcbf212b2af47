/**
 What one pass over the ready client sockets does, as a sequence of events, and the bytes
 that events write and read.
 */
module ServerRound {
  import opened Wire
  import opened ServerModel
  import opened ClientHistory

  /** The output streams after one message was written to each descriptor in `sends`. */
  ghost function Sent(out: map<int, seq<byte>>, sends: map<int, Message>): map<int, seq<byte>> {
    map fd | fd in out :: if fd in sends then out[fd] + Frame(sends[fd]) else out[fd]
  }

  /** A fresh connection starts with an empty stream, whatever its descriptor was used for before. */
  ghost function Traffic(out: map<int, seq<byte>>, st: ServerState, evs: seq<Event>): map<int, seq<byte>> {
    if evs == [] then out
    else
      var init, last := evs[..|evs| - 1], evs[|evs| - 1];
      var before := Traffic(out, st, init);
      Sent(if last.Accepted? then before[last.fd := []] else before, Step(Final(st, init), last).sends)
  }

  lemma EventsSnoc(out: map<int, seq<byte>>, st: ServerState, evs: seq<Event>, ev: Event)
    requires !ev.Accepted?
    ensures Final(st, evs + [ev]) == Step(Final(st, evs), ev).state
    ensures Legal(st, evs + [ev]) <==> Legal(st, evs) && Enabled(Final(st, evs), ev)
    ensures Traffic(out, st, evs + [ev]) == Sent(Traffic(out, st, evs), Step(Final(st, evs), ev).sends)
  {
    assert (evs + [ev])[..|evs|] == evs;
  }

  // ----- the pass over the client entries

  function StreamOf(inbound: map<int, seq<byte>>, fd: int): seq<byte> {
    if fd in inbound then inbound[fd] else []
  }

  /** What receiving on a descriptor turns out to be. */
  function EventOn(fd: int, stream: seq<byte>): Event {
    match Parse(stream)
    case EndOfStream => Closed(fd)
    case Complete(m, _) => Requested(fd, m.command, CString(m.payload))
  }

  function Hangs(e: PollFd, inbound: map<int, seq<byte>>): bool {
    e.readable && Parse(StreamOf(inbound, e.fd)).EndOfStream?
  }

  function EventsOf(e: PollFd, inbound: map<int, seq<byte>>): seq<Event> {
    if e.readable then [EventOn(e.fd, StreamOf(inbound, e.fd))] else []
  }

  /** Each entry that was ready is served once, in the order of the vector. */
  function PassEvents(entries: seq<PollFd>, inbound: map<int, seq<byte>>): seq<Event> {
    if entries == [] then []
    else
      var last := entries[|entries| - 1];
      PassEvents(entries[..|entries| - 1], inbound) + EventsOf(last, inbound)
  }

  /** The entries whose peer has not gone, in their old order. */
  function Survivors(entries: seq<PollFd>, inbound: map<int, seq<byte>>): seq<PollFd> {
    if entries == [] then []
    else
      var last := entries[|entries| - 1];
      Survivors(entries[..|entries| - 1], inbound) + if Hangs(last, inbound) then [] else [last]
  }

  /** One message is taken off the stream of each entry that was ready. */
  function StreamsAfter(entries: seq<PollFd>, inbound: map<int, seq<byte>>): map<int, seq<byte>> {
    if entries == [] then inbound
    else
      var last := entries[|entries| - 1];
      var before := StreamsAfter(entries[..|entries| - 1], inbound);
      if !last.readable then before
      else match Parse(StreamOf(inbound, last.fd))
        case EndOfStream => before[last.fd := []]
        case Complete(_, rest) => before[last.fd := rest]
  }

  lemma {:induction false} StreamsAfterKeeps(entries: seq<PollFd>, inbound: map<int, seq<byte>>)
    ensures inbound.Keys <= StreamsAfter(entries, inbound).Keys
    ensures forall fd :: fd in inbound && fd !in Fds(entries) ==> StreamsAfter(entries, inbound)[fd] == inbound[fd]
  {
    if entries == [] {
    } else {
      var init, last := entries[..|entries| - 1], entries[|entries| - 1];
      StreamsAfterKeeps(init, inbound);
      assert entries == init + [last];
      FdsConcat(init, [last]);
      assert last in [last];
    }
  }

  lemma DistinctBefore(entries: seq<PollFd>, v: nat)
    requires DistinctFds(entries) && v < |entries|
    ensures entries[v].fd !in Fds(entries[..v])
  {
  }

  lemma DistinctSuffix(s: seq<PollFd>, k: nat)
    requires DistinctFds(s) && k <= |s|
    ensures DistinctFds(s[k..])
  {
    forall i, j | 0 <= i < j < |s[k..]| ensures s[k..][i].fd != s[k..][j].fd {
      assert s[i + k].fd != s[j + k].fd;
    }
  }

  /** What a pass has done so far is not seen on the stream of the next entry. */
  lemma NextStream(entries: seq<PollFd>, inbound: map<int, seq<byte>>, v: nat)
    requires DistinctFds(entries) && v < |entries| && entries[v].fd in inbound
    ensures StreamOf(StreamsAfter(entries[..v], inbound), entries[v].fd) == StreamOf(inbound, entries[v].fd)
  {
    DistinctBefore(entries, v);
    StreamsAfterKeeps(entries[..v], inbound);
  }

  /** One more entry of the pass. */
  lemma PassSnoc(entries: seq<PollFd>, inbound: map<int, seq<byte>>, v: nat)
    requires v < |entries|
    ensures PassEvents(entries[..v + 1], inbound) == PassEvents(entries[..v], inbound) + EventsOf(entries[v], inbound)
    ensures Survivors(entries[..v + 1], inbound)
            == Survivors(entries[..v], inbound) + if Hangs(entries[v], inbound) then [] else [entries[v]]
    ensures !entries[v].readable ==> StreamsAfter(entries[..v + 1], inbound) == StreamsAfter(entries[..v], inbound)
    ensures DistinctFds(entries) && entries[v].fd in inbound && entries[v].readable ==>
              StreamsAfter(entries[..v + 1], inbound)
              == StreamsAfter([PollFd(entries[v].fd, true)], StreamsAfter(entries[..v], inbound))
  {
    var e := entries[v];
    assert entries[..v + 1][..v] == entries[..v] && entries[..v + 1][v] == e;
    if DistinctFds(entries) && e.fd in inbound && e.readable {
      NextStream(entries, inbound, v);
      var one := [PollFd(e.fd, true)];
      assert one[..0] == [];
    }
  }

  /** Serving the entry at a position erases that entry or nothing. */
  lemma PassStep(st: ServerState, it: nat, ev: Event)
    requires Inv(st) && 3 <= it < |st.pollFds|
    requires ev == Closed(st.pollFds[it].fd) || (ev.Requested? && ev.fd == st.pollFds[it].fd)
    ensures Enabled(st, ev) && Inv(Step(st, ev).state)
    ensures Step(st, ev).state.pollFds ==
            if ev.Closed? then st.pollFds[..it] + st.pollFds[it + 1..] else st.pollFds
  {
    var fd := st.pollFds[it].fd;
    assert st.pollFds[3..][it - 3].fd == fd;
    assert st.pollFds[3..][it - 3] in st.pollFds[3..];
    StepKeepsInv(st, ev);
    HolderExists(st, fd);
    if ev.Closed? {
      var k := ClientErased(st, fd);
      assert k == it;
    }
  }

  /** Serving the next entry: the state, and the vector around the iterator. */
  lemma PassNext(st: ServerState, front: seq<PollFd>, last: PollFd, rest: seq<PollFd>, inbound: map<int, seq<byte>>)
    requires Inv(st) && st.pollFds == front + [last] + rest && |front| >= 3 && last.readable
    ensures var ev := EventOn(last.fd, StreamOf(inbound, last.fd));
            && Enabled(st, ev) && Inv(Step(st, ev).state)
            && Step(st, ev).state.pollFds == front + (if Hangs(last, inbound) then [] else [last]) + rest
  {
    var ev := EventOn(last.fd, StreamOf(inbound, last.fd));
    PassStep(st, |front|, ev);
    assert st.pollFds[..|front|] == front && st.pollFds[|front| + 1..] == rest;
    assert front + [] == front;
  }

  /** A legal run leads to a good state with this vector. */
  ghost predicate Reaches(st: ServerState, evs: seq<Event>, vector: seq<PollFd>) {
    Legal(st, evs) && Inv(Final(st, evs)) && Final(st, evs).pollFds == vector
  }

  lemma ReachesNext(st: ServerState, evs: seq<Event>, front: seq<PollFd>, last: PollFd, rest: seq<PollFd>,
                    inbound: map<int, seq<byte>>)
    requires |front| >= 3 && Reaches(st, evs, front + [last] + rest)
    ensures Reaches(st, evs + EventsOf(last, inbound), front + (if Hangs(last, inbound) then [] else [last]) + rest)
  {
    if last.readable {
      PassNext(Final(st, evs), front, last, rest, inbound);
      EventsSnoc(map[], st, evs, EventOn(last.fd, StreamOf(inbound, last.fd)));
    } else {
      assert evs + [] == evs;
    }
  }

  /**
   Serving a stretch of entries: every event is legal, every entry that was ready is served
   once, and the stretch shrinks to its survivors in their old order.
   */
  lemma {:induction false} PassResult(st: ServerState, front: seq<PollFd>, entries: seq<PollFd>, rest: seq<PollFd>,
                                      inbound: map<int, seq<byte>>)
    requires Inv(st) && |front| >= 3 && st.pollFds == front + entries + rest
    ensures Reaches(st, PassEvents(entries, inbound), front + Survivors(entries, inbound) + rest)
  {
    if entries == [] {
      assert front + [] + rest == front + entries + rest;
    } else {
      var init, last := entries[..|entries| - 1], entries[|entries| - 1];
      var evs, kept := PassEvents(init, inbound), Survivors(init, inbound);
      assert front + entries + rest == front + init + ([last] + rest);
      PassResult(st, front, init, [last] + rest, inbound);
      assert front + kept + ([last] + rest) == front + kept + [last] + rest;
      ReachesNext(st, evs, front + kept, last, rest, inbound);
      assert front + (kept + if Hangs(last, inbound) then [] else [last])
             == front + kept + if Hangs(last, inbound) then [] else [last];
    }
  }

  // ----- the loop that erases while it iterates

  /** Requests that are ready come from peers that end their topics with a NUL. */
  ghost predicate RequestsConform(entries: seq<PollFd>, inbound: map<int, seq<byte>>) {
    forall i :: 0 <= i < |entries| && entries[i].readable ==>
      var p := Parse(StreamOf(inbound, entries[i].fd)); p.Complete? ==> 0 in p.msg.payload
  }

  /**
   The pass has visited the first `v` entries that were there at its start, and the iterator
   stands at position `it` of the vector as it is now.
   */
  ghost predicate Progress(st: ServerState, out: map<int, seq<byte>>, inbound: map<int, seq<byte>>, v: nat,
                           it: nat, now: ServerState, nowOut: map<int, seq<byte>>, nowIn: map<int, seq<byte>>)
    requires |st.pollFds| >= 3
  {
    var entries := st.pollFds[3..];
    && v <= |entries|
    && it == 3 + |Survivors(entries[..v], inbound)|
    && now.pollFds == st.pollFds[..3] + Survivors(entries[..v], inbound) + entries[v..]
    && now == Final(st, PassEvents(entries[..v], inbound))
    && nowOut == Traffic(out, st, PassEvents(entries[..v], inbound))
    && nowIn == StreamsAfter(entries[..v], inbound)
  }

  lemma ProgressStart(st: ServerState, out: map<int, seq<byte>>, inbound: map<int, seq<byte>>)
    requires |st.pollFds| >= 3
    ensures Progress(st, out, inbound, 0, 3, st, out, inbound)
  {
    var entries := st.pollFds[3..];
    assert entries[..0] == [] && entries[0..] == entries;
    assert st.pollFds == st.pollFds[..3] + [] + entries;
  }

  /** At the end every entry has been visited. */
  lemma ProgressEnd(st: ServerState, out: map<int, seq<byte>>, inbound: map<int, seq<byte>>, v: nat,
                    it: nat, now: ServerState, nowOut: map<int, seq<byte>>, nowIn: map<int, seq<byte>>)
    requires |st.pollFds| >= 3
    requires Progress(st, out, inbound, v, it, now, nowOut, nowIn) && it >= |now.pollFds|
    ensures var entries := st.pollFds[3..];
            && now.pollFds == st.pollFds[..3] + Survivors(entries, inbound)
            && now == Final(st, PassEvents(entries, inbound))
            && nowOut == Traffic(out, st, PassEvents(entries, inbound))
            && nowIn == StreamsAfter(entries, inbound)
  {
    var entries := st.pollFds[3..];
    assert v == |entries| && entries[..v] == entries && entries[v..] == [];
    assert st.pollFds[..3] + Survivors(entries, inbound) + [] == st.pollFds[..3] + Survivors(entries, inbound);
  }

  /** The entry under the iterator is the next one that was there, with its stream untouched. */
  lemma ProgressNext(st: ServerState, out: map<int, seq<byte>>, inbound: map<int, seq<byte>>, v: nat,
                     it: nat, now: ServerState, nowOut: map<int, seq<byte>>, nowIn: map<int, seq<byte>>)
    requires Inv(st) && ConnectedFds(st) <= inbound.Keys
    requires Progress(st, out, inbound, v, it, now, nowOut, nowIn) && it < |now.pollFds|
    ensures 3 <= it && v < |st.pollFds[3..]| && now.pollFds[it] == st.pollFds[3..][v]
    ensures StreamOf(nowIn, now.pollFds[it].fd) == StreamOf(inbound, now.pollFds[it].fd)
    ensures st.pollFds[3..][v].fd in inbound
  {
    var entries := st.pollFds[3..];
    DistinctSuffix(st.pollFds, 3);
    assert entries[v] in entries;
    assert entries[v].fd in ConnectedFds(st);
    NextStream(entries, inbound, v);
  }

  lemma SkippedEntry(front: seq<PollFd>, entries: seq<PollFd>, inbound: map<int, seq<byte>>, v: nat)
    requires v < |entries| && !entries[v].readable
    ensures PassEvents(entries[..v + 1], inbound) == PassEvents(entries[..v], inbound)
    ensures Survivors(entries[..v + 1], inbound) == Survivors(entries[..v], inbound) + [entries[v]]
    ensures StreamsAfter(entries[..v + 1], inbound) == StreamsAfter(entries[..v], inbound)
    ensures front + Survivors(entries[..v], inbound) + entries[v..]
            == front + Survivors(entries[..v + 1], inbound) + entries[v + 1..]
  {
    PassSnoc(entries, inbound, v);
    var evs, kept := PassEvents(entries[..v], inbound), Survivors(entries[..v], inbound);
    assert evs + [] == evs;
    hide PassEvents, Survivors, StreamsAfter;
    assert entries[v..] == [entries[v]] + entries[v + 1..];
    assert front + kept + entries[v..] == front + (kept + [entries[v]]) + entries[v + 1..];
  }

  /** An entry that was not ready is passed over. */
  lemma ProgressSkipped(st: ServerState, out: map<int, seq<byte>>, inbound: map<int, seq<byte>>, v: nat,
                        it: nat, now: ServerState, nowOut: map<int, seq<byte>>, nowIn: map<int, seq<byte>>)
    requires Inv(st) && ConnectedFds(st) <= inbound.Keys
    requires Progress(st, out, inbound, v, it, now, nowOut, nowIn) && it < |now.pollFds| && !now.pollFds[it].readable
    ensures Progress(st, out, inbound, v + 1, it + 1, now, nowOut, nowIn)
  {
    var entries := st.pollFds[3..];
    ProgressNext(st, out, inbound, v, it, now, nowOut, nowIn);
    hide Inv, ConnectedFds, Fds, StreamOf, Final, Traffic;
    SkippedEntry(st.pollFds[..3], entries, inbound, v);
  }

  lemma HangsIsClosed(e: PollFd, inbound: map<int, seq<byte>>)
    requires e.readable
    ensures Hangs(e, inbound) <==> EventOn(e.fd, StreamOf(inbound, e.fd)).Closed?
    ensures !EventOn(e.fd, StreamOf(inbound, e.fd)).Accepted?
  {
  }

  lemma ServedVector(front: seq<PollFd>, entries: seq<PollFd>, v: nat, now: ServerState, inbound: map<int, seq<byte>>)
    requires Inv(now) && |front| >= 3 && v < |entries| && entries[v].readable
    requires now.pollFds == front + Survivors(entries[..v], inbound) + entries[v..]
    ensures Step(now, EventOn(entries[v].fd, StreamOf(inbound, entries[v].fd))).state.pollFds
            == front + Survivors(entries[..v + 1], inbound) + entries[v + 1..]
  {
    var e, rest := entries[v], entries[v + 1..];
    var kept := front + Survivors(entries[..v], inbound);
    assert entries[v..] == [e] + rest;
    assert now.pollFds == kept + [e] + rest;
    PassNext(now, kept, e, rest, inbound);
    PassSnoc(entries, inbound, v);
    assert kept + (if Hangs(e, inbound) then [] else [e]) == front + Survivors(entries[..v + 1], inbound);
  }

  /** A ready entry is served; the iterator moves on unless the entry was erased. */
  lemma ProgressServed(st: ServerState, out: map<int, seq<byte>>, inbound: map<int, seq<byte>>, v: nat,
                       it: nat, now: ServerState, nowOut: map<int, seq<byte>>, nowIn: map<int, seq<byte>>)
    requires Inv(st) && Inv(now) && ConnectedFds(st) <= inbound.Keys
    requires Progress(st, out, inbound, v, it, now, nowOut, nowIn) && it < |now.pollFds| && now.pollFds[it].readable
    ensures var fd := now.pollFds[it].fd;
            var ev := EventOn(fd, StreamOf(nowIn, fd));
            Progress(st, out, inbound, v + 1, if ev.Closed? then it else it + 1,
                     Step(now, ev).state, Sent(nowOut, Step(now, ev).sends),
                     StreamsAfter([PollFd(fd, true)], nowIn))
  {
    var entries := st.pollFds[3..];
    ProgressNext(st, out, inbound, v, it, now, nowOut, nowIn);
    DistinctSuffix(st.pollFds, 3);
    ServedVector(st.pollFds[..3], entries, v, now, inbound);
    hide Inv, Step, Hangs, Sent;
    PassSnoc(entries, inbound, v);
    var evs, e := PassEvents(entries[..v], inbound), entries[v];
    var ev := EventOn(e.fd, StreamOf(inbound, e.fd));
    assert PassEvents(entries[..v + 1], inbound) == evs + [ev];
    EventsSnoc(out, st, evs, ev);
    HangsIsClosed(e, inbound);
  }

  // ----- one iteration of the server's main loop

  lemma {:induction false} FinalConcat(out: map<int, seq<byte>>, st: ServerState, a: seq<Event>, b: seq<Event>)
    ensures Final(st, a + b) == Final(Final(st, a), b)
    ensures Traffic(out, st, a + b) == Traffic(Traffic(out, st, a), Final(st, a), b)
    ensures Legal(st, a + b) <==> Legal(st, a) && Legal(Final(st, a), b)
    decreases |b|
  {
    if b == [] {
      assert a + b == a;
    } else {
      var init := b[..|b| - 1];
      FinalConcat(out, st, a, init);
      assert (a + b)[..|a + b| - 1] == a + init;
      assert (a + b)[|a + b| - 1] == b[|b| - 1];
    }
  }

  /** These events are legal and lead from one state and its output streams to the other. */
  ghost predicate Leads(st: ServerState, out: map<int, seq<byte>>, evs: seq<Event>,
                        now: ServerState, nowOut: map<int, seq<byte>>) {
    Legal(st, evs) && now == Final(st, evs) && nowOut == Traffic(out, st, evs)
  }

  lemma LeadsOn(st: ServerState, out: map<int, seq<byte>>, a: seq<Event>, mid: ServerState, midOut: map<int, seq<byte>>,
                b: seq<Event>, now: ServerState, nowOut: map<int, seq<byte>>)
    requires Leads(st, out, a, mid, midOut) && Leads(mid, midOut, b, now, nowOut)
    ensures Leads(st, out, a + b, now, nowOut)
  {
    FinalConcat(out, st, a, b);
  }

  lemma {:induction false} PassIgnoresOthers(entries: seq<PollFd>, inbound: map<int, seq<byte>>, fd: int,
                                             stream: seq<byte>)
    requires fd !in Fds(entries)
    ensures PassEvents(entries, inbound[fd := stream]) == PassEvents(entries, inbound)
  {
    if entries == [] {
    } else {
      var init, last := entries[..|entries| - 1], entries[|entries| - 1];
      assert last in entries;
      assert Fds(init) <= Fds(entries) by { assert forall e :: e in init ==> e in entries; }
      PassIgnoresOthers(init, inbound, fd, stream);
    }
  }

  /** A client accepted in this round enters the vector unready: nothing is received from it before the next poll. */
  lemma AcceptedNotServed(entries: seq<PollFd>, inbound: map<int, seq<byte>>, fd: int, stream: seq<byte>)
    requires fd !in Fds(entries)
    ensures PassEvents(entries + [PollFd(fd, false)], inbound[fd := stream]) == PassEvents(entries, inbound)
    ensures StreamsAfter(entries + [PollFd(fd, false)], inbound[fd := stream])
            == StreamsAfter(entries, inbound[fd := stream])
  {
    PassIgnoresOthers(entries, inbound, fd, stream);
    var all := entries + [PollFd(fd, false)];
    assert all[..|entries|] == entries && all[|entries|] == PollFd(fd, false);
  }

  lemma OneEvent(out: map<int, seq<byte>>, st: ServerState, ev: Event)
    ensures Final(st, [ev]) == Step(st, ev).state
    ensures Legal(st, [ev]) <==> Enabled(st, ev)
    ensures Traffic(out, st, [ev]) == Sent(if ev.Accepted? then out[ev.fd := []] else out, Step(st, ev).sends)
  {
    assert [ev][..0] == [];
  }

  lemma StillConform(entries: seq<PollFd>, inbound: map<int, seq<byte>>, fd: int, stream: seq<byte>)
    requires fd !in Fds(entries)
    ensures RequestsConform(entries, inbound) ==>
              && RequestsConform(entries, inbound[fd := stream])
              && RequestsConform(entries + [PollFd(fd, false)], inbound[fd := stream])
  {
    forall i | 0 <= i < |entries| ensures entries[i].fd != fd { assert entries[i] in entries; }
    hide Parse;
  }

  /** The entries and streams that the pass finds after a connection request was handled. */
  lemma AcceptedPass(st: ServerState, fd: int, id: string, inbound: map<int, seq<byte>>, stream: seq<byte>)
    requires Inv(st) && Enabled(st, Accepted(fd, id))
    ensures var next := AcceptStep(st, fd, id).state;
            && |next.pollFds| >= 3
            && PassEvents(next.pollFds[3..], inbound[fd := stream]) == PassEvents(st.pollFds[3..], inbound)
            && StreamsAfter(next.pollFds[3..], inbound[fd := stream])
               == StreamsAfter(st.pollFds[3..], inbound[fd := stream])
            && (RequestsConform(st.pollFds[3..], inbound) ==>
                RequestsConform(next.pollFds[3..], inbound[fd := stream]))
  {
    var entries, next := st.pollFds[3..], AcceptStep(st, fd, id).state;
    assert st.pollFds == st.pollFds[..3] + entries;
    FdsConcat(st.pollFds[..3], entries);
    if Online(st, id) {
      PassIgnoresOthers(entries, inbound, fd, stream);
    } else {
      assert next.pollFds[3..] == entries + [PollFd(fd, false)];
      AcceptedNotServed(entries, inbound, fd, stream);
    }
    hide Inv;
    StillConform(entries, inbound, fd, stream);
  }

  /** A whole pass is legal. */
  lemma PassLegal(st: ServerState, inbound: map<int, seq<byte>>)
    requires Inv(st)
    ensures Legal(st, PassEvents(st.pollFds[3..], inbound))
  {
    var front, entries := st.pollFds[..3], st.pollFds[3..];
    assert st.pollFds == front + entries + [];
    PassResult(st, front, entries, [], inbound);
  }

  // ----- the bytes of a connection

  /** The messages of a history that belong to the client's present connection. */
  ghost function PresentMessages(acts: seq<Act>): seq<Message> {
    if acts == [] then []
    else
      var init, last := acts[..|acts| - 1], acts[|acts| - 1];
      if last.Connect? && !ConnectedAfter(init) then Reaction(init, last)
      else PresentMessages(init) + Reaction(init, last)
  }

  /** A client that stays connected keeps its descriptor. */
  lemma KeepsFd(st: ServerState, ev: Event, id: string)
    requires Inv(st) && Enabled(st, ev) && Online(Step(st, ev).state, id)
    requires !(ev.Accepted? && ev.id == id && !Online(st, id))
    ensures Online(st, id) && Step(st, ev).state.clients[id].currFd == st.clients[id].currFd
    ensures ev.Accepted? ==> st.clients[id].currFd != ev.fd
  {
    match ev
    case Woken(_) =>
    case Accepted(fd, other) => if Online(st, id) { FreshFd(st, fd, id); }
    case Closed(fd) => HolderExists(st, fd);
    case Requested(fd, _, _) => HolderExists(st, fd);
    case Published(_, _) =>
  }

  lemma OneMessage(m: Message)
    ensures Stream([m]) == Frame(m)
  {
    assert [m][1..] == [];
    assert Stream([m]) == Frame(m) + Stream([]);
  }

  lemma PresentMore(acts: seq<Act>, a: seq<Act>, delivered: seq<Message>)
    requires |a| <= 1 && delivered == if a == [] then [] else Reaction(acts, a[0])
    requires a == [] || !(a[0].Connect? && !ConnectedAfter(acts))
    ensures PresentMessages(acts + a) == PresentMessages(acts) + delivered
  {
    if a == [] {
      assert acts + a == acts;
    } else {
      assert (acts + a)[..|acts|] == acts;
    }
  }

  lemma SentAt(out: map<int, seq<byte>>, sends: map<int, Message>, fd: int, ms: seq<Message>)
    requires fd in out && out[fd] == Stream(ms)
    ensures Sent(out, sends)[fd] == Stream(ms + if fd in sends then [sends[fd]] else [])
  {
    if fd in sends {
      StreamSnoc(ms, sends[fd]);
    } else {
      assert ms + [] == ms;
    }
  }

  /** One event, on the output stream of a client that is connected after it. */
  lemma WireStep(st: ServerState, out: map<int, seq<byte>>, ev: Event, id: string, acts: seq<Act>)
    requires Inv(st) && Enabled(st, ev) && Agrees(st, id, acts)
    requires Online(st, id) ==> st.clients[id].currFd in out
                                && out[st.clients[id].currFd] == Stream(PresentMessages(acts))
    requires Online(Step(st, ev).state, id)
    ensures var fd := Step(st, ev).state.clients[id].currFd;
            var after := Sent(if ev.Accepted? then out[ev.fd := []] else out, Step(st, ev).sends);
            fd in after && after[fd] == Stream(PresentMessages(acts + ActOf(st, ev, id)))
  {
    StepRefines(st, ev, id, acts);
    var a, delivered := ActOf(st, ev, id), Delivered(st, ev, id);
    if ev.Accepted? && ev.id == id && !Online(st, id) {
      OneMessage(Message(CONNECT_ACCEPTED, []));
      assert (acts + [Connect])[..|acts|] == acts;
      assert PresentMessages(acts + [Connect]) == [Message(CONNECT_ACCEPTED, [])];
    } else {
      KeepsFd(st, ev, id);
      var fd := st.clients[id].currFd;
      var base := if ev.Accepted? then out[ev.fd := []] else out;
      assert base[fd] == out[fd];
      assert delivered == if fd in Step(st, ev).sends then [Step(st, ev).sends[fd]] else [];
      assert a == [] || !(a[0].Connect? && !ConnectedAfter(acts));
      hide Inv, Enabled, Step, Agrees, ActOf, Delivered;
      PresentMore(acts, a, delivered);
      SentAt(base, Step(st, ev).sends, fd, PresentMessages(acts));
    }
  }

  /**
   On the wire: over every run from the prepared server, the bytes written to a connected
   client are the frames of exactly the messages its history calls for since it connected.
   */
  lemma {:induction false} WireMatchesHistory(st: ServerState, out: map<int, seq<byte>>, evs: seq<Event>, id: string)
    requires Prepared(st) && Legal(st, evs) && Online(Final(st, evs), id)
    ensures var fd, now := Final(st, evs).clients[id].currFd, Traffic(out, st, evs);
            fd in now && now[fd] == Stream(PresentMessages(ActsOf(st, evs, id)))
    decreases |evs|
  {
    if evs == [] {
    } else {
      var init, last := evs[..|evs| - 1], evs[|evs| - 1];
      RunRefines(st, init, id);
      if Online(Final(st, init), id) {
        WireMatchesHistory(st, out, init, id);
      }
      WireStep(Final(st, init), Traffic(out, st, init), last, id, ActsOf(st, init, id));
    }
  }
}
