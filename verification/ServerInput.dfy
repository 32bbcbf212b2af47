/**
 What a run of the server takes off its connections.  Each event consumes what it stands for:
 a connection request the id of its peer, a request one frame, an ended connection the rest.
 So the requests of a client are, in order, a beginning of what its peer wrote.
 */
module ServerInput {
  import opened Wire
  import opened ServerModel
  import opened ClientHistory
  import opened ServerRound

  /** The event takes one whole message, or the end of the stream, off the connection it is about. */
  ghost predicate Takes(in0: map<int, seq<byte>>, ev: Event, in1: map<int, seq<byte>>) {
    match ev
    case Woken(_) => in1 == in0
    case Published(_, _) => in1 == in0
    case Accepted(_, _) => false
    case Closed(fd) => fd in in0 && Parse(in0[fd]).EndOfStream? && in1 == in0[fd := []]
    case Requested(fd, command, topic) =>
      && fd in in0 && Parse(in0[fd]).Complete?
      && RequestOf(Parse(in0[fd]).msg) == Request(command, topic)
      && in1 == in0[fd := Parse(in0[fd]).rest]
  }

  /** A connection request: the peer writes `stream`, of which the first message is its id. */
  ghost predicate Opens(in0: map<int, seq<byte>>, ev: Event, stream: seq<byte>, in1: map<int, seq<byte>>) {
    && ev.Accepted? && Parse(stream).Complete?
    && ev.id == CString(Parse(stream).msg.payload)
    && in1 == in0[ev.fd := Parse(stream).rest]
  }

  /** These events read the input streams `in0` down to `in1`; `streams` are those of the accepted peers, in order. */
  ghost predicate Feeds(in0: map<int, seq<byte>>, evs: seq<Event>, streams: seq<seq<byte>>, in1: map<int, seq<byte>>) {
    if evs == [] then streams == [] && in1 == in0
    else
      var init, last := evs[..|evs| - 1], evs[|evs| - 1];
      if last.Accepted? then
        streams != [] &&
        var before, stream := streams[..|streams| - 1], streams[|streams| - 1];
        exists mid :: Feeds(in0, init, before, mid) && Opens(mid, last, stream, in1)
      else exists mid :: Feeds(in0, init, streams, mid) && Takes(mid, last, in1)
  }

  lemma FeedsTakes(in0: map<int, seq<byte>>, evs: seq<Event>, streams: seq<seq<byte>>, mid: map<int, seq<byte>>,
                   ev: Event, in1: map<int, seq<byte>>)
    requires Feeds(in0, evs, streams, mid) && Takes(mid, ev, in1)
    ensures Feeds(in0, evs + [ev], streams, in1)
  {
    assert (evs + [ev])[..|evs|] == evs;
  }

  lemma FeedsOpens(in0: map<int, seq<byte>>, evs: seq<Event>, streams: seq<seq<byte>>, mid: map<int, seq<byte>>,
                   ev: Event, stream: seq<byte>, in1: map<int, seq<byte>>)
    requires Feeds(in0, evs, streams, mid) && Opens(mid, ev, stream, in1)
    ensures Feeds(in0, evs + [ev], streams + [stream], in1)
  {
    var all, peers := evs + [ev], streams + [stream];
    assert all[..|all| - 1] == evs && all[|all| - 1] == ev;
    assert peers[..|peers| - 1] == streams && peers[|peers| - 1] == stream;
    assert Feeds(in0, all[..|all| - 1], peers[..|peers| - 1], mid);
    hide Parse;
  }

  /** Runs read one after the other. */
  lemma {:induction false} FeedsOn(in0: map<int, seq<byte>>, a: seq<Event>, s: seq<seq<byte>>, mid: map<int, seq<byte>>,
                                   b: seq<Event>, r: seq<seq<byte>>, in1: map<int, seq<byte>>)
    requires Feeds(in0, a, s, mid) && Feeds(mid, b, r, in1)
    ensures Feeds(in0, a + b, s + r, in1)
    decreases |b|
  {
    if b == [] {
      assert a + b == a && s + r == s;
    } else {
      var init, last := b[..|b| - 1], b[|b| - 1];
      assert a + b == a + init + [last];
      hide Takes, Opens;
      if last.Accepted? {
        var n := |r| - 1;
        var now :| Feeds(mid, init, r[..n], now) && Opens(now, last, r[n], in1);
        FeedsOn(in0, a, s, mid, init, r[..n], now);
        FeedsOpens(in0, a + init, s + r[..n], now, last, r[n], in1);
        assert s + r == s + r[..n] + [r[n]];
      } else {
        var now :| Feeds(mid, init, r, now) && Takes(now, last, in1);
        FeedsOn(in0, a, s, mid, init, r, now);
        FeedsTakes(in0, a + init, s + r, now, last, in1);
      }
    }
  }

  /** Events and peers together leave exactly one possible rest on every stream. */
  lemma {:induction false} FeedsDetermined(in0: map<int, seq<byte>>, evs: seq<Event>, streams: seq<seq<byte>>,
                                           a: map<int, seq<byte>>, b: map<int, seq<byte>>)
    requires Feeds(in0, evs, streams, a) && Feeds(in0, evs, streams, b)
    ensures a == b
  {
    if evs == [] {
    } else {
      var init, last := evs[..|evs| - 1], evs[|evs| - 1];
      if last.Accepted? {
        var n := |streams| - 1;
        var midA :| Feeds(in0, init, streams[..n], midA) && Opens(midA, last, streams[n], a);
        var midB :| Feeds(in0, init, streams[..n], midB) && Opens(midB, last, streams[n], b);
        FeedsDetermined(in0, init, streams[..n], midA, midB);
      } else {
        var midA :| Feeds(in0, init, streams, midA) && Takes(midA, last, a);
        var midB :| Feeds(in0, init, streams, midB) && Takes(midB, last, b);
        FeedsDetermined(in0, init, streams, midA, midB);
      }
    }
  }

  // ----- a pass reads what its events say

  lemma EntryTakes(e: PollFd, in0: map<int, seq<byte>>, mid: map<int, seq<byte>>)
    requires e.readable && e.fd in mid && StreamOf(mid, e.fd) == StreamOf(in0, e.fd)
    ensures Takes(mid, EventOn(e.fd, StreamOf(in0, e.fd)),
                  match Parse(StreamOf(in0, e.fd))
                  case EndOfStream => mid[e.fd := []]
                  case Complete(_, rest) => mid[e.fd := rest])
  {
  }

  lemma {:induction false} PassFeeds(entries: seq<PollFd>, in0: map<int, seq<byte>>)
    requires DistinctFds(entries) && Fds(entries) <= in0.Keys
    ensures Feeds(in0, PassEvents(entries, in0), [], StreamsAfter(entries, in0))
  {
    if entries == [] {
    } else {
      var n := |entries| - 1;
      var init, last := entries[..n], entries[n];
      assert last in entries && forall e :: e in init ==> e in entries;
      PassFeeds(init, in0);
      var evs, mid := PassEvents(init, in0), StreamsAfter(init, in0);
      if last.readable {
        NextStream(entries, in0, n);
        StreamsAfterKeeps(init, in0);
        EntryTakes(last, in0, mid);
        FeedsTakes(in0, evs, [], mid, EventOn(last.fd, StreamOf(in0, last.fd)), StreamsAfter(entries, in0));
      } else {
        assert evs + [] == evs;
      }
    }
  }

  // ----- the requests of a connection

  /** The requests on a descriptor since it was last accepted. */
  function RequestsSince(evs: seq<Event>, fd: int): seq<Act> {
    if evs == [] then []
    else
      var init, last := evs[..|evs| - 1], evs[|evs| - 1];
      match last
      case Accepted(other, _) => if other == fd then [] else RequestsSince(init, fd)
      case Requested(other, command, topic) =>
        RequestsSince(init, fd) + if other == fd then [Request(command, topic)] else []
      case _ => RequestsSince(init, fd)
  }

  /** All that the peer at a descriptor writes after its id; a peer that was there before has its stream in `in0`. */
  function WrittenSince(in0: map<int, seq<byte>>, evs: seq<Event>, streams: seq<seq<byte>>, fd: int): seq<byte>
    decreases |evs|
  {
    if evs == [] then StreamOf(in0, fd)
    else
      var init, last := evs[..|evs| - 1], evs[|evs| - 1];
      if !last.Accepted? || streams == [] then WrittenSince(in0, init, streams, fd)
      else
        var stream := streams[|streams| - 1];
        if last.fd == fd then if Parse(stream).Complete? then Parse(stream).rest else []
        else WrittenSince(in0, init, streams[..|streams| - 1], fd)
  }

  lemma ParseAllTaken(s: seq<byte>)
    ensures match Parse(s)
            case EndOfStream => RequestsIn(ParseAll(s)) == RequestsIn(ParseAll([])) == []
            case Complete(m, rest) => RequestsIn(ParseAll(s)) == [RequestOf(m)] + RequestsIn(ParseAll(rest))
  {
    assert RequestsIn([]) == [];
    ParseAllNext(s);
    ParseAllNext([]);
    if Parse(s).Complete? {
      var m, rest := Parse(s).msg, Parse(s).rest;
      assert RequestsIn([m]) == [RequestOf(m)];
      hide Parse, ParseAll;
      RequestsInConcat([m], ParseAll(rest));
    }
  }

  lemma TakenConserved(mid: map<int, seq<byte>>, ev: Event, in1: map<int, seq<byte>>, fd: int, before: seq<Act>)
    requires Takes(mid, ev, in1)
    ensures var more := if ev.Requested? && ev.fd == fd then [Request(ev.command, ev.topic)] else [];
            before + more + RequestsIn(ParseAll(StreamOf(in1, fd))) == before + RequestsIn(ParseAll(StreamOf(mid, fd)))
  {
    assert before + [] == before;
    ParseAllTaken(StreamOf(mid, fd));
    hide ParseAll, RequestsIn, Parse;
    if ev.Closed? && ev.fd == fd {
    } else if ev.Requested? && ev.fd == fd {
      var unread := RequestsIn(ParseAll(in1[fd]));
      assert before + ([Request(ev.command, ev.topic)] + unread) == before + [Request(ev.command, ev.topic)] + unread;
    } else {
      assert StreamOf(in1, fd) == StreamOf(mid, fd);
    }
  }

  lemma OpenedConserved(in0: map<int, seq<byte>>, evs: seq<Event>, streams: seq<seq<byte>>, mid: map<int, seq<byte>>,
                        in1: map<int, seq<byte>>, fd: int)
    requires evs != [] && streams != [] && Opens(mid, evs[|evs| - 1], streams[|streams| - 1], in1)
    requires RequestsSince(evs[..|evs| - 1], fd) + RequestsIn(ParseAll(StreamOf(mid, fd)))
             == RequestsIn(ParseAll(WrittenSince(in0, evs[..|evs| - 1], streams[..|streams| - 1], fd)))
    ensures RequestsSince(evs, fd) + RequestsIn(ParseAll(StreamOf(in1, fd)))
            == RequestsIn(ParseAll(WrittenSince(in0, evs, streams, fd)))
  {
    hide ParseAll, RequestsIn, Parse;
    var unread := RequestsIn(ParseAll(StreamOf(in1, fd)));
    assert [] + unread == unread;
    assert evs[|evs| - 1].fd != fd ==> StreamOf(in1, fd) == StreamOf(mid, fd);
  }

  /**
   No request is invented, lost or reordered: the requests served on a connection and those
   still unread are together the requests that its peer writes.
   */
  lemma {:induction false} RequestsConserved(in0: map<int, seq<byte>>, evs: seq<Event>, streams: seq<seq<byte>>,
                                             in1: map<int, seq<byte>>, fd: int)
    requires Feeds(in0, evs, streams, in1)
    ensures RequestsSince(evs, fd) + RequestsIn(ParseAll(StreamOf(in1, fd)))
            == RequestsIn(ParseAll(WrittenSince(in0, evs, streams, fd)))
    decreases |evs|
  {
    if evs == [] {
      var unread := RequestsIn(ParseAll(StreamOf(in1, fd)));
      assert [] + unread == unread;
    } else {
      var init, last := evs[..|evs| - 1], evs[|evs| - 1];
      if last.Accepted? {
        var n := |streams| - 1;
        var mid :| Feeds(in0, init, streams[..n], mid) && Opens(mid, last, streams[n], in1);
        RequestsConserved(in0, init, streams[..n], mid, fd);
        OpenedConserved(in0, evs, streams, mid, in1, fd);
      } else {
        var mid :| Feeds(in0, init, streams, mid) && Takes(mid, last, in1);
        RequestsConserved(in0, init, streams, mid, fd);
        TakenConserved(mid, last, in1, fd, RequestsSince(init, fd));
        hide ParseAll, RequestsIn, Parse, Feeds, Takes;
        assert RequestsSince(init, fd) + [] == RequestsSince(init, fd);
      }
    }
  }

  // ----- the requests of a client

  /** The requests of a history that belong to the client's present connection. */
  ghost function PresentRequests(acts: seq<Act>): seq<Act> {
    if acts == [] then []
    else
      var init, last := acts[..|acts| - 1], acts[|acts| - 1];
      if last.Connect? && !ConnectedAfter(init) then []
      else PresentRequests(init) + if last.Request? then [last] else []
  }

  lemma PresentStep(st: ServerState, evs: seq<Event>, ev: Event, id: string, acts: seq<Act>)
    requires Inv(st) && Enabled(st, ev) && Agrees(st, id, acts)
    requires Online(st, id) ==> PresentRequests(acts) == RequestsSince(evs, st.clients[id].currFd)
    requires Online(Step(st, ev).state, id)
    ensures PresentRequests(acts + ActOf(st, ev, id))
            == RequestsSince(evs + [ev], Step(st, ev).state.clients[id].currFd)
  {
    var a := ActOf(st, ev, id);
    assert (evs + [ev])[..|evs|] == evs;
    if ev.Accepted? && ev.id == id && !Online(st, id) {
      assert (acts + [Connect])[..|acts|] == acts;
    } else {
      KeepsFd(st, ev, id);
      if a == [] {
        assert acts + a == acts;
      } else {
        assert acts + a == acts + [a[0]] && (acts + [a[0]])[..|acts|] == acts;
      }
    }
  }

  lemma OnlineHas(st: ServerState, id: string)
    ensures Online(st, id) ==> id in st.clients
  {
  }

  lemma {:induction false} PresentSince(st: ServerState, evs: seq<Event>, id: string)
    requires Prepared(st) && Legal(st, evs) && Online(Final(st, evs), id)
    ensures PresentRequests(ActsOf(st, evs, id)) == RequestsSince(evs, Final(st, evs).clients[id].currFd)
    decreases |evs|
  {
    if evs == [] {
    } else {
      var init, last := evs[..|evs| - 1], evs[|evs| - 1];
      assert init + [last] == evs;
      RunLast(st, evs, id);
      hide *;
      RunRefines(st, init, id);
      OnlineHas(Final(st, init), id);
      OnlineHas(Final(st, evs), id);
      if Online(Final(st, init), id) {
        PresentSince(st, init, id);
      }
      PresentStep(Final(st, init), init, last, id, ActsOf(st, init, id));
    }
  }

  /**
   Over every run from the prepared server, of any number of rounds: the requests in the
   history of a connected client since it connected, followed by those it has still to be
   served, are the requests that its peer writes after its id.
   */
  lemma InputMatchesHistory(st: ServerState, evs: seq<Event>, in0: map<int, seq<byte>>,
                                               streams: seq<seq<byte>>, in1: map<int, seq<byte>>, id: string)
    requires Prepared(st) && Legal(st, evs) && Feeds(in0, evs, streams, in1) && Online(Final(st, evs), id)
    ensures var fd := Final(st, evs).clients[id].currFd;
            PresentRequests(ActsOf(st, evs, id)) + RequestsIn(ParseAll(StreamOf(in1, fd)))
            == RequestsIn(ParseAll(WrittenSince(in0, evs, streams, fd)))
  {
    PresentSince(st, evs, id);
    RequestsConserved(in0, evs, streams, in1, Final(st, evs).clients[id].currFd);
  }
}
