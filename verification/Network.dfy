/**
 The transfer functions of protocols.cpp over a socket layer that moves as many bytes per
 call as it likes, but at least one while there is something to move.
 */
module Network {
  import opened Wire

  /** The descriptors of one process and the byte streams behind them. */
  class Net {
    var open: set<int>
    // what the peer of a descriptor wrote before it closed and this process has not read
    var inbound: map<int, seq<byte>>
    // what this process wrote to the connection of a descriptor
    var outbound: map<int, seq<byte>>

    constructor ()
      ensures open == {} && inbound == map[] && outbound == map[]
    {
      open, inbound, outbound := {}, map[], map[];
    }

    ghost predicate Holds(fd: int)
      reads this
    {
      fd in open && fd in inbound && fd in outbound
    }

    /** One send(): any nonempty beginning of the buffer goes out. */
    method Send(fd: int, buff: seq<byte>) returns (sent: nat)
      requires Holds(fd) && buff != []
      modifies this`outbound
      ensures 1 <= sent <= |buff|
      ensures outbound == old(outbound)[fd := old(outbound[fd]) + buff[..sent]]
    {
      sent :| 1 <= sent <= |buff|;
      outbound := outbound[fd := outbound[fd] + buff[..sent]];
    }

    /** One recv(): any nonempty beginning of what is left, or nothing at the end of the stream. */
    method Recv(fd: int, count: nat) returns (got: seq<byte>)
      requires Holds(fd) && count > 0
      modifies this`inbound
      ensures |got| <= count && (got == [] <==> old(inbound[fd]) == [])
      ensures fd in inbound && old(inbound[fd]) == got + inbound[fd]
      ensures got == [] ==> inbound[fd] == []
      ensures inbound == old(inbound)[fd := inbound[fd]]
    {
      var left := inbound[fd];
      if left == [] { return []; }
      var n: nat :| 1 <= n <= count && n <= |left|;
      got := left[..n];
      inbound := inbound[fd := left[n..]];
    }

    /** accept(): the system hands out any descriptor that is not open, closed ones included. */
    method Accept(fd: int, stream: seq<byte>)
      requires fd !in open
      modifies this
      ensures open == old(open) + {fd}
      ensures inbound == old(inbound)[fd := stream] && outbound == old(outbound)[fd := []]
    {
      open := open + {fd};
      inbound := inbound[fd := stream];
      outbound := outbound[fd := []];
    }

    method Close(fd: int)
      modifies this`open
      ensures open == old(open) - {fd}
    {
      open := open - {fd};
    }
  }

  // ----- the length field in memory

  datatype ByteOrder = Little | Big

  /** The two bytes of a 16-bit number in the memory of the host. */
  function Stored(x: uint16, host: ByteOrder): seq<byte> {
    if host.Little? then [LowByte(x), HighByte(x)] else [HighByte(x), LowByte(x)]
  }

  function Loaded(b: seq<byte>, host: ByteOrder): uint16
    requires |b| == 2
  {
    if host.Little? then Combined(b[1], b[0]) else Combined(b[0], b[1])
  }

  /** htons and ntohs: swap the bytes where the host is little-endian. */
  function Swapped(x: uint16, host: ByteOrder): uint16 {
    if host.Little? then Combined(LowByte(x), HighByte(x)) else x
  }

  /** A number in memory of which the bytes `field` have been overwritten from the lowest address on. */
  function Overwritten(x: uint16, field: seq<byte>, host: ByteOrder): (r: uint16)
    requires |field| <= 2
    ensures |field| == 2 ==> Swapped(r, host) == Combined(field[0], field[1])
  {
    var memory := field + Stored(x, host)[|field|..];
    assert |field| == 2 ==> memory == field;
    Loaded(memory, host)
  }

  /** The length field after `s` was received: untouched, half overwritten, or whole and swapped. */
  function ReceivedLen(x: uint16, s: seq<byte>, host: ByteOrder): uint16 {
    if |s| == 0 then x
    else if |s| < 3 then Overwritten(x, s[1..], host)
    else Combined(s[1], s[2])
  }

  /** On any host the swapped number lies in memory in network order, and swapping twice undoes it. */
  lemma NetworkOrder(x: uint16, host: ByteOrder)
    ensures Stored(Swapped(x, host), host) == [HighByte(x), LowByte(x)]
    ensures Swapped(Swapped(x, host), host) == x
    ensures Loaded(Stored(x, host), host) == x
  {
    if host.Little? {
      var y := Swapped(x, host);
      assert LowByte(y) == HighByte(x) && HighByte(y) == LowByte(x);
    }
  }

  // ----- the message structure and its transfer

  class TcpMessage {
    var command: byte
    var len: uint16
    var payload: seq<byte>

    constructor (command: byte, len: uint16, payload: seq<byte>)
      ensures this.command == command && this.len == len && this.payload == payload
    {
      this.command, this.len, this.payload := command, len, payload;
    }

    /** The message that sending this structure puts on the wire. */
    function Value(): Message
      requires len <= |payload|
      reads this
    {
      Message(command, payload[..len])
    }
  }

  /** The loop over partial sends. */
  method SendBytes(net: Net, fd: int, bytes: seq<byte>)
    requires net.Holds(fd)
    modifies net`outbound
    ensures net.outbound == old(net.outbound)[fd := old(net.outbound[fd]) + bytes]
  {
    var buff := bytes;
    var bytesRemaining := |bytes|;
    while bytesRemaining > 0
      invariant bytesRemaining == |buff|
      invariant net.Holds(fd)
      invariant net.outbound == old(net.outbound)[fd := net.outbound[fd]]
      invariant net.outbound[fd] + buff == old(net.outbound[fd]) + bytes
      decreases bytesRemaining
    {
      ghost var before := net.outbound[fd];
      var sent := net.Send(fd, buff);
      assert before + buff == before + buff[..sent] + buff[sent..];
      bytesRemaining := bytesRemaining - sent;
      buff := buff[sent..];
    }
    assert net.outbound[fd] == net.outbound[fd] + buff;
  }

  /** The loop over partial receives; it stops short only at the end of the stream. */
  method RecvBytes(net: Net, fd: int, count: nat) returns (buff: seq<byte>)
    requires net.Holds(fd)
    modifies net`inbound
    ensures net.Holds(fd)
    ensures |buff| <= count && old(net.inbound[fd]) == buff + net.inbound[fd]
    ensures |buff| < count ==> net.inbound[fd] == []
    ensures net.inbound == old(net.inbound)[fd := net.inbound[fd]]
  {
    buff := [];
    var bytesRemaining := count;
    while bytesRemaining > 0
      invariant |buff| + bytesRemaining == count && bytesRemaining >= 0
      invariant net.Holds(fd)
      invariant net.inbound == old(net.inbound)[fd := net.inbound[fd]]
      invariant old(net.inbound[fd]) == buff + net.inbound[fd]
      decreases bytesRemaining
    {
      var got := net.Recv(fd, bytesRemaining);
      if got == [] { return; }
      buff := buff + got;
      bytesRemaining := bytesRemaining - |got|;
    }
  }

  /** send_efficient: the frame goes out whole and the structure is as it was. */
  method SendEfficient(host: ByteOrder, net: Net, fd: int, msg: TcpMessage) returns (total: nat)
    requires net.Holds(fd) && msg.len <= |msg.payload|
    modifies net`outbound, msg`len
    ensures net.outbound == old(net.outbound)[fd := old(net.outbound[fd]) + Frame(old(msg.Value()))]
    ensures msg.len == old(msg.len)
    ensures total == 3 + msg.len
  {
    ghost var m := msg.Value();
    NetworkOrder(msg.len, host);
    msg.len := Swapped(msg.len, host);
    SendBytes(net, fd, [msg.command]);
    SendBytes(net, fd, Stored(msg.len, host));
    msg.len := Swapped(msg.len, host);
    SendBytes(net, fd, msg.payload[..msg.len]);
    total := 1 + 2 + msg.len;
    ghost var before := old(net.outbound[fd]);
    assert before + Frame(m) == before + [msg.command] + [HighByte(msg.len), LowByte(msg.len)] + m.payload;
  }

  /** The first two loops of recv_efficient: the command, then the length field. */
  method RecvHeader(host: ByteOrder, net: Net, fd: int, msg: TcpMessage) returns (complete: bool)
    requires net.Holds(fd)
    modifies net`inbound, msg`command, msg`len
    ensures var s := old(net.inbound[fd]);
            && complete == (|s| >= 3)
            && net.inbound == old(net.inbound)[fd := if |s| >= 3 then s[3..] else []]
            && msg.command == (if s == [] then old(msg.command) else s[0])
            && msg.len == ReceivedLen(old(msg.len), s, host)
  {
    ghost var s := net.inbound[fd];
    var raw := RecvBytes(net, fd, 1);
    if |raw| < 1 { return false; }
    msg.command := raw[0];
    assert s[0] == raw[0];

    var field := RecvBytes(net, fd, 2);
    msg.len := Overwritten(msg.len, field, host);
    assert |s| == 1 + |field| + |net.inbound[fd]|;
    assert |field| < 2 ==> s[1..] == field;
    if |field| < 2 { return false; }
    msg.len := Swapped(msg.len, host);
    assert s[1] == field[0] && s[2] == field[1] && s[3..] == net.inbound[fd];
    complete := true;
  }

  /**
   recv_efficient: one whole message is taken off the stream, or the stream has ended before
   its frame was complete and the answer is 0.
   */
  method RecvEfficient(host: ByteOrder, net: Net, fd: int, msg: TcpMessage) returns (rc: nat)
    requires net.Holds(fd)
    modifies net`inbound, msg
    ensures Parse(old(net.inbound[fd])).Complete? ==>
              var m := Parse(old(net.inbound[fd])).msg;
              && rc == 3 + |m.payload|
              && net.inbound == old(net.inbound)[fd := Parse(old(net.inbound[fd])).rest]
              && msg.command == m.command && msg.len == |m.payload|
              && msg.payload == if msg.len == 0 then old(msg.payload) else m.payload
    ensures Parse(old(net.inbound[fd])).EndOfStream? ==>
              var s := old(net.inbound[fd]);
              && rc == 0 && net.inbound == old(net.inbound)[fd := []]
              && msg.command == (if s == [] then old(msg.command) else s[0])
              && msg.len == ReceivedLen(old(msg.len), s, host)
              && msg.payload == if |s| < 3 then old(msg.payload) else s[3..]
  {
    ghost var s := net.inbound[fd];
    var complete := RecvHeader(host, net, fd, msg);
    if !complete { return 0; }
    // without a payload nothing more is received
    if msg.len == 0 { return 3; }

    msg.payload := RecvBytes(net, fd, msg.len);
    assert s[3..] == msg.payload + net.inbound[fd];
    assert |msg.payload| < msg.len ==> s[3..] == msg.payload;
    if |msg.payload| < msg.len { return 0; }
    assert s[3..3 + msg.len] == s[3..][..msg.len] == msg.payload;
    assert s[3 + msg.len..] == s[3..][msg.len..] == net.inbound[fd];
    rc := 3 + msg.len;
  }

  /** Messages sent one by one. */
  method SendAll(host: ByteOrder, net: Net, fd: int, ms: seq<Message>)
    requires net.Holds(fd)
    modifies net`outbound
    ensures net.outbound == old(net.outbound)[fd := old(net.outbound[fd]) + Stream(ms)]
  {
    ghost var before, stream := net.outbound, [];
    assert before[fd] + stream == before[fd];
    for i := 0 to |ms|
      invariant net.Holds(fd) && stream == Stream(ms[..i])
      invariant net.outbound == before[fd := before[fd] + stream]
    {
      var msg := new TcpMessage(ms[i].command, |ms[i].payload|, ms[i].payload);
      assert msg.Value() == ms[i];
      var total := SendEfficient(host, net, fd, msg);
      assert before[fd] + stream + Frame(ms[i]) == before[fd] + (stream + Frame(ms[i]));
      stream := stream + Frame(ms[i]);
      StreamSnoc(ms[..i], ms[i]);
      assert ms[..i] + [ms[i]] == ms[..i + 1];
    }
    assert ms[..|ms|] == ms;
  }

  /** Messages received one by one until the peer's end of stream. */
  method ReceiveAll(host: ByteOrder, net: Net, fd: int) returns (ms: seq<Message>)
    requires net.Holds(fd)
    modifies net`inbound
    ensures ms == ParseAll(old(net.inbound[fd]))
    ensures net.inbound == old(net.inbound)[fd := []]
  {
    hide ReceivedLen, Parse, ParseAll;
    ParseAllNext([]);
    ms := [];
    ghost var left := net.inbound[fd];
    assert net.inbound == net.inbound[fd := left];
    var rc := 1;
    while rc > 0
      invariant rc >= 0 && net.Holds(fd)
      invariant net.inbound == old(net.inbound)[fd := left]
      invariant ms + (if rc > 0 then ParseAll(left) else []) == ParseAll(old(net.inbound[fd]))
      invariant rc == 0 ==> left == []
      decreases rc > 0, |left|
    {
      var msg := new TcpMessage(0, 0, []);
      ghost var parsed := Parse(left);
      ParseAllNext(left);
      rc := RecvEfficient(host, net, fd, msg);
      if rc > 0 {
        assert msg.payload == parsed.msg.payload;
        ms := ms + [Message(msg.command, msg.payload)];
        left := parsed.rest;
      } else {
        left := [];
      }
    }
  }

  /**
   Any list of messages arrives unchanged and in order, however the two sides split their
   transfers and whatever their byte orders are.
   */
  method Relay(host: ByteOrder, peerHost: ByteOrder, net: Net, fd: int, peer: Net, peerFd: int, ms: seq<Message>)
    returns (received: seq<Message>)
    requires net != peer && net.Holds(fd) && net.outbound[fd] == []
    requires peer.Holds(peerFd)
    modifies net`outbound, peer`inbound
    ensures received == ms
  {
    SendAll(host, net, fd, ms);
    assert net.outbound[fd] == Stream(ms);
    peer.inbound := peer.inbound[peerFd := net.outbound[fd]];
    ParseAllStream(ms);
    received := ReceiveAll(peerHost, peer, peerFd);
  }
}
