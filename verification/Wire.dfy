/**
 The frames that server and subscribers exchange over TCP: one command byte, the payload
 length as two bytes in network order, then the payload.
 */
module Wire {

  type byte = n: int | 0 <= n < 0x100
  type uint16 = n: int | 0 <= n < 0x1_0000
  type Payload = p: seq<byte> | |p| < 0x1_0000 witness []

  const MAX_UDP_MSG := 1600

  const CONNECT_REQ: byte := 0
  const CONNECT_ACCEPTED: byte := 1
  const CONNECT_DENIED: byte := 2
  const SUBSCRIBE_REQ: byte := 3
  const UNSUBSCRIBE_REQ: byte := 4
  const SUBSCRIBE_SUCC: byte := 5
  const SUBSCRIBE_FAIL: byte := 6
  const UNSUBSCRIBE_SUCC: byte := 7
  const UNSUBSCRIBE_FAIL: byte := 8
  const MSG_FROM_UDP: byte := 9

  datatype Message = Message(command: byte, payload: Payload)

  function HighByte(n: uint16): byte { (n as int) / 0x100 }

  function LowByte(n: uint16): byte { (n as int) % 0x100 }

  function Combined(high: int, low: int): int { 0x100 * high + low }

  function Frame(m: Message): seq<byte> {
    [m.command, HighByte(|m.payload|), LowByte(|m.payload|)] + m.payload
  }

  function Stream(ms: seq<Message>): seq<byte> {
    if ms == [] then [] else Frame(ms[0]) + Stream(ms[1..])
  }

  /** What reading one message off a byte stream yields before the peer's end of stream. */
  datatype Parsed = Complete(msg: Message, rest: seq<byte>) | EndOfStream

  function Parse(s: seq<byte>): Parsed {
    if |s| < 3 then EndOfStream
    else
      var len := Combined(s[1], s[2]);
      if |s| < 3 + len then EndOfStream
      else Complete(Message(s[0], s[3..3 + len]), s[3 + len..])
  }

  /** Reading a stream to its end, one message after another. */
  function ParseAll(s: seq<byte>): seq<Message>
    decreases |s|
  {
    match Parse(s)
    case EndOfStream => []
    case Complete(m, rest) => [m] + ParseAll(rest)
  }

  /** The frame in plain numbers: the command, the length with its high byte first, the payload. */
  lemma FrameBytes(m: Message)
    ensures |Frame(m)| == 3 + |m.payload| && Frame(m)[0] == m.command
    ensures 0x100 * Frame(m)[1] as int + Frame(m)[2] as int == |m.payload| && Frame(m)[3..] == m.payload
  {
  }

  lemma ParseAllNext(s: seq<byte>)
    ensures match Parse(s)
            case EndOfStream => ParseAll(s) == []
            case Complete(m, rest) => ParseAll(s) == [m] + ParseAll(rest) && |rest| < |s|
  {
  }

  /** Reading is the exact inverse of framing. */
  lemma ParseIff(s: seq<byte>, m: Message, rest: seq<byte>)
    ensures Parse(s) == Complete(m, rest) <==> s == Frame(m) + rest
  {
    if s == Frame(m) + rest {
      var n := |m.payload|;
      assert s[..3] == [m.command, HighByte(n), LowByte(n)];
      assert s[1] == s[..3][1] && s[2] == s[..3][2];
      assert s[3..3 + n] == m.payload && s[3 + n..] == rest;
    }
    if Parse(s) == Complete(m, rest) {
      var n := |m.payload|;
      assert s == s[..3] + s[3..3 + n] + s[3 + n..];
      assert s[..3] == [s[0], s[1], s[2]];
      assert HighByte(n) == s[1] && LowByte(n) == s[2];
    }
  }

  /** No frame begins another one. */
  lemma PrefixFree(a: Message, b: Message, rest: seq<byte>)
    requires Frame(a) + rest == Frame(b)
    ensures a == b && rest == []
  {
    ParseIff(Frame(b), a, rest);
    assert Frame(b) == Frame(b) + [];
    ParseIff(Frame(b), b, []);
  }

  /** A proper beginning of a frame reads as the end of the stream. */
  lemma CutFrameUnreadable(m: Message, k: nat)
    requires k < |Frame(m)|
    ensures Parse(Frame(m)[..k]) == EndOfStream
  {
    var s := Frame(m)[..k];
    if k >= 3 {
      assert s[1] == HighByte(|m.payload|) && s[2] == LowByte(|m.payload|);
      assert Combined(s[1], s[2]) == |m.payload|;
    }
  }

  lemma StreamPrefix(ms: seq<Message>, n: nat)
    requires 0 < n <= |ms|
    ensures ms[..n] == [ms[0]] + ms[1..][..n - 1]
    ensures Stream(ms[..n]) == Frame(ms[0]) + Stream(ms[1..][..n - 1])
  {
    assert ms[..n][0] == ms[0] && ms[..n][1..] == ms[1..][..n - 1];
  }

  /**
   A stream of messages cut anywhere: the reader gets exactly the messages whose frames are
   complete, in order, and then the end of the stream.
   */
  lemma {:induction false} TruncatedStream(ms: seq<Message>, k: nat) returns (n: nat)
    requires k <= |Stream(ms)|
    ensures n <= |ms| && ParseAll(Stream(ms)[..k]) == ms[..n]
    ensures |Stream(ms[..n])| <= k
    ensures n < |ms| ==> k < |Stream(ms[..n + 1])|
  {
    if ms == [] {
      n := 0;
    } else {
      var first := |Frame(ms[0])|;
      var s := Stream(ms)[..k];
      if k < first {
        n := 0;
        assert s == Frame(ms[0])[..k];
        CutFrameUnreadable(ms[0], k);
        assert ms[..1][0] == ms[0] && ms[..1][1..] == [];
      } else {
        var rest := Stream(ms[1..])[..k - first];
        assert s == Frame(ms[0]) + rest;
        ParseIff(s, ms[0], rest);
        var n' := TruncatedStream(ms[1..], k - first);
        n := n' + 1;
        StreamPrefix(ms, n);
        if n < |ms| { StreamPrefix(ms, n + 1); }
      }
    }
  }

  /** Whole streams come back unchanged. */
  lemma {:induction false} ParseAllStream(ms: seq<Message>)
    ensures ParseAll(Stream(ms)) == ms
  {
    if ms == [] {
    } else {
      ParseIff(Stream(ms), ms[0], Stream(ms[1..]));
      ParseAllStream(ms[1..]);
    }
  }

  lemma {:induction false} StreamSnoc(ms: seq<Message>, m: Message)
    ensures Stream(ms + [m]) == Stream(ms) + Frame(m)
  {
    if ms == [] {
      assert Stream([m]) == Frame(m) + Stream([]);
    } else {
      assert (ms + [m])[1..] == ms[1..] + [m];
      StreamSnoc(ms[1..], m);
    }
  }

  // ----- texts on the wire

  /** The text of a C string: everything before the first NUL byte. */
  function CString(bytes: seq<byte>): (s: string)
    ensures |s| <= |bytes| && forall k :: 0 <= k < |s| ==> s[k] != '\0' && s[k] as int == bytes[k] != 0
    ensures |s| < |bytes| ==> bytes[|s|] == 0
  {
    if bytes == [] || bytes[0] == 0 then ""
    else [bytes[0] as char] + CString(bytes[1..])
  }

  /** A text whose characters are non-NUL bytes, as every C string is. */
  ghost predicate IsText(s: string) {
    forall k :: 0 <= k < |s| ==> 0 < s[k] as int < 0x100
  }

  /** A text with its terminating NUL, the payload of every request and publication. */
  function ZeroEnded(s: string): (bytes: seq<byte>)
    ensures |bytes| == |s| + 1
  {
    seq(|s| + 1, i requires 0 <= i <= |s| => if i < |s| then (s[i] as int % 0x100) as byte else 0)
  }

  /** The message that carries a text: an id, or the topic of a request. */
  function TextMessage(command: byte, text: string): Message
    requires |text| + 1 < 0x1_0000
  {
    Message(command, ZeroEnded(text))
  }

  /** The ten commands and a request as they go over the wire. */
  lemma OnTheWire()
    ensures Frame(Message(CONNECT_REQ, []))[0] == 0 && Frame(Message(CONNECT_ACCEPTED, [])) == [1, 0, 0]
    ensures Frame(Message(CONNECT_DENIED, [])) == [2, 0, 0]
    ensures Frame(TextMessage(SUBSCRIBE_REQ, "a")) == [3, 0, 2, 97, 0]
    ensures Frame(TextMessage(UNSUBSCRIBE_REQ, "a")) == [4, 0, 2, 97, 0]
    ensures Frame(Message(SUBSCRIBE_SUCC, [])) == [5, 0, 0] && Frame(Message(SUBSCRIBE_FAIL, [])) == [6, 0, 0]
    ensures Frame(Message(UNSUBSCRIBE_SUCC, [])) == [7, 0, 0] && Frame(Message(UNSUBSCRIBE_FAIL, [])) == [8, 0, 0]
    ensures Frame(TextMessage(MSG_FROM_UDP, "a")) == [9, 0, 2, 97, 0]
  {
    assert ZeroEnded("a") == [97, 0];
  }

  lemma {:induction false} CStringOfZeroEnded(s: string)
    requires IsText(s)
    ensures CString(ZeroEnded(s)) == s
  {
    if s == "" {
    } else {
      CStringOfZeroEnded(s[1..]);
      assert ZeroEnded(s)[1..] == ZeroEnded(s[1..]);
    }
  }
}
