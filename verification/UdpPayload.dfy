/**
 From a datagram to the text of a publication: topic, data type, payload, and the line
 "ip:port - topic - TYPE - value".
 */
module UdpPayload {
  import opened Wire
  import opened DecimalText
  import opened Scaling

  const INT: byte := 0
  const SHORT_REAL: byte := 1
  const FLOAT: byte := 2
  const STRING: byte := 3

  // ----- numbers

  function Number32(b3: int, b2: int, b1: int, b0: int): int {
    0x100_0000 * b3 + 0x1_0000 * b2 + 0x100 * b1 + b0
  }

  /** The 16-bit number at the front of a payload, from network order. */
  function Short(p: seq<byte>): (n: nat)
    requires |p| >= 2
    ensures n < 0x1_0000
  {
    Combined(p[0], p[1])
  }

  /** The 32-bit number behind the sign byte of a payload, from network order. */
  function Magnitude(p: seq<byte>): (n: nat)
    requires |p| >= 5
    ensures n < 0x1_0000_0000
  {
    Number32(p[1], p[2], p[3], p[4])
  }

  /** A 32-bit number as its sender lays it out, most significant byte first. */
  function NetworkBytes(n: nat): seq<byte>
    requires n < 0x1_0000_0000
  {
    var upper := n / 0x100;
    var high := upper / 0x100;
    [high / 0x100, high % 0x100, upper % 0x100, n % 0x100]
  }

  /** The decoder reads the number that was sent. */
  lemma MagnitudeOfSent(p: seq<byte>, n: nat)
    requires |p| >= 5 && n < 0x1_0000_0000 && p[1..5] == NetworkBytes(n)
    ensures Magnitude(p) == n
  {
    var b, upper := NetworkBytes(n), n / 0x100;
    var high := upper / 0x100;
    assert p[1] == b[0] && p[2] == b[1] && p[3] == b[2] && p[4] == b[3];
    assert Combined(p[1], p[2]) == high && Combined(high, p[3]) == upper && Combined(upper, p[4]) == n;
  }

  lemma ShortOfSent(p: seq<byte>, n: nat)
    requires |p| >= 2 && n < 0x1_0000 && p[..2] == [HighByte(n), LowByte(n)]
    ensures Short(p) == n
  {
    assert p[0] == p[..2][0] && p[1] == p[..2][1];
  }

  /** `number *= -1` on a uint32_t for sign byte 1, then read by %d as a 32-bit two's complement number. */
  function IntValue(sign: byte, n: nat): (v: int)
    requires n < 0x1_0000_0000
    ensures -0x8000_0000 <= v < 0x8000_0000
  {
    var number: int := if sign == 1 then (0x1_0000_0000 - n) % 0x1_0000_0000 else n;
    if number < 0x8000_0000 then number else (number as int) - 0x1_0000_0000
  }

  /** The printed integer is the one sent exactly while it fits in 32 bits, and always equal to it modulo 2^32. */
  lemma IntExactly(sign: byte, n: nat)
    requires n < 0x1_0000_0000
    ensures var sent: int := if sign == 1 then -(n as int) else n;
            && (IntValue(sign, n) == sent <==> -0x8000_0000 <= sent < 0x8000_0000)
            && (IntValue(sign, n) - sent) % 0x1_0000_0000 == 0
  {
    var sent: int := if sign == 1 then -(n as int) else n;
    var v := IntValue(sign, n);
    assert v == sent || v == sent + 0x1_0000_0000 || v == sent - 0x1_0000_0000;
  }

  function Absolute(v: int): nat { if v < 0 then -v else v }

  /** %d */
  function SignedText(v: int): string {
    SignText(v < 0) + Digits(Absolute(v))
  }

  lemma SignedTextReadsBack(v: int)
    ensures ParseDecimal(SignedText(v)) == Decimal(v < 0, Absolute(v), 0)
  {
    var units := Absolute(v);
    ParsePrinted(v < 0, units, 0);
    assert Fixed(units, 0) == Digits(units);
  }

  // ----- the payload

  ghost predicate WellFormed(dataType: byte, p: seq<byte>) {
    && |p| >= 6
    && (dataType == STRING ==> 0 in p)
  }

  /** The text that the payload of each type stands for, numbers written exactly. */
  function PayloadText(dataType: byte, p: seq<byte>): string
    requires |p| >= 6
  {
    if dataType == INT then "INT - " + SignedText(IntValue(p[0], Magnitude(p)))
    else if dataType == SHORT_REAL then "SHORT_REAL - " + Fixed(Short(p), 2)
    else if dataType == FLOAT then "FLOAT - " + SignText(p[0] == 1) + Fixed(Magnitude(p), p[5])
    else "STRING - " + CString(p)
  }

  lemma HundredthNotNegative(value: nat, rnd: real -> real)
    requires value < 0x1_0000 && Rounds(rnd)
    ensures rnd(value as real / 100.0) >= 0.0
  {
    var y := value as real / 100.0;
    if value > 0 {
      assert y >= 0.01;
      assert PowerOfTwo(7) == 128.0 by { assert PowerOfTwo(4) == 16.0; }
      assert Normal(y) by { assert y * PowerOfTwo(7) >= 1.0; }
      RoundedNotNegative(rnd(y), y);
    } else {
      assert y == 0.0;
    }
  }

  /**
   interpret_udp_payload with floating-point arithmetic: the text is nevertheless the exact
   decimal number.  A double is its magnitude and its sign bit, which printf shows also for
   a zero.
   */
  method InterpretUdpPayload(dataType: byte, p: seq<byte>, rnd: real -> real) returns (valid: bool, text: string)
    requires WellFormed(dataType, p) && Rounds(rnd)
    ensures valid <==> dataType <= STRING
    ensures valid ==> text == PayloadText(dataType, p)
  {
    valid, text := true, "";
    if dataType == INT {
      var number: int := Magnitude(p);
      if p[0] == 1 { number := (0x1_0000_0000 - number) % 0x1_0000_0000; }
      var asInt := if number < 0x8000_0000 then number else number - 0x1_0000_0000;
      text := "INT - " + SignedText(asInt);
    } else if dataType == SHORT_REAL {
      var realNr := rnd(Short(p) as real / 100.0);
      HundredthNotNegative(Short(p), rnd);
      ghost var units;
      text, units := PrintFixed(realNr, 2);
      HundredthNearest(Short(p), rnd, units);
      text := "SHORT_REAL - " + text;
    } else if dataType == FLOAT {
      var realNr := Magnitude(p) as real;
      var power: nat := p[5];
      for i := 0 to power
        invariant realNr == Divided(Magnitude(p), i, rnd)
      {
        realNr := rnd(realNr / 10.0);
      }
      var negative := p[0] == 1;
      AccumulatedError(Magnitude(p), power, rnd);
      ghost var units;
      text, units := PrintFixed(realNr, power);
      NearestIsMantissa(Magnitude(p), power, rnd, units);
      text := "FLOAT - " + SignText(negative) + text;
    } else if dataType == STRING {
      text := "STRING - ";
      text := text + CString(p);
    } else {
      valid := false;
    }
  }

  /** Printed and read back, a FLOAT is the number that was sent, sign and zeros included. */
  lemma FloatReadsBack(p: seq<byte>)
    requires |p| >= 6
    ensures ParseDecimal(PayloadText(FLOAT, p)[|"FLOAT - "|..]) == Decimal(p[0] == 1, Magnitude(p), p[5])
    ensures ParseDecimal(PayloadText(SHORT_REAL, p)[|"SHORT_REAL - "|..]) == Decimal(false, Short(p), 2)
  {
    var number := SignText(p[0] == 1) + Fixed(Magnitude(p), p[5]);
    assert PayloadText(FLOAT, p) == "FLOAT - " + number;
    assert ("FLOAT - " + number)[|"FLOAT - "|..] == number;
    ParsePrinted(p[0] == 1, Magnitude(p), p[5]);
    var short := SignText(false) + Fixed(Short(p), 2);
    assert short == Fixed(Short(p), 2);
    assert ("SHORT_REAL - " + short)[|"SHORT_REAL - "|..] == short;
    ParsePrinted(false, Short(p), 2);
  }

  // ----- the whole message

  datatype Sender = Sender(a: byte, b: byte, c: byte, d: byte, port: uint16)

  function IpText(s: Sender): string {
    Digits(s.a) + "." + Digits(s.b) + "." + Digits(s.c) + "." + Digits(s.d)
  }

  function Heading(s: Sender, topic: string): string {
    IpText(s) + ":" + Digits(s.port) + " - " + topic + " - "
  }

  /** The receive buffer: cleared, then filled with at most its size. */
  function Buffer(datagram: seq<byte>): (buff: seq<byte>)
    ensures |buff| == MAX_UDP_MSG
    ensures forall k :: 0 <= k < |buff| ==> buff[k] == if k < |datagram| then datagram[k] else 0
  {
    if |datagram| >= MAX_UDP_MSG then datagram[..MAX_UDP_MSG]
    else datagram + seq(MAX_UDP_MSG - |datagram|, _ => 0)
  }

  function TopicOf(datagram: seq<byte>): string { CString(Buffer(datagram)[..50]) }

  function TypeOf(datagram: seq<byte>): byte { Buffer(datagram)[50] }

  function PayloadOf(datagram: seq<byte>): seq<byte> { Buffer(datagram)[51..] }

  function FormattedText(s: Sender, datagram: seq<byte>): string {
    Heading(s, TopicOf(datagram)) + PayloadText(TypeOf(datagram), PayloadOf(datagram))
  }

  /** What the UDP clients keep to: a string is terminated inside the buffer and at most 1500 long. */
  predicate Conforms(datagram: seq<byte>) {
    TypeOf(datagram) == STRING ==> 0 in PayloadOf(datagram) && |CString(PayloadOf(datagram))| <= 1500
  }

  lemma DigitBounds()
    ensures Pow10(3) == 1000 && Pow10(5) == 100000 && Pow10(10) == 10000000000
  {
    assert Pow10(5) == 100000;
    assert Pow10(7) == 10000000 && Pow10(9) == 1000000000;
  }

  lemma HeadingLength(s: Sender, topic: string)
    ensures |Heading(s, topic)| <= 27 + |topic|
  {
    DigitBounds();
    DigitsLength(s.a, 3);
    DigitsLength(s.b, 3);
    DigitsLength(s.c, 3);
    DigitsLength(s.d, 3);
    DigitsLength(s.port, 5);
  }

  lemma PayloadLength(dataType: byte, p: seq<byte>)
    requires WellFormed(dataType, p) && dataType <= STRING
    ensures |PayloadText(dataType, p)| <= if dataType == STRING then 9 + |CString(p)| else 275
  {
    DigitBounds();
    if dataType == INT {
      var v := IntValue(p[0], Magnitude(p));
      DigitsLength(Absolute(v), 10);
    } else if dataType == SHORT_REAL {
      FixedLength(Short(p), 2, 5);
    } else if dataType == FLOAT {
      FixedLength(Magnitude(p), p[5], 10);
    }
  }

  /** Every message with its terminating NUL fits its buffer of 1600 bytes, so its 16-bit length is exact. */
  lemma MessageFits(s: Sender, datagram: seq<byte>)
    requires Conforms(datagram) && TypeOf(datagram) <= STRING
    ensures |FormattedText(s, datagram)| + 1 <= MAX_UDP_MSG
  {
    HeadingLength(s, TopicOf(datagram));
    PayloadLength(TypeOf(datagram), PayloadOf(datagram));
  }

  /** The payload of a publication: the text with its NUL. */
  function Publication(s: Sender, datagram: seq<byte>): Payload
    requires Conforms(datagram) && TypeOf(datagram) <= STRING
  {
    MessageFits(s, datagram);
    ZeroEnded(FormattedText(s, datagram))
  }

  // ----- which topics are published

  /** A topic that fits its field of a datagram: up to fifty non-NUL bytes. */
  ghost predicate Publishable(topic: string) { |topic| <= 50 && IsText(topic) }

  ghost predicate Announces(sender: Sender, datagram: seq<byte>, topic: string, payload: Payload) {
    && Conforms(datagram) && TypeOf(datagram) <= STRING
    && topic == TopicOf(datagram) && payload == Publication(sender, datagram)
  }

  /** What the server publishes for some datagram. */
  ghost predicate FromDatagram(topic: string, payload: Payload) {
    exists sender, datagram :: Announces(sender, datagram, topic, payload)
  }

  /** The topics of datagrams are exactly the publishable ones. */
  lemma PublishableExactly(topic: string)
    ensures Publishable(topic) <==> exists datagram :: Conforms(datagram) && TopicOf(datagram) == topic
    ensures Publishable(topic) <==> exists payload :: FromDatagram(topic, payload)
  {
    if Publishable(topic) {
      var datagram: seq<byte> := ZeroEnded(topic);
      var field := Buffer(datagram)[..50];
      assert forall k :: 0 <= k < |topic| ==> field[k] == topic[k] as int;
      assert |topic| < 50 ==> field[|topic|] == 0;
      var read := CString(field);
      assert |read| >= |topic|;
      assert |read| <= |topic| by { assert forall k :: 0 <= k < |read| ==> field[k] != 0; }
      assert read == topic;
      var sender := Sender(0, 0, 0, 0, 0);
      assert Announces(sender, datagram, topic, Publication(sender, datagram));
      assert FromDatagram(topic, Publication(sender, datagram));
    }
    if payload :| FromDatagram(topic, payload) {
      var sender, datagram :| Announces(sender, datagram, topic, payload);
    }
    if datagram :| Conforms(datagram) && TopicOf(datagram) == topic {
      var field := Buffer(datagram)[..50];
      assert forall k :: 0 <= k < |topic| ==> topic[k] != '\0' && topic[k] as int == field[k];
    }
  }

  // ----- the text arrives as it was written

  lemma DigitsAreText(s: string)
    requires AllDigits(s)
    ensures IsText(s)
  {
  }

  lemma ConcatIsText(a: string, b: string)
    requires IsText(a) && IsText(b)
    ensures IsText(a + b)
  {
  }

  lemma FixedIsText(units: nat, scale: nat)
    ensures IsText(Fixed(units, scale))
  {
    var whole, fraction := Digits(Whole(units, scale)), Padded(units, scale);
    DigitsAreText(whole);
    DigitsAreText(fraction);
    ConcatIsText(".", fraction);
    ConcatIsText(whole, "." + fraction);
    assert whole + "" == whole;
  }

  lemma PayloadIsText(dataType: byte, p: seq<byte>)
    requires |p| >= 6
    ensures IsText(PayloadText(dataType, p))
  {
    if dataType == INT {
      var v := IntValue(p[0], Magnitude(p));
      DigitsAreText(Digits(Absolute(v)));
      ConcatIsText("INT - ", SignText(v < 0));
      ConcatIsText(SignText(v < 0), Digits(Absolute(v)));
      ConcatIsText("INT - ", SignedText(v));
    } else if dataType == SHORT_REAL {
      FixedIsText(Short(p), 2);
      ConcatIsText("SHORT_REAL - ", Fixed(Short(p), 2));
    } else if dataType == FLOAT {
      FixedIsText(Magnitude(p), p[5]);
      ConcatIsText("FLOAT - ", SignText(p[0] == 1));
      ConcatIsText("FLOAT - " + SignText(p[0] == 1), Fixed(Magnitude(p), p[5]));
    } else {
      ConcatIsText("STRING - ", CString(p));
    }
  }

  lemma HeadingIsText(s: Sender, topic: string)
    requires IsText(topic)
    ensures IsText(Heading(s, topic))
  {
    var a, b, c, d, port := Digits(s.a), Digits(s.b), Digits(s.c), Digits(s.d), Digits(s.port);
    DigitsAreText(a);
    DigitsAreText(b);
    DigitsAreText(c);
    DigitsAreText(d);
    DigitsAreText(port);
    ConcatIsText(a, ".");
    ConcatIsText(a + ".", b);
    ConcatIsText(a + "." + b, ".");
    ConcatIsText(a + "." + b + ".", c);
    ConcatIsText(a + "." + b + "." + c, ".");
    ConcatIsText(a + "." + b + "." + c + ".", d);
    ConcatIsText(IpText(s), ":");
    ConcatIsText(IpText(s) + ":", port);
    ConcatIsText(IpText(s) + ":" + port, " - ");
    ConcatIsText(IpText(s) + ":" + port + " - ", topic);
    ConcatIsText(IpText(s) + ":" + port + " - " + topic, " - ");
  }

  /** The subscriber reads off the wire exactly the text the server composed. */
  lemma TextArrives(s: Sender, datagram: seq<byte>)
    ensures IsText(FormattedText(s, datagram))
    ensures CString(ZeroEnded(FormattedText(s, datagram))) == FormattedText(s, datagram)
  {
    var topic := TopicOf(datagram);
    HeadingIsText(s, topic);
    PayloadIsText(TypeOf(datagram), PayloadOf(datagram));
    ConcatIsText(Heading(s, topic), PayloadText(TypeOf(datagram), PayloadOf(datagram)));
    CStringOfZeroEnded(FormattedText(s, datagram));
  }
}
