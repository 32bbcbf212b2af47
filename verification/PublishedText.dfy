/**
 The published line, read back: which parts it has, and what each part says of the datagram
 and its sender, in terms of their bytes.
 */
module PublishedText {
  import opened Wire
  import opened DecimalText
  import opened UdpPayload

  /** A byte of the cleared buffer into which the datagram was received. */
  function ByteAt(datagram: seq<byte>, k: nat): byte {
    if k < |datagram| then datagram[k] else 0
  }

  /** The bytes before the first NUL among the first `n` from position `from` on. */
  ghost predicate IsCString(s: string, datagram: seq<byte>, from: nat, n: nat) {
    && |s| <= n
    && (forall k :: 0 <= k < |s| ==> s[k] as int == ByteAt(datagram, from + k) != 0)
    && (|s| < n ==> ByteAt(datagram, from + |s|) == 0)
  }

  /** Topic, type and payload of a datagram of at most 1600 bytes, byte by byte. */
  lemma DatagramFields(datagram: seq<byte>)
    ensures IsCString(TopicOf(datagram), datagram, 0, 50)
    ensures TypeOf(datagram) == ByteAt(datagram, 50) && |PayloadOf(datagram)| == 1549
    ensures forall k :: 0 <= k < 1549 ==> PayloadOf(datagram)[k] == ByteAt(datagram, 51 + k)
  {
    var buff := Buffer(datagram);
    assert |buff[..50]| == 50 && forall k :: 0 <= k < 50 ==> buff[..50][k] == ByteAt(datagram, k);
  }

  /** The four types that are known, and the size of the buffer. */
  lemma KnownTypes(datagram: seq<byte>)
    ensures TypeOf(datagram) <= STRING <==> ByteAt(datagram, 50) <= 3
    ensures INT == 0 && SHORT_REAL == 1 && FLOAT == 2 && STRING == 3 && MAX_UDP_MSG == 1600
  {
    DatagramFields(datagram);
  }

  // ----- the value

  /** The magnitude behind the sign byte. */
  function Sent32(p: seq<byte>): nat
    requires |p| >= 5
  {
    0x100_0000 * p[1] as int + 0x1_0000 * p[2] as int + 0x100 * p[3] as int + p[4] as int
  }

  lemma Prefixed(prefix: string, rest: string)
    ensures (prefix + rest)[..|prefix|] == prefix && (prefix + rest)[|prefix|..] == rest
  {
  }

  /** INT: a whole number in 32-bit range that equals the one sent modulo 2^32. */
  lemma IntTextMeans(p: seq<byte>) returns (value: int)
    requires |p| >= 6
    ensures PayloadText(0, p)[..6] == "INT - "
    ensures ParseDecimal(PayloadText(0, p)[6..]) == Decimal(value < 0, if value < 0 then -value else value, 0)
    ensures -0x8000_0000 <= value < 0x8000_0000
    ensures (value - (if p[0] == 1 then -(Sent32(p) as int) else Sent32(p) as int)) % 0x1_0000_0000 == 0
  {
    value := IntValue(p[0], Magnitude(p));
    IntExactly(p[0], Magnitude(p));
    SignedTextReadsBack(value);
    assert PayloadText(0, p) == "INT - " + SignedText(value) && Magnitude(p) == Sent32(p);
    hide PayloadText, ParseDecimal, SignedText, Magnitude, Sent32;
    Prefixed("INT - ", SignedText(value));
  }

  /** SHORT_REAL: the 16-bit number sent, with two decimals. */
  lemma ShortRealTextMeans(p: seq<byte>)
    requires |p| >= 6
    ensures PayloadText(1, p)[..13] == "SHORT_REAL - "
    ensures ParseDecimal(PayloadText(1, p)[13..]) == Decimal(false, 0x100 * p[0] as int + p[1] as int, 2)
  {
    FloatReadsBack(p);
    assert PayloadText(1, p) == "SHORT_REAL - " + Fixed(Short(p), 2);
    hide PayloadText, ParseDecimal, Fixed;
    Prefixed("SHORT_REAL - ", Fixed(Short(p), 2));
  }

  lemma FloatText(p: seq<byte>)
    requires |p| >= 6
    ensures PayloadText(2, p) == "FLOAT - " + (SignText(p[0] == 1) + Fixed(Magnitude(p), p[5]))
    ensures Magnitude(p) == Sent32(p)
  {
    hide Fixed, SignText;
    var sign, digits := SignText(p[0] == 1), Fixed(Magnitude(p), p[5]);
    assert "FLOAT - " + sign + digits == "FLOAT - " + (sign + digits);
  }

  /** FLOAT: the 32-bit number sent, with as many decimals as the last byte says, and the sign also of a zero. */
  lemma FloatTextMeans(p: seq<byte>)
    requires |p| >= 6
    ensures PayloadText(2, p)[..8] == "FLOAT - "
    ensures ParseDecimal(PayloadText(2, p)[8..]) == Decimal(p[0] == 1, Sent32(p), p[5])
  {
    hide *;
    FloatText(p);
    ParsePrinted(p[0] == 1, Magnitude(p), p[5]);
    Prefixed("FLOAT - ", SignText(p[0] == 1) + Fixed(Magnitude(p), p[5]));
  }

  lemma StringText(p: seq<byte>)
    requires |p| >= 6
    ensures PayloadText(3, p) == "STRING - " + CString(p)
  {
  }

  lemma CStringReads(p: seq<byte>)
    ensures IsCString(CString(p), p, 0, |p|)
  {
    var s := CString(p);
    assert forall k :: 0 <= k < |s| ==> ByteAt(p, 0 + k) == p[k];
    assert |s| < |p| ==> ByteAt(p, 0 + |s|) == p[|s|];
  }

  /** STRING: the bytes before the first NUL. */
  lemma StringTextMeans(p: seq<byte>)
    requires |p| >= 6
    ensures PayloadText(3, p)[..9] == "STRING - " && IsCString(PayloadText(3, p)[9..], p, 0, |p|)
  {
    hide *;
    StringText(p);
    Prefixed("STRING - ", CString(p));
    CStringReads(p);
  }

  /** The two signs of an INT and the ends of its range. */
  lemma IntTextExamples()
    ensures PayloadText(0, [1, 0, 0, 0, 5, 0]) == "INT - -5" && PayloadText(0, [0, 0, 0, 0, 5, 0]) == "INT - 5"
  {
    var p: seq<byte>, q: seq<byte> := [1, 0, 0, 0, 5, 0], [0, 0, 0, 0, 5, 0];
    assert Magnitude(p) == 5 && Magnitude(q) == 5;
    assert PayloadText(0, p) == "INT - " + SignedText(-5) && PayloadText(0, q) == "INT - " + SignedText(5);
    hide PayloadText;
    assert SignedText(-5) == "-" + "5" && SignedText(5) == "" + "5";
  }

  // ----- the line

  /** Four decimals joined by points. */
  function Dotted(a: string, b: string, c: string, d: string): string {
    a + "." + b + "." + c + "." + d
  }

  lemma NoColon(a: string, b: string)
    requires ':' !in a && ':' !in b
    ensures ':' !in a + b
  {
  }

  lemma DigitsHaveNoColon(s: string)
    requires AllDigits(s)
    ensures ':' !in s
  {
  }

  lemma DottedHasNoColon(a: string, b: string, c: string, d: string)
    requires AllDigits(a) && AllDigits(b) && AllDigits(c) && AllDigits(d)
    ensures ':' !in Dotted(a, b, c, d)
  {
    DigitsHaveNoColon(a);
    DigitsHaveNoColon(b);
    DigitsHaveNoColon(c);
    DigitsHaveNoColon(d);
    NoColon(a, ".");
    NoColon(a + ".", b);
    NoColon(a + "." + b, ".");
    NoColon(a + "." + b + ".", c);
    NoColon(a + "." + b + "." + c, ".");
    NoColon(a + "." + b + "." + c + ".", d);
  }

  lemma LineParts(s: Sender, datagram: seq<byte>)
    requires Conforms(datagram) && TypeOf(datagram) <= STRING
    ensures Publication(s, datagram) == ZeroEnded(FormattedText(s, datagram))
    ensures FormattedText(s, datagram)
            == Dotted(Digits(s.a), Digits(s.b), Digits(s.c), Digits(s.d)) + ":" + Digits(s.port)
               + " - " + TopicOf(datagram) + " - " + PayloadText(TypeOf(datagram), PayloadOf(datagram))
  {
    hide PayloadText, TopicOf, TypeOf, PayloadOf, Digits;
  }

  /**
   The payload of a publication is a text with its NUL: before the first ':' the four octets of
   the sender in order, behind it the port, then the topic of the datagram and its value.
   */
  lemma PublicationReads(s: Sender, datagram: seq<byte>)
    returns (a: string, b: string, c: string, d: string, port: string, topic: string, value: string)
    requires Conforms(datagram) && TypeOf(datagram) <= STRING
    ensures Numeral(a, s.a) && Numeral(b, s.b) && Numeral(c, s.c) && Numeral(d, s.d) && Numeral(port, s.port)
    ensures IsCString(topic, datagram, 0, 50) && value == PayloadText(ByteAt(datagram, 50), PayloadOf(datagram))
    ensures ':' !in Dotted(a, b, c, d)
    ensures CString(Publication(s, datagram)) == Dotted(a, b, c, d) + ":" + port + " - " + topic + " - " + value
    ensures Publication(s, datagram) == ZeroEnded(CString(Publication(s, datagram)))
  {
    a, b, c, d, port := Digits(s.a), Digits(s.b), Digits(s.c), Digits(s.d), Digits(s.port);
    topic, value := TopicOf(datagram), PayloadText(TypeOf(datagram), PayloadOf(datagram));
    DigitsNumeral(s.a);
    DigitsNumeral(s.b);
    DigitsNumeral(s.c);
    DigitsNumeral(s.d);
    DigitsNumeral(s.port);
    DatagramFields(datagram);
    TextArrives(s, datagram);
    DottedHasNoColon(a, b, c, d);
    LineParts(s, datagram);
  }
}
