/**
 Decimal numerals as printf writes them, and their reading back.
 */
module DecimalText {

  function Pow10(k: nat): (r: nat)
    ensures r > 0
  {
    if k == 0 then 1 else 10 * Pow10(k - 1)
  }

  function Digit(d: nat): (c: char)
    requires d < 10
    ensures '0' <= c <= '9'
  {
    ('0' as int + d) as char
  }

  predicate AllDigits(s: string) {
    forall k :: 0 <= k < |s| ==> '0' <= s[k] <= '9'
  }

  /** %u: no leading zeros. */
  function Digits(n: nat): (s: string)
    ensures s != "" && AllDigits(s)
  {
    if n < 10 then [Digit(n)] else Digits(n / 10) + [Digit(n % 10)]
  }

  /** The lowest `width` digits, leading zeros included. */
  function Padded(n: nat, width: nat): (s: string)
    ensures |s| == width && AllDigits(s)
    decreases width
  {
    if width == 0 then "" else Padded(n / 10, width - 1) + [Digit(n % 10)]
  }

  /** The value of a digit string. */
  function NumberOf(s: string): nat
    requires AllDigits(s)
  {
    if s == "" then 0
    else 10 * NumberOf(s[..|s| - 1]) + (s[|s| - 1] as int - '0' as int)
  }

  lemma {:induction false} NumberOfDigits(n: nat)
    ensures NumberOf(Digits(n)) == n
  {
    if n < 10 {
      assert [Digit(n)][..0] == "";
    } else {
      NumberOfDigits(n / 10);
      assert Digits(n)[..|Digits(n)| - 1] == Digits(n / 10);
    }
  }

  /** The one way to write a number without superfluous zeros. */
  ghost predicate Numeral(s: string, n: nat) {
    s != "" && AllDigits(s) && NumberOf(s) == n && (s[0] == '0' ==> |s| == 1)
  }

  lemma {:induction false} FirstDigit(n: nat)
    ensures Digits(n)[0] == '0' <==> n == 0
    ensures n == 0 ==> |Digits(n)| == 1
  {
    if n < 10 {
    } else {
      FirstDigit(n / 10);
      assert Digits(n)[0] == Digits(n / 10)[0];
    }
  }

  lemma DigitsNumeral(n: nat)
    ensures Numeral(Digits(n), n)
  {
    NumberOfDigits(n);
    FirstDigit(n);
  }

  /** A number below 10^k has at most k digits. */
  lemma {:induction false} DigitsLength(n: nat, k: nat)
    requires k > 0 && n < Pow10(k)
    ensures |Digits(n)| <= k
  {
    if n < 10 {
    } else {
      assert Pow10(1) == 10 * Pow10(0) == 10;
      DigitsLength(n / 10, k - 1);
    }
  }

  // ----- numbers with a fixed number of decimals

  /** The number without its lowest `scale` digits. */
  function Whole(units: nat, scale: nat): (r: nat)
    ensures r <= units
    decreases scale
  {
    if scale == 0 then units else Whole(units / 10, scale - 1)
  }

  /** %.*f of units * 10^-scale. */
  function Fixed(units: nat, scale: nat): string {
    Digits(Whole(units, scale)) + if scale == 0 then "" else "." + Padded(units, scale)
  }

  function SignText(negative: bool): string { if negative then "-" else "" }

  /** The decimal number (-1)^negative * units * 10^-scale, its sign kept also for zero. */
  datatype Decimal = Decimal(negative: bool, units: nat, scale: nat) | Malformed

  function DotIndex(s: string): (r: nat)
    ensures r <= |s| && '.' !in s[..r] && (r < |s| ==> s[r] == '.')
  {
    if s == "" || s[0] == '.' then 0
    else
      var r := DotIndex(s[1..]);
      assert s[..r + 1] == [s[0]] + s[1..][..r];
      r + 1
  }

  function ParseUnsigned(negative: bool, body: string): Decimal {
    var dot := DotIndex(body);
    var fraction := if dot < |body| then body[dot + 1..] else "";
    if dot == 0 || !AllDigits(body[..dot] + fraction) then Malformed
    else Decimal(negative, NumberOf(body[..dot] + fraction), |fraction|)
  }

  /** Reading a decimal numeral: an optional sign, digits, and perhaps a point among them. */
  function ParseDecimal(s: string): Decimal {
    if s != "" && s[0] == '-' then ParseUnsigned(true, s[1..]) else ParseUnsigned(false, s)
  }

  lemma DotIndexUnique(s: string, at: nat)
    requires at <= |s| && '.' !in s[..at] && (at < |s| ==> s[at] == '.')
    ensures DotIndex(s) == at
  {
    var r := DotIndex(s);
    assert forall k :: 0 <= k < at ==> s[k] in s[..at];
    assert forall k :: 0 <= k < r ==> s[k] in s[..r];
  }

  /** The digits before and after the point together are the digits of the number. */
  lemma {:induction false} NumberOfParts(units: nat, scale: nat)
    ensures NumberOf(Digits(Whole(units, scale)) + Padded(units, scale)) == units
    decreases scale
  {
    var whole, fraction := Digits(Whole(units, scale)), Padded(units, scale);
    if scale == 0 {
      NumberOfDigits(units);
      assert whole + "" == whole;
    } else {
      NumberOfParts(units / 10, scale - 1);
      var s := whole + fraction;
      assert s[..|s| - 1] == whole + Padded(units / 10, scale - 1);
      assert s[|s| - 1] == Digit(units % 10);
    }
  }

  lemma ParseFixed(negative: bool, units: nat, scale: nat)
    ensures ParseUnsigned(negative, Fixed(units, scale)) == Decimal(negative, units, scale)
  {
    var whole, fraction := Digits(Whole(units, scale)), Padded(units, scale);
    var body := Fixed(units, scale);
    assert body[..|whole|] == whole;
    DotIndexUnique(body, |whole|);
    assert scale > 0 ==> body[|whole| + 1..] == fraction;
    NumberOfParts(units, scale);
  }

  /** What is printed with `scale` decimals reads back as the same number. */
  lemma ParsePrinted(negative: bool, units: nat, scale: nat)
    ensures ParseDecimal(SignText(negative) + Fixed(units, scale)) == Decimal(negative, units, scale)
  {
    var body := Fixed(units, scale);
    assert body[0] == Digits(Whole(units, scale))[0];
    assert SignText(true)[0] == '-' && (SignText(true) + body)[1..] == body;
    assert SignText(false) + body == body;
    ParseFixed(negative, units, scale);
  }

  /** Numerals as they look. */
  lemma NumeralExamples()
    ensures Digits(0) == "0" && Digits(10) == "10" && Fixed(7, 0) == "7" && Fixed(105, 2) == "1.05"
  {
    assert Digits(10) == Digits(1) + ['0'];
    assert Whole(105, 2) == Whole(10, 1) == Whole(1, 0) == 1;
    assert Padded(105, 2) == Padded(10, 1) + ['5'];
    assert Padded(10, 1) == Padded(1, 0) + ['0'];
  }

  /** The length of a printed number: the digits before the point, the point and the decimals. */
  lemma FixedLength(units: nat, scale: nat, k: nat)
    requires k > 0 && units < Pow10(k)
    ensures |Fixed(units, scale)| <= k + 1 + scale
  {
    DigitsLength(Whole(units, scale), k);
  }
}
