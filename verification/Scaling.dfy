/**
 Scaling a mantissa by repeated floating-point division.  Rounding is any function within
 the relative error of round-to-nearest in the normal range of binary64 (IEEE 754-2019,
 section 4.3.1).
 */
module Scaling {
  import opened DecimalText

  // half a unit in the last place of a 53-bit significand
  const UNIT: real := 1.0 / 9007199254740992.0

  function TenTo(k: nat): (r: real)
    ensures r >= 1.0
  {
    if k == 0 then 1.0 else 10.0 * TenTo(k - 1)
  }

  ghost function PowerOfTwo(k: nat): (r: real)
    ensures r >= 1.0
  {
    if k == 0 then 1.0 else 2.0 * PowerOfTwo(k - 1)
  }

  /** At least 2^-1022, the smallest positive normal number. */
  ghost predicate Normal(x: real) {
    exists e: nat :: e <= 1022 && x * PowerOfTwo(e) >= 1.0
  }

  function Distance(x: real, y: real): real { if x < y then y - x else x - y }

  ghost predicate Rounds(rnd: real -> real) {
    && rnd(0.0) == 0.0
    && forall x: real :: Normal(x) ==> Distance(rnd(x), x) <= UNIT * x
  }

  /** Exact arithmetic is one admissible rounding. */
  lemma ExactRounds()
    ensures Rounds((x: real) => x)
  {
    forall x: real | Normal(x) ensures x > 0.0 {
      var e: nat :| e <= 1022 && x * PowerOfTwo(e) >= 1.0;
      assert x <= 0.0 ==> x * PowerOfTwo(e) <= 0.0;
    }
  }

  /** A value scaled back by k decimal places. */
  function ScaledBack(x: real, k: nat): real { x * TenTo(k) }

  /** The mantissa after k divisions by ten. */
  function Divided(mantissa: nat, k: nat, rnd: real -> real): real {
    if k == 0 then mantissa as real else rnd(Divided(mantissa, k - 1, rnd) / 10.0)
  }

  lemma {:induction false} TenBelowSixteen(k: nat)
    ensures 1.0 <= TenTo(k) <= PowerOfTwo(4 * k)
  {
    if k == 0 {
    } else {
      TenBelowSixteen(k - 1);
      var p, q := TenTo(k - 1), PowerOfTwo(4 * k - 4);
      assert PowerOfTwo(4 * k - 3) == 2.0 * q;
      assert PowerOfTwo(4 * k - 2) == 4.0 * q;
      assert PowerOfTwo(4 * k - 1) == 8.0 * q;
      assert PowerOfTwo(4 * k) == 16.0 * q;
    }
  }

  lemma MonotoneProduct(x: real, a: real, b: real)
    requires x >= 0.0 && a <= b
    ensures x * a <= x * b
  {
    assert x * (b - a) >= 0.0;
  }

  lemma NegativeProduct(x: real, a: real)
    requires x < 0.0 && a > 0.0
    ensures x * a < 0.0
  {
  }

  /** No value met in 255 divisions leaves the normal range. */
  lemma StaysNormal(x: real, p: real, y: real, k: nat)
    requires k <= 255 && p == TenTo(k) && y == x * p && 0.5 <= y
    ensures x > 0.0 && Normal(x)
  {
    TenBelowSixteen(k);
    var m := PowerOfTwo(4 * k);
    if x < 0.0 { NegativeProduct(x, p); }
    MonotoneProduct(x, p, m);
    var e := 4 * k + 1;
    var m' := PowerOfTwo(e);
    assert m' == 2.0 * m;
    assert x * m' == 2.0 * (x * m);
    assert x * PowerOfTwo(e) >= 1.0;
  }

  lemma ScaledDistance(x: real, y: real, q: real)
    requires q > 0.0
    ensures Distance(x * q, y * q) == q * Distance(x, y)
  {
    assert q * (y - x) == y * q - x * q;
    if x < y {
      MonotoneProduct(q, 0.0, y - x);
      NegativeProduct(x - y, q);
    } else {
      MonotoneProduct(q, 0.0, x - y);
    }
  }

  /** One rounded division moves the scaled value `y` by at most UNIT of itself. */
  lemma DivisionError(x: real, x': real, q: real, y: real, y': real)
    requires q > 0.0 && y == (x / 10.0) * q && y' == x' * q
    requires Distance(x', x / 10.0) <= UNIT * (x / 10.0)
    ensures Distance(y', y) <= UNIT * y
  {
    var z := x / 10.0;
    ScaledDistance(x', z, q);
    MonotoneProduct(q, Distance(x', z), UNIT * z);
    assert q * (UNIT * z) == UNIT * (z * q);
  }

  ghost function ErrorBound(mantissa: nat, k: nat): real { 2.0 * k as real * (UNIT * mantissa as real) }

  lemma BoundGrows(mantissa: nat, k: nat)
    ensures ErrorBound(mantissa, k + 1) == ErrorBound(mantissa, k) + 2.0 * (UNIT * mantissa as real)
  {
    var e := UNIT * mantissa as real;
    assert 2.0 * (k + 1) as real * e == 2.0 * k as real * e + 2.0 * e;
  }

  lemma Near(a: real, m: real, bound: real)
    requires m >= 1.0 && bound <= 0.5 * m && Distance(a, m) <= bound
    ensures 0.5 <= a <= 2.0 * m
  {
  }

  lemma Triangle(a: real, b: real, c: real)
    ensures Distance(a, c) <= Distance(a, b) + Distance(b, c)
  {
  }

  lemma Rescaled(x: real, p: real)
    ensures x * p == (x / 10.0) * (10.0 * p)
  {
    var y := x / 10.0;
    assert x == y * 10.0;
    assert (y * 10.0) * p == y * (10.0 * p);
  }

  lemma RoundedNotNegative(x': real, x: real)
    requires x >= 0.0 && Distance(x', x) <= UNIT * x
    ensures x' >= 0.0
  {
  }

  /** One division adds at most two units of relative error while the value is near the mantissa. */
  lemma ErrorStep(x: real, k: nat, m: real, bound: real, rnd: real -> real)
    requires Rounds(rnd) && 0 < k <= 255 && m >= 1.0 && bound <= 0.5 * m
    requires Distance(ScaledBack(x, k - 1), m) <= bound
    ensures var x' := rnd(x / 10.0);
            Normal(x / 10.0) && x' >= 0.0 && Distance(ScaledBack(x', k), m) <= bound + 2.0 * (UNIT * m)
  {
    var p, q := TenTo(k - 1), TenTo(k);
    var y := ScaledBack(x, k - 1);
    assert q == 10.0 * p;
    Rescaled(x, p);
    assert y == (x / 10.0) * q;
    Near(y, m, bound);
    StaysNormal(x / 10.0, q, y, k);
    var x' := rnd(x / 10.0);
    var y' := ScaledBack(x', k);
    RoundedNotNegative(x', x / 10.0);
    DivisionError(x, x', q, y, y');
    MonotoneProduct(UNIT, y, 2.0 * m);
    Triangle(y', y, m);
  }

  lemma {:induction false} ZeroStaysZero(k: nat, rnd: real -> real)
    requires Rounds(rnd)
    ensures Divided(0, k, rnd) == 0.0
  {
    if k > 0 { ZeroStaysZero(k - 1, rnd); }
  }

  /** 255 divisions stay below half a unit of the last decimal, and below half of the value. */
  lemma SmallBound(mantissa: nat, k: nat)
    requires mantissa < 0x1_0000_0000 && k <= 255
    ensures 0.0 <= ErrorBound(mantissa, k) < 0.5
    ensures mantissa > 0 ==> ErrorBound(mantissa, k) <= 0.5 * mantissa as real
  {
    var m, e := mantissa as real, 2.0 * k as real;
    assert e <= 510.0 && 0.0 <= m < 4294967296.0;
    assert 0.0 <= UNIT * m < UNIT * 4294967296.0;
    assert e * (UNIT * m) <= 510.0 * (UNIT * m);
    assert e * (UNIT * m) >= 0.0;
  }

  /**
   The accumulated error: after k divisions the value, scaled back, is within 2k units of
   relative error of the mantissa.
   */
  lemma {:induction false} AccumulatedError(mantissa: nat, k: nat, rnd: real -> real)
    requires mantissa < 0x1_0000_0000 && k <= 255 && Rounds(rnd)
    ensures Divided(mantissa, k, rnd) >= 0.0
    ensures Distance(ScaledBack(Divided(mantissa, k, rnd), k), mantissa as real) <= ErrorBound(mantissa, k)
    ensures mantissa > 0 && k > 0 ==> Normal(Divided(mantissa, k - 1, rnd) / 10.0)
  {
    if mantissa == 0 {
      ZeroStaysZero(k, rnd);
    } else if k > 0 {
      AccumulatedError(mantissa, k - 1, rnd);
      SmallBound(mantissa, k - 1);
      ErrorStep(Divided(mantissa, k - 1, rnd), k, mantissa as real, ErrorBound(mantissa, k - 1), rnd);
      BoundGrows(mantissa, k - 1);
    }
  }

  predicate Nearest(x: real, n: int) { Distance(x, n as real) <= 0.5 }

  lemma SameInteger(x: real, n: int, m: int)
    requires Distance(x, n as real) <= 0.5 && Distance(x, m as real) < 0.5
    ensures n == m
  {
    assert -1.0 < n as real - m as real < 1.0;
    assert n as real - m as real == (n - m) as real;
  }

  /**
   Conversion to decimal text (IEEE 754-2019, section 5.12.2): whichever nearest integer the
   scaled value is rounded to, it is the mantissa.
   */
  lemma NearestIsMantissa(mantissa: nat, power: nat, rnd: real -> real, n: int)
    requires mantissa < 0x1_0000_0000 && power <= 255 && Rounds(rnd)
    requires Nearest(ScaledBack(Divided(mantissa, power, rnd), power), n)
    ensures n == mantissa
  {
    AccumulatedError(mantissa, power, rnd);
    SmallBound(mantissa, power);
    SameInteger(ScaledBack(Divided(mantissa, power, rnd), power), n, mantissa);
  }

  /** A value divided once by a hundred is as exact. */
  lemma HundredthNearest(value: nat, rnd: real -> real, n: int)
    requires value < 0x1_0000 && Rounds(rnd)
    requires Nearest(ScaledBack(rnd(value as real / 100.0), 2), n)
    ensures n == value
  {
    assert TenTo(2) == 100.0 by {
      assert TenTo(0) == 1.0;
      assert TenTo(1) == 10.0;
    }
    var y := value as real / 100.0;
    if value > 0 {
      assert y * 100.0 == value as real && y >= 0.01;
      assert PowerOfTwo(7) == 128.0 by { assert PowerOfTwo(4) == 16.0; }
      assert Normal(y) by { assert y * PowerOfTwo(7) >= 1.0; }
      MonotoneProduct(UNIT, y, 656.0);
      ScaledDistance(rnd(y), y, 100.0);
    } else {
      assert y == 0.0;
    }
    SameInteger(rnd(y) * 100.0, n, value);
  }

  /** sprintf("%.*lf"): any nearest decimal with `scale` places may be printed. */
  method PrintFixed(x: real, scale: nat) returns (text: string, ghost units: nat)
    requires x >= 0.0
    ensures Nearest(ScaledBack(x, scale), units) && text == Fixed(units, scale)
  {
    var y := ScaledBack(x, scale);
    assert y >= 0.0;
    var floor := y.Floor;
    assert Nearest(y, floor) || Nearest(y, floor + 1);
    var n: nat :| Nearest(y, n);
    text, units := Fixed(n, scale), n;
  }
}
