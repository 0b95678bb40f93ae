/** Decimal arithmetic under the context the loan maths runs in: 28 significant digits, ties to
    even. A decimal is modelled as the real number it denotes; `Round28` is the rounding every
    division, product, sum and difference goes through. */
module Decimal28 {

  /** 10^28 and 10^27: a normalised coefficient c has LOW <= |c| < TOP. */
  const TOP: real := 10000000000000000000000000000.0
  const LOW: real := 1000000000000000000000000000.0

  function Abs(x: real): real {
    if x < 0.0 then -x else x
  }

  /** Nearest integer, ties to the even neighbour. */
  function RoundHalfEven(x: real): int {
    var f := x.Floor;
    var fraction := x - f as real;
    if fraction < 0.5 then f
    else if fraction > 0.5 then f + 1
    else if f % 2 == 0 then f else f + 1
  }

  ghost function Distance(x: real): nat {
    if Abs(x) >= TOP then Abs(x).Floor
    else if 0.0 < Abs(x) < LOW then (LOW / Abs(x)).Floor
    else 0
  }

  lemma ScalingUpApproaches(x: real)
    requires 0.0 < Abs(x) < LOW
    ensures Distance(10.0 * x) < Distance(x)
  {
    var a := Abs(x);
    var r := LOW / a;
    assert r > 1.0;
    if Abs(10.0 * x) < LOW {
      assert Abs(10.0 * x) == 10.0 * a;
      var r10 := LOW / (10.0 * a);
      assert r10 == r / 10.0;
      assert r.Floor as real > r - 1.0 && r.Floor >= 1;
      assert r10 < r.Floor as real;
    }
  }

  /** The value rounded to 28 significant digits: scale the coefficient into [10^27, 10^28),
      round it half-even to an integer, scale back. */
  function Round28(x: real): real
    decreases Distance(x)
  {
    if x == 0.0 then 0.0
    else if Abs(x) >= TOP then 10.0 * Round28(x / 10.0)
    else if Abs(x) < LOW then
      ScalingUpApproaches(x);
      Round28(10.0 * x) / 10.0
    else RoundHalfEven(x) as real
  }

  function Plus(x: real, y: real): real { Round28(x + y) }

  function Minus(x: real, y: real): real { Round28(x - y) }

  function Times(x: real, y: real): real { Round28(x * y) }

  function DividedBy(x: real, y: real): real
    requires y != 0.0
  {
    Round28(x / y)
  }

  function Pow10(k: int): real
    decreases if k < 0 then -k else k
  {
    if k == 0 then 1.0 else if k > 0 then 10.0 * Pow10(k - 1) else Pow10(k + 1) / 10.0
  }

  lemma {:induction false} Pow10Step(k: int)
    ensures Pow10(k + 1) == 10.0 * Pow10(k)
    ensures Pow10(k) > 0.0
    decreases if k < 0 then -k else k
  {
    if k < 0 { Pow10Step(k + 1); } else if k > 0 { Pow10Step(k - 1); }
  }

  lemma {:induction false} Pow10Monotone(j: int, k: int)
    requires j <= k
    ensures Pow10(j) <= Pow10(k)
    decreases k - j
  {
    if j < k {
      Pow10Monotone(j, k - 1);
      Pow10Step(k - 1);
    }
  }

  lemma {:induction false} Pow10Adds(j: int, n: nat)
    ensures Pow10(j + n) == Pow10(j) * Pow10(n)
  {
    if n > 0 {
      hide Pow10;
      Pow10Adds(j, n - 1);
      Pow10Step(j + n - 1);
      Pow10Step(n - 1);
      assert Pow10(j) * (10.0 * Pow10(n - 1)) == 10.0 * (Pow10(j) * Pow10(n - 1));
    }
  }

  /** The rounding error is at most half a unit of the 28th digit: an argument of at most
      28 + k integer digits is moved by at most half of 10^k. */
  lemma {:induction false} RoundError(x: real, k: int)
    requires Abs(x) <= TOP * Pow10(k)
    ensures Abs(Round28(x) - x) <= Pow10(k) / 2.0
    decreases Distance(x)
  {
    Pow10Step(k);
    Pow10Step(k - 1);
    if x == 0.0 {
    } else if Abs(x) >= TOP {
      RoundError(x / 10.0, k - 1);
    } else if Abs(x) < LOW {
      ScalingUpApproaches(x);
      RoundError(10.0 * x, k + 1);
    } else {
      NormalisedError(x, k);
    }
  }

  lemma NormalisedError(x: real, k: int)
    requires LOW <= Abs(x) < TOP && Abs(x) <= TOP * Pow10(k)
    ensures Abs(RoundHalfEven(x) as real - x) <= Pow10(k) / 2.0
  {
    Pow10Step(k);
    if k >= 0 {
      Pow10Monotone(0, k);
    } else {
      var low := 1000000000000000000000000000;
      assert low as real == LOW;
      Pow10Monotone(k, -1);
      assert Pow10(-1) == Pow10(0) / 10.0;
      NearestInteger(x, if x < 0.0 then -low else low);
    }
  }

  /** The relative error is at most 1 / (2 * 10^27), whatever the magnitude. */
  lemma {:induction false} RoundRelativeError(x: real)
    ensures 2000000000000000000000000000.0 * Abs(Round28(x) - x) <= Abs(x)
    decreases Distance(x)
  {
    if x == 0.0 {
    } else if Abs(x) >= TOP {
      RoundRelativeError(x / 10.0);
    } else if Abs(x) < LOW {
      ScalingUpApproaches(x);
      RoundRelativeError(10.0 * x);
    }
  }

  /** Rounding keeps the sign of its argument. */
  lemma {:induction false} RoundSign(x: real)
    ensures x >= 0.0 ==> Round28(x) >= 0.0
    ensures x <= 0.0 ==> Round28(x) <= 0.0
    decreases Distance(x)
  {
    if x == 0.0 {
    } else if Abs(x) >= TOP {
      RoundSign(x / 10.0);
    } else if Abs(x) < LOW {
      ScalingUpApproaches(x);
      RoundSign(10.0 * x);
    }
  }

  /** The nearest integer, and of two equally near the even one. */
  lemma RoundHalfEvenExactly(x: real, z: int)
    ensures z == RoundHalfEven(x) <==> Abs(z as real - x) < 0.5 || (Abs(z as real - x) == 0.5 && z % 2 == 0)
  {
    var f := x.Floor;
    if z < f { assert z as real <= f as real - 1.0; }
    if z > f + 1 { assert z as real >= f as real + 2.0; }
  }

  /** Scaled to a coefficient of 28 digits, a value is rounded as that coefficient is, ties to even. */
  lemma {:induction false} RoundsItsCoefficient(x: real, k: int, coefficient: real)
    requires coefficient == x * Pow10(k) && LOW <= Abs(coefficient) < TOP
    ensures Round28(x) * Pow10(k) == RoundHalfEven(coefficient) as real
    decreases if k < 0 then -k else k
  {
    hide RoundHalfEven, Pow10, Round28, Abs;
    if k == 0 {
      PowZero();
      NormalisedRounds(x);
    } else if k < 0 {
      Pow10Step(k);
      PowBelowOne(k);
      var y := x / 10.0;
      ShiftedProduct(y, x, Pow10(k + 1), Pow10(k));
      RoundsItsCoefficient(y, k + 1, coefficient);
      LargeIsScaledDown(x, Pow10(k), coefficient);
      ShiftedProduct(Round28(y), Round28(x), Pow10(k + 1), Pow10(k));
    } else {
      Pow10Step(k - 1);
      PowAboveOne(k);
      var y := 10.0 * x;
      ShiftedProduct(x, y, Pow10(k), Pow10(k - 1));
      RoundsItsCoefficient(y, k - 1, coefficient);
      SmallIsScaledUp(x, Pow10(k), coefficient);
      ShiftedProduct(Round28(x), Round28(y), Pow10(k), Pow10(k - 1));
    }
  }

  lemma NormalisedRounds(x: real)
    requires LOW <= Abs(x) < TOP
    ensures Round28(x) == RoundHalfEven(x) as real
  {}

  lemma PowZero()
    ensures Pow10(0) == 1.0
  {}

  lemma PowBelowOne(k: int)
    requires k < 0
    ensures 0.0 < Pow10(k) <= 0.1
  {
    Pow10Step(k);
    Pow10Monotone(k, -1);
    assert Pow10(-1) == Pow10(0) / 10.0;
  }

  lemma PowAboveOne(k: int)
    requires k > 0
    ensures Pow10(k) >= 10.0
  {
    Pow10Monotone(1, k);
    assert Pow10(1) == 10.0 * Pow10(0);
  }

  lemma ShiftedProduct(x: real, y: real, p: real, q: real)
    requires y == 10.0 * x && p == 10.0 * q
    ensures x * p == y * q
  {}

  lemma LargeIsScaledDown(x: real, p: real, coefficient: real)
    requires coefficient == x * p && LOW <= Abs(coefficient) && 0.0 < p <= 0.1
    ensures Round28(x) == 10.0 * Round28(x / 10.0)
  {
    if Abs(x) < TOP { ScaledBelow(Abs(x), TOP, p); }
    assert Abs(coefficient) == Abs(x) * p;
  }

  lemma ScaledBelow(a: real, b: real, p: real)
    requires a < b && 0.0 < p <= 0.1 && b > 0.0
    ensures a * p < b * 0.1
  {
    assert a * p < b * p <= b * 0.1;
  }

  lemma AboveScaled(a: real, p: real)
    requires a >= LOW && p >= 10.0
    ensures a * p >= TOP
  {
    assert a * p >= a * 10.0;
  }

  lemma SmallIsScaledUp(x: real, p: real, coefficient: real)
    requires coefficient == x * p && LOW <= Abs(coefficient) < TOP && p >= 10.0
    ensures 10.0 * Round28(x) == Round28(10.0 * x)
  {
    assert Abs(coefficient) == Abs(x) * p;
    if Abs(x) >= LOW { AboveScaled(Abs(x), p); }
    assert x != 0.0;
  }

  lemma ProductSign(x: real, y: real)
    requires x >= 0.0 && y >= 0.0
    ensures x * y >= 0.0
  {}

  lemma TimesSign(x: real, y: real)
    requires x >= 0.0 && y >= 0.0
    ensures Times(x, y) >= 0.0
  {
    hide Round28;
    ProductSign(x, y);
    RoundSign(x * y);
  }

  // ---------------------------------------------------------------------
  // Round28 is the correctly rounded 28-digit decimal
  // ---------------------------------------------------------------------

  /** `y` has a coefficient of at most 28 digits (10^28 itself is a one-digit coefficient). */
  ghost predicate Representable(y: real, m: int, e: int) {
    Abs(m as real) <= TOP && y == m as real * Pow10(e)
  }

  ghost predicate IsDecimal28(y: real) {
    exists m, e :: Representable(y, m, e)
  }

  lemma ScaleUp(y: real)
    requires IsDecimal28(y)
    ensures IsDecimal28(10.0 * y)
  {
    var m, e :| Representable(y, m, e);
    hide Pow10;
    Pow10Step(e);
    TenfoldProduct(m as real, Pow10(e));
    assert Representable(10.0 * y, m, e + 1);
  }

  lemma TenfoldProduct(m: real, p: real)
    ensures m * (10.0 * p) == 10.0 * (m * p)
  {}

  lemma ScaleDown(y: real)
    requires IsDecimal28(y)
    ensures IsDecimal28(y / 10.0)
  {
    var m, e :| Representable(y, m, e);
    hide Pow10;
    Pow10Step(e - 1);
    TenfoldProduct(m as real, Pow10(e - 1));
    assert Representable(y / 10.0, m, e - 1);
  }

  lemma {:induction false} Pow10IsInteger(e: nat) returns (p: int)
    ensures p as real == Pow10(e) && p >= 1
  {
    if e == 0 { p := 1; } else { p := Pow10IsInteger(e - 1); p := 10 * p; }
  }

  lemma ScaledBound(c: real, p: real)
    requires Abs(c) <= TOP && 0.0 <= p <= 0.1
    ensures Abs(c * p) <= LOW
  {
    assert c * p <= TOP * p && (-TOP) * p <= c * p;
    assert TOP * p <= TOP * 0.1 == LOW;
    assert (-TOP) * p == -(TOP * p);
  }

  lemma SmallWhenNegativeExponent(y: real, m: int, e: int)
    requires Representable(y, m, e) && e < 0
    ensures Abs(y) <= LOW
  {
    Pow10Step(e);
    Pow10Monotone(e, -1);
    assert Pow10(-1) == Pow10(0) / 10.0 == 0.1;
    ScaledBound(m as real, Pow10(e));
  }

  lemma IntegerWhenPositiveExponent(y: real, m: int, e: nat) returns (z: int)
    requires Representable(y, m, e)
    ensures y == z as real
  {
    var p := Pow10IsInteger(e);
    z := m * p;
    var scale := Pow10(e);
    assert y == m as real * scale;
    assert m as real * p as real == z as real;
  }

  /** A 28-digit decimal is an integer, or no larger than 10^27 in absolute value. */
  lemma IntegerOrSmall(y: real) returns (z: int)
    requires IsDecimal28(y)
    ensures Abs(y) <= LOW || y == z as real
  {
    var m, e :| Representable(y, m, e);
    z := 0;
    if e >= 0 {
      z := IntegerWhenPositiveExponent(y, m, e);
    } else {
      SmallWhenNegativeExponent(y, m, e);
    }
  }

  lemma NearestInteger(x: real, z: int)
    ensures Abs(RoundHalfEven(x) as real - x) <= Abs(z as real - x)
  {
    if z <= x.Floor { assert z as real <= x.Floor as real; } else { assert z as real >= x.Floor as real + 1.0; }
  }

  /** No 28-digit decimal is nearer to `x` than `Round28(x)`, which is one itself. */
  lemma {:induction false} RoundIsNearest(x: real, y: real)
    requires IsDecimal28(y)
    ensures IsDecimal28(Round28(x))
    ensures Abs(Round28(x) - x) <= Abs(y - x)
    decreases Distance(x)
  {
    if x == 0.0 {
      assert Representable(0.0, 0, 0);
    } else if Abs(x) >= TOP {
      ScaleDown(y);
      RoundIsNearest(x / 10.0, y / 10.0);
      ScaleUp(Round28(x / 10.0));
    } else if Abs(x) < LOW {
      ScalingUpApproaches(x);
      ScaleUp(y);
      RoundIsNearest(10.0 * x, 10.0 * y);
      ScaleDown(Round28(10.0 * x));
    } else {
      NormalisedIsNearest(x, y);
    }
  }

  lemma NormalisedIsNearest(x: real, y: real)
    requires LOW <= Abs(x) < TOP && IsDecimal28(y)
    ensures IsDecimal28(RoundHalfEven(x) as real)
    ensures Abs(RoundHalfEven(x) as real - x) <= Abs(y - x)
  {
    NormalisedIsRepresentable(x);
    var z := IntegerOrSmall(y);
    NearestInteger(x, z);
    if Abs(y) <= LOW { NearerThanSmall(x, y); }
  }

  lemma NormalisedIsRepresentable(x: real)
    requires Abs(x) < TOP
    ensures IsDecimal28(RoundHalfEven(x) as real)
  {
    var top, r := 10000000000000000000000000000, RoundHalfEven(x);
    assert top as real == TOP;
    assert x < top as real ==> x.Floor < top;
    assert Abs(r as real) <= TOP;
    assert Pow10(0) == 1.0;
    assert Representable(r as real, r, 0);
  }

  lemma NearerThanSmall(x: real, y: real)
    requires LOW <= Abs(x) && Abs(y) <= LOW
    ensures Abs(RoundHalfEven(x) as real - x) <= Abs(y - x)
  {}

  /** Rounding changes nothing exactly when the value already has at most 28 digits. */
  lemma RoundFixesExactlyDecimals(x: real)
    ensures Round28(x) == x <==> IsDecimal28(x)
  {
    assert Representable(0.0, 0, 0);
    RoundIsNearest(x, 0.0);
    if IsDecimal28(x) { RoundIsNearest(x, x); }
  }
}
