/**
 * The numeric helpers of bp2d (src/utility/numerics.ts) and the pieces of
 * JavaScript number arithmetic the rest of the model needs, over exact reals.
 */
module Numerics {

  /** The integer part of `q`, rounded toward zero. */
  function Truncate(q: real): (k: int)
    ensures q >= 0.0 ==> k as real <= q < k as real + 1.0
    ensures q < 0.0 ==> k as real - 1.0 < q <= k as real
  {
    if q >= 0.0 then q.Floor else -((-q).Floor)
  }

  /**
   * JavaScript's remainder operator `x % m`: the quotient is truncated toward
   * zero, so the result takes the sign of the dividend (unlike Dafny's `%`).
   */
  function Remainder(x: real, m: real): real
    requires m != 0.0
  {
    x - m * Truncate(x / m) as real
  }

  /** The remainder is m times the part of x / m that truncation drops. */
  lemma RemainderIsScaledFraction(x: real, m: real)
    requires m != 0.0
    ensures Remainder(x, m) == m * (x / m - Truncate(x / m) as real)
    ensures -Remainder(x, m) == m * (Truncate(x / m) as real - x / m)
  {
  }

  lemma ProductBelow(r: real, m: real, f: real)
    requires m > 0.0 && 0.0 <= f < 1.0 && r == m * f
    ensures 0.0 <= r < m
    ensures f > 0.0 ==> r > 0.0
  {
  }

  /** The remainder lies strictly between -m and m and has the dividend's sign. */
  lemma RemainderBounds(x: real, m: real)
    requires m > 0.0
    ensures -m < Remainder(x, m) < m
    ensures x >= 0.0 ==> 0.0 <= Remainder(x, m)
    ensures x < 0.0 ==> Remainder(x, m) <= 0.0
    ensures x < 0.0 && Remainder(x, m) < 0.0 ==> x / m < Truncate(x / m) as real
  {
    RemainderIsScaledFraction(x, m);
    var t := Truncate(x / m) as real;
    if x / m >= 0.0 {
      ProductBelow(Remainder(x, m), m, x / m - t);
    } else {
      ProductBelow(-Remainder(x, m), m, t - x / m);
    }
    SignOfQuotient(x, m);
  }

  lemma SignOfQuotient(x: real, m: real)
    requires m > 0.0
    ensures x >= 0.0 <==> x / m >= 0.0
  {
  }

  /** `mod` (numerics.ts:7-10): the remainder, moved into [0, m) when negative. */
  function Mod(x: real, m: real): real
    requires m != 0.0
  {
    var r := Remainder(x, m);
    if r < 0.0 then r + m else r
  }

  lemma MulCancel(m: real, a: real, b: real)
    requires m != 0.0 && m * a == m * b
    ensures a == b
  {
  }

  lemma MulPredecessor(m: real, k: int)
    ensures m * (k - 1) as real == m * k as real - m
  {
  }

  /**
   * For a positive divisor `mod` is the floored modulo: it lies in [0, m) and
   * differs from x by a whole multiple of m.
   */
  lemma ModIsFlooredModulo(x: real, m: real)
    requires m > 0.0
    ensures 0.0 <= Mod(x, m) < m
    ensures x - Mod(x, m) == m * (x / m).Floor as real
  {
    RemainderBounds(x, m);
    SignOfQuotient(x, m);
    var q := x / m;
    var t := Truncate(q);
    assert x == m * q;
    if q >= 0.0 {
      assert t == q.Floor;
    } else if Remainder(x, m) == 0.0 {
      assert m * q == m * t as real;
      MulCancel(m, q, t as real);
      assert q.Floor == t;
    } else {
      assert q.Floor == t - 1;
      MulPredecessor(m, t);
    }
  }

  /** A value already in [0, m) is its own modulo. */
  lemma ModOfInRange(x: real, m: real)
    requires 0.0 <= x < m
    ensures Mod(x, m) == x
  {
    ModIsFlooredModulo(x, m);
    assert (x / m).Floor == 0 by {
      QuotientBelowOne(x, m);
    }
  }

  lemma QuotientBelowOne(x: real, m: real)
    requires 0.0 <= x < m
    ensures 0.0 <= x / m < 1.0
  {
  }

  /** Shifting the dividend by the divisor does not change the modulo. */
  lemma ModPeriodic(x: real, m: real)
    requires m > 0.0
    ensures Mod(x + m, m) == Mod(x, m)
  {
    ModIsFloored(x, m);
    ModIsFloored(x + m, m);
    FlooredPeriodic(x, m);
  }

  /** x less the whole multiples of m that its floored quotient counts. */
  function FlooredMod(x: real, m: real): real
    requires m != 0.0
  {
    x - m * (x / m).Floor as real
  }

  lemma ModIsFloored(x: real, m: real)
    requires m > 0.0
    ensures Mod(x, m) == FlooredMod(x, m)
  {
    ModIsFlooredModulo(x, m);
  }

  /** The floored remainders of x + m and of x by m agree. */
  lemma FlooredPeriodic(x: real, m: real)
    requires m > 0.0
    ensures FlooredMod(x + m, m) == FlooredMod(x, m)
  {
    QuotientShift(x, m);
    var k := ((x + m) / m).Floor;
    assert k - 1 == (x / m).Floor;
    MulPredecessor(m, k);
  }

  lemma QuotientShift(x: real, m: real)
    requires m > 0.0
    ensures (x + m) / m == x / m + 1.0
  {
    assert (x + m) / m == x / m + m / m;
  }

  /** On whole numbers with a positive divisor `mod` agrees with Dafny's `%`. */
  lemma ModOfIntegers(i: int, n: int)
    requires n > 0
    ensures Mod(i as real, n as real) == (i % n) as real
  {
    ModIsFlooredModulo(i as real, n as real);
    FloorOfIntegerQuotient(i, n);
    assert (n as real) * ((i / n) as real) == (n * (i / n)) as real;
  }

  /** Real division of whole numbers, rounded down, is Dafny's integer division. */
  lemma FloorOfIntegerQuotient(i: int, n: int)
    requires n > 0
    ensures ((i as real) / (n as real)).Floor == i / n
  {
    var q := i / n;
    var r := i % n;
    assert i == n * q + r;
    assert i as real == (n as real) * (q as real) + r as real;
    IntegerQuotient(i as real, n as real, q as real, r as real);
  }

  lemma IntegerQuotient(x: real, m: real, q: real, r: real)
    requires m > 0.0 && 0.0 <= r < m && x == m * q + r
    ensures q <= x / m < q + 1.0
  {
    assert x / m == q + r / m;
    QuotientBelowOne(r, m);
  }

  /** `inRange` (numerics.ts:19-21): both bounds are inclusive. */
  predicate InRange(target: real, lower: real, upper: real)
  {
    lower <= target && target <= upper
  }

  /** Each bound belongs to the range, and a range with lower > upper is empty. */
  lemma InRangeInclusive(lower: real, upper: real, target: real)
    ensures lower <= upper ==> InRange(lower, lower, upper) && InRange(upper, lower, upper)
    ensures lower > upper ==> !InRange(target, lower, upper)
  {
  }

  /**
   * Linear interpolation from a to b: p == 0 gives a, p == 1 gives b. The
   * `lerp` that src/geometry/vertex.ts and lineSegment.ts import is not defined
   * in numerics.ts; this is the behaviour their tests expect.
   */
  function Lerp(a: real, b: real, p: real): (r: real)
    ensures p == 0.0 ==> r == a
    ensures p == 1.0 ==> r == b
  {
    a + (b - a) * p
  }

  /** For p in [0, 1] the interpolated value stays between the two ends. */
  lemma LerpBetween(a: real, b: real, p: real)
    requires 0.0 <= p <= 1.0 && a <= b
    ensures a <= Lerp(a, b, p) <= b
  {
    ProductWithin(b - a, p);
  }

  lemma ProductWithin(d: real, p: real)
    requires d >= 0.0 && 0.0 <= p <= 1.0
    ensures 0.0 <= d * p <= d
  {
  }
}
