/**
 * Coordinate pairs and the arithmetic that src/geometry/vector.ts and
 * src/geometry/vertex.ts perform on them. A `Pt` is the value held by a
 * Vertex (a position) or a Vector (its proportions); the classes in
 * modules Vectors and Vertices state their operations through these
 * functions.
 */
module Planar {
  import opened Numerics
  import opened JsMath

  datatype Pt = Pt(x: real, y: real)

  const Origin: Pt := Pt(0.0, 0.0)

  /** `Vertex.PRECISION_THRESHOLD`, 1E-9. */
  const PRECISION_THRESHOLD: real := 0.000000001

  const TAU: real := 2.0 * PI

  function Plus(a: Pt, b: Pt): Pt
  {
    Pt(a.x + b.x, a.y + b.y)
  }

  function Minus(a: Pt, b: Pt): Pt
  {
    Pt(a.x - b.x, a.y - b.y)
  }

  function Times(a: Pt, factor: real): Pt
  {
    Pt(a.x * factor, a.y * factor)
  }

  function Dot(a: Pt, b: Pt): real
  {
    a.x * b.x + a.y * b.y
  }

  /** The z-component of the cross product of a and b. */
  function Cross(a: Pt, b: Pt): real
  {
    a.x * b.y - a.y * b.x
  }

  /** `magnitude`: `(x ** 2 + y ** 2) ** 0.5`. */
  function Magnitude(a: Pt): real
  {
    Hypot(a.x, a.y)
  }

  /** `normalize`: divides by the magnitude, and leaves a zero-length vector alone. */
  function Normalized(a: Pt): Pt
  {
    var length := Magnitude(a);
    if length == 0.0 then a else Pt(a.x / length, a.y / length)
  }

  /**
   * `standardizeAngle`, `((angle % 2PI) + 2PI) % 2PI` with JavaScript's `%`,
   * in closed form: the angle less its whole turns, counted by the floor.
   * StandardizeAngleIsModulo shows that the two expressions agree.
   */
  function StandardizeAngle(angle: real): real
  {
    angle - TAU * (angle / TAU).Floor as real
  }

  function Angle(v: Pt): real
  {
    StandardizeAngle(Atan2(v.y, v.x))
  }

  /** `Vector.unit`: cosine and sine of the standardised angle. */
  function Unit(angle: real): Pt
  {
    var standard := StandardizeAngle(angle);
    Pt(Cos(standard), Sin(standard))
  }

  /** `angleBetween`: the counter-clockwise angle from a to b, in [0, 2PI). */
  function AngleBetween(a: Pt, b: Pt): real
  {
    StandardizeAngle(Angle(b) - Angle(a))
  }

  function Rotated(v: Pt, angle: real): Pt
  {
    var cos := Cos(angle);
    var sin := Sin(angle);
    Pt(v.x * cos - v.y * sin, v.x * sin + v.y * cos)
  }

  /** `reflect`: reflection across the line through the origin along `axis`. */
  function Reflected(v: Pt, axis: Pt): Pt
  {
    ReflectedAtAngle(v, StandardizeAngle(2.0 * Angle(axis)))
  }

  /** Reflection across the line through the origin at half of `angle`. */
  function ReflectedAtAngle(v: Pt, angle: real): Pt
  {
    var cos := Cos(angle);
    var sin := Sin(angle);
    Pt(v.x * cos + v.y * sin, v.x * sin - v.y * cos)
  }

  /** `isEquivalentTo`: both coordinates differ by strictly less than the threshold. */
  predicate Equivalent(a: Pt, b: Pt)
  {
    Abs(a.x - b.x) < PRECISION_THRESHOLD && Abs(a.y - b.y) < PRECISION_THRESHOLD
  }

  /** `distanceBetween`: the magnitude of b - a. */
  function Distance(a: Pt, b: Pt): real
  {
    Magnitude(Minus(b, a))
  }

  /** Static `Vertex.scale`: control + factor * (v - control). */
  function ScaledAbout(v: Pt, factor: real, control: Pt): Pt
  {
    Plus(control, Times(Minus(v, control), factor))
  }

  /** Static `Vertex.rotate`: v turned about control. */
  function RotatedAbout(v: Pt, angle: real, control: Pt): Pt
  {
    Plus(control, Rotated(Minus(v, control), angle))
  }

  /** Static `Vertex.reflect`: a zero-length axis leaves the position unchanged. */
  function ReflectedAbout(v: Pt, axis: Pt, control: Pt): Pt
  {
    if Magnitude(axis) > 0.0 then Plus(control, Reflected(Minus(v, control), axis)) else v
  }

  /**
   * Static `Vertex.angleBetween`: the turn from heading to the direction a->b,
   * folded from [0, 2PI) into (-PI, PI]. The source folds a full angle above
   * PI with `-(PI - full % PI)`; TurnAngleRange shows that this is full - 2PI.
   */
  function TurnAngle(a: Pt, b: Pt, heading: real): real
  {
    var full := AngleBetween(Unit(heading), Minus(b, a));
    if full > PI then full - TAU else full
  }

  /** Static `Vertex.lerp`: each coordinate interpolated separately. */
  function LerpPt(start: Pt, end: Pt, proportion: real): Pt
  {
    Pt(Lerp(start.x, end.x, proportion), Lerp(start.y, end.y, proportion))
  }

  /** The arithmetic mean of a list of positions (the sums of `Vertex.mean`). */
  function SumX(ps: seq<Pt>): real
  {
    if ps == [] then 0.0 else SumX(ps[..|ps| - 1]) + ps[|ps| - 1].x
  }

  function SumY(ps: seq<Pt>): real
  {
    if ps == [] then 0.0 else SumY(ps[..|ps| - 1]) + ps[|ps| - 1].y
  }

  /** The componentwise arithmetic mean of a non-empty list of positions. */
  function MeanPt(ps: seq<Pt>): Pt
    requires |ps| > 0
  {
    Pt(SumX(ps) / |ps| as real, SumY(ps) / |ps| as real)
  }

  // ----- angles -----

  lemma RemainderOfSmall(y: real, m: real)
    requires m > 0.0 && 0.0 <= y < 2.0 * m
    ensures y < m ==> Remainder(y, m) == y
    ensures m <= y ==> Remainder(y, m) == y - m
  {
    if y < m {
      QuotientBelowOne(y, m);
      assert Truncate(y / m) == 0;
    } else {
      QuotientBelowOne(y - m, m);
      QuotientShift(y - m, m);
      assert Truncate(y / m) == 1;
    }
  }

  /**
   * The closed form is the source's `((angle % 2PI) + 2PI) % 2PI` and the
   * floored modulo `mod(angle, 2PI)`, and it lies in [0, 2PI).
   */
  lemma StandardizeAngleIsModulo(angle: real)
    ensures StandardizeAngle(angle) == Remainder(Remainder(angle, TAU) + TAU, TAU)
    ensures StandardizeAngle(angle) == Mod(angle, TAU)
    ensures 0.0 <= StandardizeAngle(angle) < TAU
  {
    RemainderBounds(angle, TAU);
    RemainderOfSmall(Remainder(angle, TAU) + TAU, TAU);
    ModIsFlooredModulo(angle, TAU);
  }

  /** An angle already in [0, 2PI) is unchanged, and whole turns are forgotten. */
  lemma StandardizeAngleCanonical(angle: real)
    ensures 0.0 <= angle < TAU ==> StandardizeAngle(angle) == angle
    ensures StandardizeAngle(angle + TAU) == StandardizeAngle(angle)
  {
    StandardizeAngleIsModulo(angle);
    StandardizeAngleIsModulo(angle + TAU);
    ModPeriodic(angle, TAU);
    if 0.0 <= angle < TAU {
      ModOfInRange(angle, TAU);
    }
  }

  /** The folded turn lies in (-PI, PI]. */
  lemma TurnAngleBounds(a: Pt, b: Pt, heading: real)
    ensures -PI < TurnAngle(a, b, heading) <= PI
  {
    TurnAngleRange(a, b, heading);
  }

  /** The folded turn lies in (-PI, PI] and is the source's fold `-(PI - full % PI)`. */
  lemma TurnAngleRange(a: Pt, b: Pt, heading: real)
    ensures -PI < TurnAngle(a, b, heading) <= PI
    ensures var full := AngleBetween(Unit(heading), Minus(b, a));
      TurnAngle(a, b, heading) == if full > PI then -(PI - Remainder(full, PI)) else full
  {
    var full := AngleBetween(Unit(heading), Minus(b, a));
    StandardizeAngleIsModulo(Angle(Minus(b, a)) - Angle(Unit(heading)));
    if full > PI {
      RemainderOfSmall(full, PI);
    }
  }

  // ----- equivalence -----

  /** Equivalence is reflexive and symmetric. */
  lemma EquivalentReflexiveSymmetric(a: Pt, b: Pt)
    ensures Equivalent(a, a)
    ensures Equivalent(a, b) <==> Equivalent(b, a)
  {
  }

  /** The threshold is exclusive: points exactly 1E-9 apart are not equivalent. */
  lemma EquivalentThresholdExclusive()
    ensures !Equivalent(Pt(0.0, 0.0), Pt(PRECISION_THRESHOLD, 0.0))
    ensures Equivalent(Pt(0.0, 0.0), Pt(PRECISION_THRESHOLD / 2.0, -PRECISION_THRESHOLD / 2.0))
  {
  }

  /** Equivalence is not transitive: two steps of 0.6E-9 add up to more than the threshold. */
  lemma EquivalentNotTransitive()
    ensures var a, b, c := Pt(0.0, 0.0), Pt(0.0000000006, 0.0), Pt(0.0000000012, 0.0);
      Equivalent(a, b) && Equivalent(b, c) && !Equivalent(a, c)
  {
  }

  // ----- vector arithmetic -----

  /** Subtracting then adding the same vector gives back the original. */
  lemma MinusPlusRoundTrip(a: Pt, b: Pt)
    ensures Plus(Minus(a, b), b) == a
    ensures Minus(Plus(a, b), b) == a
  {
  }

  /** The cross product is antisymmetric, so a vector crossed with itself is zero. */
  lemma CrossAntisymmetric(a: Pt, b: Pt)
    ensures Cross(a, b) == -Cross(b, a)
    ensures Cross(a, a) == 0.0
    ensures Dot(a, b) == Dot(b, a)
  {
  }

  /**
   * Only the zero vector has zero magnitude, so it is the one vector that
   * normalisation leaves alone without dividing.
   */
  lemma NormalizedZero(a: Pt)
    ensures a == Origin <==> Magnitude(a) == 0.0
    ensures Normalized(Origin) == Origin
  {
  }

  /** The distance is symmetric, never negative, and zero exactly between equal points. */
  lemma DistanceProperties(a: Pt, b: Pt)
    ensures Distance(a, b) == Distance(b, a)
    ensures Distance(a, b) >= 0.0
    ensures Distance(a, b) == 0.0 <==> a == b
  {
    var d := Minus(b, a);
    assert Minus(a, b) == Pt(-d.x, -d.y);
  }

  /**
   * Transforming about a control point never moves the control point itself,
   * and a scale factor of 1 moves nothing.
   */
  lemma ControlPointFixed(c: Pt, v: Pt, factor: real, angle: real, axis: Pt)
    ensures ScaledAbout(c, factor, c) == c
    ensures RotatedAbout(c, angle, c) == c
    ensures ReflectedAbout(c, axis, c) == c
    ensures ScaledAbout(v, 1.0, c) == v
  {
    assert Minus(c, c) == Origin;
    ZeroVectorFixed(factor, angle, axis);
  }

  lemma ZeroVectorFixed(factor: real, angle: real, axis: Pt)
    ensures Times(Origin, factor) == Origin
    ensures Rotated(Origin, angle) == Origin
    ensures Reflected(Origin, axis) == Origin
  {
    ReflectedOrigin(StandardizeAngle(2.0 * Angle(axis)));
  }

  lemma ReflectedOrigin(angle: real)
    ensures ReflectedAtAngle(Origin, angle) == Origin
  {
  }

  /** Scaling about a control point multiplies the offset from it by the factor. */
  lemma ScaledAboutOffset(v: Pt, factor: real, control: Pt)
    ensures Minus(ScaledAbout(v, factor, control), control) == Times(Minus(v, control), factor)
  {
  }

  /** Interpolation starts at the first point and ends at the second. */
  lemma LerpPtEnds(start: Pt, end: Pt)
    ensures LerpPt(start, end, 0.0) == start
    ensures LerpPt(start, end, 1.0) == end
  {
  }

  /** The mean of n copies of one position is that position. */
  lemma MeanOfRepeated(p: Pt, n: nat)
    requires n > 0
    ensures MeanPt(seq(n, _ => p)) == p
  {
    SumOfRepeated(p, n);
  }

  lemma {:induction false} SumOfRepeated(p: Pt, n: nat)
    ensures SumX(seq(n, _ => p)) == n as real * p.x
    ensures SumY(seq(n, _ => p)) == n as real * p.y
  {
    if n > 0 {
      var ps := seq(n, _ => p);
      assert ps[..n - 1] == seq(n - 1, _ => p);
      SumOfRepeated(p, n - 1);
    }
  }
}
