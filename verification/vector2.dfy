/**
 * The `Vector2` class of src/vector2.ts, an earlier copy of the geometry
 * `Vector`. It behaves the same except for its static `subtract`, which
 * adds: `SumForDifference` models that code as written and `Difference`
 * the documented difference.
 */
module Vectors2 {
  import opened Numerics
  import opened JsMath
  import opened Planar

  class Vector2 {
    var x: real
    var y: real

    constructor (x: real := 0.0, y: real := 0.0)
      ensures this.x == x && this.y == y
    {
      this.x := x;
      this.y := y;
    }

    /** The proportions as a value. */
    function Value(): Pt
      reads this
    {
      Pt(x, y)
    }

    /** `copy`: a new object with equal proportions. */
    method Copy() returns (r: Vector2)
      ensures fresh(r) && r.Value() == Value()
    {
      r := new Vector2(x, y);
    }

    /** `unit`: the vector at the standardised angle. */
    static method Unit(angle: real) returns (r: Vector2)
      ensures fresh(r) && r.Value() == Planar.Unit(angle)
    {
      var standard := StandardizeAngle(angle);
      r := new Vector2(Cos(standard), Sin(standard));
    }

    /** `magnitude`: never negative, and zero only for the zero vector. */
    function Magnitude(): (m: real)
      reads this
      ensures m >= 0.0
      ensures m == 0.0 <==> x == 0.0 && y == 0.0
    {
      Planar.Magnitude(Value())
    }

    /** `angle`: always a standard angle, in [0, 2PI). */
    function Angle(): (a: real)
      reads this
      ensures 0.0 <= a < TAU
    {
      StandardizeAngleIsModulo(Atan2(y, x));
      Planar.Angle(Value())
    }

    /** `dot`: symmetric in its two operands. */
    function Dot(other: Vector2): (d: real)
      reads this, other
      ensures d == Planar.Dot(other.Value(), Value())
    {
      Planar.Dot(Value(), other.Value())
    }

    /** `cross`: antisymmetric, so a vector crossed with itself gives zero. */
    function Cross(other: Vector2): (c: real)
      reads this, other
      ensures c == -Planar.Cross(other.Value(), Value())
      ensures other == this ==> c == 0.0
    {
      Planar.Cross(Value(), other.Value())
    }

    /** `angleBetween`: the counter-clockwise angle to `other`, in [0, 2PI). */
    function AngleBetween(other: Vector2): (a: real)
      reads this, other
      ensures 0.0 <= a < TAU
    {
      StandardizeAngleIsModulo(Planar.Angle(other.Value()) - Planar.Angle(Value()));
      Planar.AngleBetween(Value(), other.Value())
    }

    /** Instance `add`. */
    method Add(other: Vector2) returns (r: Vector2)
      modifies this
      ensures r == this
      ensures Value() == Plus(old(Value()), old(other.Value()))
    {
      x := x + other.x;
      y := y + other.y;
      r := this;
    }

    /** Instance `subtract`. */
    method Subtract(other: Vector2) returns (r: Vector2)
      modifies this
      ensures r == this
      ensures Value() == Minus(old(Value()), old(other.Value()))
    {
      x := x - other.x;
      y := y - other.y;
      r := this;
    }

    /** Instance `scale`. */
    method Scale(factor: real) returns (r: Vector2)
      modifies this
      ensures r == this
      ensures Value() == Times(old(Value()), factor)
    {
      x := x * factor;
      y := y * factor;
      r := this;
    }

    /** Instance `normalize`: a zero-length vector is returned untouched. */
    method Normalize() returns (r: Vector2)
      modifies this
      ensures r == this
      ensures Value() == Normalized(old(Value()))
      ensures old(Value()) == Origin ==> Value() == Origin
    {
      var length := Magnitude();
      r := this;
      if length == 0.0 {
        return;
      }
      x := x / length;
      y := y / length;
    }

    /** Instance `rotate`. */
    method Rotate(angle: real) returns (r: Vector2)
      modifies this
      ensures r == this
      ensures Value() == Rotated(old(Value()), angle)
    {
      var cos := Cos(angle);
      var sin := Sin(angle);
      var x' := x * cos - y * sin;
      var y' := x * sin + y * cos;
      x, y := x', y';
      r := this;
    }

    /** Instance `reflect`: the axis's angle is read before anything is written. */
    method Reflect(axis: Vector2) returns (r: Vector2)
      modifies this
      ensures r == this
      ensures Value() == Reflected(old(Value()), old(axis.Value()))
    {
      ghost var before := Value();
      var angle := StandardizeAngle(2.0 * Planar.Angle(axis.Value()));
      var cos := Cos(angle);
      var sin := Sin(angle);
      var x' := x * cos + y * sin;
      var y' := x * sin - y * cos;
      x, y := x', y';
      assert Value() == ReflectedAtAngle(before, angle);
      r := this;
    }

    /** Static `add`: a new vector; neither argument changes. */
    static method Sum(a: Vector2, b: Vector2) returns (r: Vector2)
      ensures fresh(r) && r.Value() == Plus(a.Value(), b.Value())
    {
      r := a.Copy();
      r := r.Add(b);
    }

    /**
     * Static `subtract` as written: it copies the first vector and then
     * ADDS the second, so the result is the sum.
     */
    static method SumForDifference(a: Vector2, b: Vector2) returns (r: Vector2)
      ensures fresh(r) && r.Value() == Plus(a.Value(), b.Value())
    {
      r := a.Copy();
      r := r.Add(b);
    }

    /** Static `subtract` as documented: a new vector holding a - b. */
    static method Difference(a: Vector2, b: Vector2) returns (r: Vector2)
      ensures fresh(r) && r.Value() == Minus(a.Value(), b.Value())
      ensures Plus(r.Value(), b.Value()) == a.Value()
    {
      r := a.Copy();
      r := r.Subtract(b);
      MinusPlusRoundTrip(a.Value(), b.Value());
    }

    /** Static `scale`. */
    static method ScaledBy(v: Vector2, factor: real) returns (r: Vector2)
      ensures fresh(r) && r.Value() == Times(v.Value(), factor)
    {
      r := v.Copy();
      r := r.Scale(factor);
    }

    /** Static `normalize`. */
    static method NormalizedCopy(v: Vector2) returns (r: Vector2)
      ensures fresh(r) && r.Value() == Normalized(v.Value())
    {
      r := v.Copy();
      r := r.Normalize();
    }

    /** Static `rotate`. */
    static method RotatedBy(v: Vector2, angle: real) returns (r: Vector2)
      ensures fresh(r) && r.Value() == Rotated(v.Value(), angle)
    {
      r := v.Copy();
      r := r.Rotate(angle);
    }

    /** Static `reflect`. */
    static method ReflectedIn(v: Vector2, axis: Vector2) returns (r: Vector2)
      ensures fresh(r) && r.Value() == Reflected(v.Value(), axis.Value())
    {
      r := v.Copy();
      r := r.Reflect(axis);
    }
  }

  /**
   * The static `subtract` as written agrees with the difference only when
   * the second vector is zero: (3, 4) and (1, 1) give (4, 5) instead of (2, 3).
   */
  lemma SumForDifferenceDiffers(a: Pt, b: Pt)
    ensures Plus(a, b) == Minus(a, b) <==> b == Origin
    ensures Plus(Pt(3.0, 4.0), Pt(1.0, 1.0)) == Pt(4.0, 5.0) != Minus(Pt(3.0, 4.0), Pt(1.0, 1.0))
  {
  }
}
