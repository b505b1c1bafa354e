/**
 * The `Vector` class of src/geometry/vector.ts: a mutable pair of
 * proportions. Instance operations overwrite `x` and `y` and return the
 * same object; the static forms work on a copy and leave their arguments
 * alone. Every operation is stated through the value functions of module
 * Planar, read before the update, so the contracts also hold when an
 * argument is the receiver itself.
 */
module Vectors {
  import opened Numerics
  import opened JsMath
  import opened Planar

  class Vector {
    var x: real
    var y: real

    constructor (x: real := 0.0, y: real := 0.0)
      ensures this.x == x && this.y == y
    {
      this.x := x;
      this.y := y;
    }

    /** The proportions as a value. */
    function Value(): Pt
      reads this
    {
      Pt(x, y)
    }

    /** `copy`: a new object with equal proportions. */
    method Copy() returns (r: Vector)
      ensures fresh(r) && r.Value() == Value()
    {
      r := new Vector(x, y);
    }

    /** `unit`: the vector at the standardised angle. */
    static method Unit(angle: real) returns (r: Vector)
      ensures fresh(r) && r.Value() == Planar.Unit(angle)
    {
      var standard := StandardizeAngle(angle);
      r := new Vector(Cos(standard), Sin(standard));
    }

    /** `magnitude`: never negative, and zero only for the zero vector. */
    function Magnitude(): (m: real)
      reads this
      ensures m >= 0.0
      ensures m == 0.0 <==> x == 0.0 && y == 0.0
    {
      Planar.Magnitude(Value())
    }

    /** `angle`: always a standard angle, in [0, 2PI). */
    function Angle(): (a: real)
      reads this
      ensures 0.0 <= a < TAU
    {
      StandardizeAngleIsModulo(Atan2(y, x));
      Planar.Angle(Value())
    }

    /** `dot`: symmetric in its two operands. */
    function Dot(other: Vector): (d: real)
      reads this, other
      ensures d == Planar.Dot(other.Value(), Value())
    {
      Planar.Dot(Value(), other.Value())
    }

    /** `cross`: antisymmetric, so a vector crossed with itself gives zero. */
    function Cross(other: Vector): (c: real)
      reads this, other
      ensures c == -Planar.Cross(other.Value(), Value())
      ensures other == this ==> c == 0.0
    {
      Planar.Cross(Value(), other.Value())
    }

    /** `angleBetween`: the counter-clockwise angle to `other`, in [0, 2PI). */
    function AngleBetween(other: Vector): (a: real)
      reads this, other
      ensures 0.0 <= a < TAU
    {
      StandardizeAngleIsModulo(Planar.Angle(other.Value()) - Planar.Angle(Value()));
      Planar.AngleBetween(Value(), other.Value())
    }

    /** Instance `add`. */
    method Add(other: Vector) returns (r: Vector)
      modifies this
      ensures r == this
      ensures Value() == Plus(old(Value()), old(other.Value()))
    {
      x := x + other.x;
      y := y + other.y;
      r := this;
    }

    /** Instance `subtract`. */
    method Subtract(other: Vector) returns (r: Vector)
      modifies this
      ensures r == this
      ensures Value() == Minus(old(Value()), old(other.Value()))
    {
      x := x - other.x;
      y := y - other.y;
      r := this;
    }

    /** Instance `scale`. */
    method Scale(factor: real) returns (r: Vector)
      modifies this
      ensures r == this
      ensures Value() == Times(old(Value()), factor)
    {
      x := x * factor;
      y := y * factor;
      r := this;
    }

    /** Instance `normalize`: a zero-length vector is returned untouched. */
    method Normalize() returns (r: Vector)
      modifies this
      ensures r == this
      ensures Value() == Normalized(old(Value()))
      ensures old(Value()) == Origin ==> Value() == Origin
    {
      var length := Magnitude();
      r := this;
      if length == 0.0 {
        return;
      }
      x := x / length;
      y := y / length;
    }

    /** Instance `rotate`. */
    method Rotate(angle: real) returns (r: Vector)
      modifies this
      ensures r == this
      ensures Value() == Rotated(old(Value()), angle)
    {
      var cos := Cos(angle);
      var sin := Sin(angle);
      var x' := x * cos - y * sin;
      var y' := x * sin + y * cos;
      x, y := x', y';
      r := this;
    }

    /** Instance `reflect`: the axis's angle is read before anything is written. */
    method Reflect(axis: Vector) returns (r: Vector)
      modifies this
      ensures r == this
      ensures Value() == Reflected(old(Value()), old(axis.Value()))
    {
      ghost var before := Value();
      var angle := StandardizeAngle(2.0 * Planar.Angle(axis.Value()));
      var cos := Cos(angle);
      var sin := Sin(angle);
      var x' := x * cos + y * sin;
      var y' := x * sin - y * cos;
      x, y := x', y';
      assert Value() == ReflectedAtAngle(before, angle);
      r := this;
    }

    /** Static `add`: a new vector; neither argument changes. */
    static method Sum(a: Vector, b: Vector) returns (r: Vector)
      ensures fresh(r) && r.Value() == Plus(a.Value(), b.Value())
    {
      r := a.Copy();
      r := r.Add(b);
    }

    /** Static `subtract`: a new vector; neither argument changes. */
    static method Difference(a: Vector, b: Vector) returns (r: Vector)
      ensures fresh(r) && r.Value() == Minus(a.Value(), b.Value())
    {
      r := a.Copy();
      r := r.Subtract(b);
    }

    /** Static `scale`. */
    static method ScaledBy(v: Vector, factor: real) returns (r: Vector)
      ensures fresh(r) && r.Value() == Times(v.Value(), factor)
    {
      r := v.Copy();
      r := r.Scale(factor);
    }

    /** Static `normalize`. */
    static method NormalizedCopy(v: Vector) returns (r: Vector)
      ensures fresh(r) && r.Value() == Normalized(v.Value())
    {
      r := v.Copy();
      r := r.Normalize();
    }

    /** Static `rotate`. */
    static method RotatedBy(v: Vector, angle: real) returns (r: Vector)
      ensures fresh(r) && r.Value() == Rotated(v.Value(), angle)
    {
      r := v.Copy();
      r := r.Rotate(angle);
    }

    /** Static `reflect`. */
    static method ReflectedIn(v: Vector, axis: Vector) returns (r: Vector)
      ensures fresh(r) && r.Value() == Reflected(v.Value(), axis.Value())
    {
      r := v.Copy();
      r := r.Reflect(axis);
    }
  }

  /**
   * Subtracting and then adding back the same vector restores the receiver,
   * and scaling by 1 changes nothing.
   */
  method SubtractAddRoundTrip(v: Vector, w: Vector)
    requires v != w
    modifies v
    ensures v.Value() == old(v.Value())
  {
    var r := v.Subtract(w);
    r := v.Add(w);
    MinusPlusRoundTrip(old(v.Value()), w.Value());
    r := v.Scale(1.0);
  }
}
