/**
 * The `Vertex` class of src/geometry/vertex.ts: a mutable position. The
 * static transforms build a new vertex through temporary vectors; the
 * instance forms call them and copy the result into `this`. An omitted
 * control point (`undefined`) is `null` here and stands for the origin.
 */
module Vertices {
  import opened Wrappers
  import opened Numerics
  import opened JsMath
  import opened Planar
  import opened Vectors

  /** The point a transform works about: the control vertex, or the origin when there is none. */
  function ControlPoint(control: Vertex?): Pt
    reads control
  {
    if control == null then Origin else control.Value()
  }

  /** The positions of a list of vertices. */
  function Values(vs: seq<Vertex>): (ps: seq<Pt>)
    reads vs
    ensures |ps| == |vs|
    ensures forall i :: 0 <= i < |vs| ==> ps[i] == vs[i].Value()
  {
    seq(|vs|, i requires 0 <= i < |vs| reads vs => vs[i].Value())
  }

  class Vertex {
    var x: real
    var y: real

    constructor (x: real := 0.0, y: real := 0.0)
      ensures this.x == x && this.y == y
    {
      this.x := x;
      this.y := y;
    }

    function Value(): Pt
      reads this
    {
      Pt(x, y)
    }

    /** `copy`: a new vertex at the same position. */
    method Copy() returns (r: Vertex)
      ensures fresh(r) && r.Value() == Value()
    {
      r := new Vertex(x, y);
    }

    /** `toVector`. */
    method ToVector() returns (v: Vector)
      ensures fresh(v) && v.Value() == Value()
    {
      v := new Vector(x, y);
    }

    /** `Vector.toVertex` (src/geometry/vector.ts), placed here because Vertex depends on Vector. */
    static method FromVector(v: Vector) returns (r: Vertex)
      ensures fresh(r) && r.Value() == v.Value()
    {
      r := new Vertex(v.x, v.y);
    }

    /** Static `translate`: the defaults (0, 0) give an equal copy. */
    static method Translated(vertex: Vertex, dx: real := 0.0, dy: real := 0.0) returns (r: Vertex)
      ensures fresh(r) && r.Value() == Plus(vertex.Value(), Pt(dx, dy))
    {
      var v := vertex.ToVector();
      var offset := new Vector(dx, dy);
      v := v.Add(offset);
      r := FromVector(v);
    }

    /** Instance `translate`. */
    method Translate(dx: real := 0.0, dy: real := 0.0) returns (r: Vertex)
      modifies this
      ensures r == this
      ensures Value() == Plus(old(Value()), Pt(dx, dy))
    {
      var moved := Translated(this, dx, dy);
      x, y := moved.x, moved.y;
      r := this;
    }

    /** Static `displace`: the vector's proportions are added to the position. */
    static method Displaced(vertex: Vertex, vector: Vector) returns (r: Vertex)
      ensures fresh(r) && r.Value() == Plus(vertex.Value(), vector.Value())
    {
      var v := vertex.ToVector();
      v := v.Add(vector);
      r := FromVector(v);
    }

    /** Instance `displace`. */
    method Displace(vector: Vector) returns (r: Vertex)
      modifies this
      ensures r == this
      ensures Value() == Plus(old(Value()), old(vector.Value()))
    {
      var moved := Displaced(this, vector);
      x, y := moved.x, moved.y;
      r := this;
    }

    /** Static `scale`: control + factor * (vertex - control). */
    static method Scaled(vertex: Vertex, factor: real, control: Vertex? := null) returns (r: Vertex)
      ensures fresh(r) && r.Value() == ScaledAbout(vertex.Value(), factor, ControlPoint(control))
    {
      ghost var v := vertex.Value();
      var controlVec: Vector;
      if control != null {
        controlVec := control.ToVector();
      } else {
        controlVec := new Vector(0.0, 0.0);
      }
      ghost var c := controlVec.Value();
      var offset := vertex.ToVector();
      offset := offset.Subtract(controlVec);
      assert offset.Value() == Minus(v, c);
      offset := offset.Scale(factor);
      assert controlVec.Value() == c && offset.Value() == Times(Minus(v, c), factor);
      controlVec := controlVec.Add(offset);
      assert controlVec.Value() == ScaledAbout(v, factor, c);
      r := FromVector(controlVec);
      assert vertex.Value() == v && ControlPoint(control) == c;
    }

    /** Instance `scale`. */
    method Scale(factor: real, control: Vertex? := null) returns (r: Vertex)
      modifies this
      ensures r == this
      ensures Value() == ScaledAbout(old(Value()), factor, old(ControlPoint(control)))
    {
      var moved := Scaled(this, factor, control);
      x, y := moved.x, moved.y;
      r := this;
    }

    /** Static `rotate`: the offset from the control point is rotated. */
    static method RotatedBy(vertex: Vertex, angle: real, control: Vertex? := null) returns (r: Vertex)
      ensures fresh(r) && r.Value() == RotatedAbout(vertex.Value(), angle, ControlPoint(control))
    {
      ghost var v := vertex.Value();
      var controlVec: Vector;
      if control != null {
        controlVec := control.ToVector();
      } else {
        controlVec := new Vector(0.0, 0.0);
      }
      ghost var c := controlVec.Value();
      var offset := vertex.ToVector();
      offset := offset.Subtract(controlVec);
      assert offset.Value() == Minus(v, c);
      offset := offset.Rotate(angle);
      assert controlVec.Value() == c && offset.Value() == Rotated(Minus(v, c), angle);
      controlVec := controlVec.Add(offset);
      assert controlVec.Value() == RotatedAbout(v, angle, c);
      r := FromVector(controlVec);
      assert vertex.Value() == v && ControlPoint(control) == c;
    }

    /** Instance `rotate`. */
    method Rotate(angle: real, control: Vertex? := null) returns (r: Vertex)
      modifies this
      ensures r == this
      ensures Value() == RotatedAbout(old(Value()), angle, old(ControlPoint(control)))
    {
      var moved := RotatedBy(this, angle, control);
      x, y := moved.x, moved.y;
      r := this;
    }

    /** Static `reflect`: an axis of zero magnitude gives an unchanged copy. */
    static method ReflectedIn(vertex: Vertex, axis: Vector, control: Vertex? := null) returns (r: Vertex)
      ensures fresh(r) && r.Value() == ReflectedAbout(vertex.Value(), axis.Value(), ControlPoint(control))
      ensures axis.Value() == Origin ==> r.Value() == vertex.Value()
    {
      var controlVec: Vector;
      if control != null {
        controlVec := control.ToVector();
      } else {
        controlVec := new Vector(0.0, 0.0);
      }
      if axis.Magnitude() > 0.0 {
        var offset := vertex.ToVector();
        offset := offset.Subtract(controlVec);
        offset := offset.Reflect(axis);
        controlVec := controlVec.Add(offset);
        r := FromVector(controlVec);
      } else {
        r := vertex.Copy();
      }
    }

    /** Instance `reflect`. */
    method Reflect(axis: Vector, control: Vertex? := null) returns (r: Vertex)
      modifies this
      ensures r == this
      ensures Value() == ReflectedAbout(old(Value()), old(axis.Value()), old(ControlPoint(control)))
    {
      var moved := ReflectedIn(this, axis, control);
      x, y := moved.x, moved.y;
      r := this;
    }

    /** `distanceTo`: the distance from this vertex to `vertex`. */
    function DistanceTo(vertex: Vertex): (d: real)
      reads this, vertex
      ensures d == Distance(vertex.Value(), Value())
      ensures d == 0.0 <==> Value() == vertex.Value()
    {
      DistanceBetween(this, vertex)
    }

    /** `distanceBetween`: symmetric, never negative, and zero only between equal positions. */
    static function DistanceBetween(a: Vertex, b: Vertex): (d: real)
      reads a, b
      ensures d == Distance(b.Value(), a.Value())
      ensures d >= 0.0
      ensures d == 0.0 <==> a.Value() == b.Value()
    {
      DistanceProperties(a.Value(), b.Value());
      Distance(a.Value(), b.Value())
    }

    /** `angleTo`: the turn from `heading` towards `vertex`. */
    function AngleTo(vertex: Vertex, heading: real): (t: real)
      reads this, vertex
      ensures -PI < t <= PI
    {
      AngleBetween(this, vertex, heading)
    }

    /** Static `angleBetween`: the turn is folded into (-PI, PI]. */
    static function AngleBetween(a: Vertex, b: Vertex, heading: real): (t: real)
      reads a, b
      ensures -PI < t <= PI
    {
      TurnAngleBounds(a.Value(), b.Value(), heading);
      TurnAngle(a.Value(), b.Value(), heading)
    }

    /** `isEquivalentTo`: always true of a vertex and itself (symmetry is EquivalentReflexiveSymmetric). */
    predicate IsEquivalentTo(vertex: Vertex): (b: bool)
      reads this, vertex
      ensures vertex == this ==> b
    {
      Equivalent(Value(), vertex.Value())
    }

    /**
     * Static `mean`: the componentwise arithmetic mean. The source divides by
     * the count, so an empty list gives the vertex (NaN, NaN), which has no
     * coordinates among the reals: `None` here.
     */
    static method Mean(vertices: seq<Vertex>) returns (r: Option<Vertex>)
      ensures r.None? <==> vertices == []
      ensures r.Some? ==> fresh(r.value) && r.value.Value() == MeanPt(Values(vertices))
    {
      var count := |vertices|;
      var xSum, ySum := 0.0, 0.0;
      var i := 0;
      while i < count
        invariant 0 <= i <= count
        invariant xSum == SumX(Values(vertices)[..i])
        invariant ySum == SumY(Values(vertices)[..i])
      {
        assert Values(vertices)[..i + 1][..i] == Values(vertices)[..i];
        xSum := xSum + vertices[i].x;
        ySum := ySum + vertices[i].y;
        i := i + 1;
      }
      if count == 0 {
        return None;
      }
      assert Values(vertices)[..count] == Values(vertices);
      var mean := new Vertex(xSum / count as real, ySum / count as real);
      r := Some(mean);
    }

    /** Static `lerp`: each coordinate interpolated; proportions outside [0, 1] extrapolate. */
    static method Lerp(start: Vertex, end: Vertex, proportion: real) returns (r: Vertex)
      ensures fresh(r) && r.Value() == LerpPt(start.Value(), end.Value(), proportion)
      ensures proportion == 0.0 ==> r.Value() == start.Value()
      ensures proportion == 1.0 ==> r.Value() == end.Value()
    {
      r := new Vertex(Numerics.Lerp(start.x, end.x, proportion), Numerics.Lerp(start.y, end.y, proportion));
    }

    /** `vectorTo`: the displacement that carries this vertex onto `end`. */
    method VectorTo(end: Vertex) returns (v: Vector)
      ensures fresh(v) && v.Value() == Minus(end.Value(), Value())
      ensures Plus(Value(), v.Value()) == end.Value()
    {
      v := new Vector(end.x - x, end.y - y);
    }
  }
}
