/**
 * The `Line` class of src/geometry/line.ts. Despite its name it is a
 * bounded segment with the same arithmetic as `Edge`: `intersectLine`
 * accepts only crossings inside both segments. The constructor stores the
 * given vertex objects themselves, and no method writes `start` or `end`.
 */
module Lines {
  import opened Numerics
  import opened JsMath
  import opened Planar
  import opened Segments
  import opened Vectors
  import opened Vertices

  class Line {
    const start: Vertex
    const end: Vertex

    constructor (start: Vertex, end: Vertex)
      ensures this.start == start && this.end == end
    {
      this.start := start;
      this.end := end;
    }

    /** The positions of the two endpoints. */
    function Value(): Seg
      reads start, end
    {
      Seg(start.Value(), end.Value())
    }

    /** `copy`: a new line with new endpoint objects at the same positions. */
    method Copy() returns (e: Line)
      ensures fresh(e) && fresh(e.start) && fresh(e.end) && e.start != e.end
      ensures e.Value() == Value()
    {
      var s := start.Copy();
      var t := end.Copy();
      e := new Line(s, t);
    }

    /** `direction`: end - start, or start - end when `reverse` is set. */
    method Direction(reverse: bool := false) returns (v: Vector)
      ensures fresh(v) && v.Value() == Segments.Direction(Value(), reverse)
    {
      var e := end.ToVector();
      var s := start.ToVector();
      v := Vector.Difference(e, s);
      v := v.Scale(if reverse then -1.0 else 1.0);
    }

    /** `normal`: the normalised direction turned by -PI/2. */
    method Normal(clockwise: bool := false) returns (v: Vector)
      ensures fresh(v) && v.Value() == Segments.Normal(Value(), clockwise)
      ensures start.Value() == end.Value() ==> v.Value() == Origin
    {
      v := Direction(clockwise);
      v := v.Normalize();
      v := v.Rotate(-PI / 2.0);
      if start.Value() == end.Value() {
        DegenerateSegment(Value());
      }
    }

    /** `length`: never negative, and zero exactly for a zero-length line. */
    function Length(): (l: real)
      reads start, end
      ensures l >= 0.0
      ensures l == 0.0 <==> start.Value() == end.Value()
    {
      Segments.Length(Value())
    }

    /**
     * `intersectLine`: null when r x s is 0 or either parameter falls outside
     * [0, 1]; otherwise a new vertex at the crossing. When r x s is 0 the
     * source still divides by it (JavaScript gives an infinity) before the
     * guard rejects the pair; here the guard is tested first.
     */
    method IntersectLine(other: Line) returns (r: Vertex?)
      ensures r == null <==> Intersection(Value(), other.Value()).None?
      ensures r != null ==> fresh(r) && r.Value() == Intersection(Value(), other.Value()).value
    {
      var p := start.ToVector();
      var q := other.start.ToVector();
      var endVec := end.ToVector();
      var rv := Vector.Difference(endVec, p);
      var otherEnd := other.end.ToVector();
      var sv := Vector.Difference(otherEnd, q);
      var a := Vector.Difference(q, p);
      var b := rv.Cross(sv);
      if b == 0.0 {
        return null;
      }
      var sScaled := Vector.ScaledBy(sv, 1.0 / b);
      var t := a.Cross(sScaled);
      var rScaled := Vector.ScaledBy(rv, 1.0 / b);
      var u := a.Cross(rScaled);
      if InRange(t, 0.0, 1.0) && InRange(u, 0.0, 1.0) {
        var step := rv.Scale(t);
        p := p.Add(step);
        r := Vertex.FromVector(p);
      } else {
        r := null;
      }
    }
  }
}
