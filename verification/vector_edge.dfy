/**
 * The older `Edge` class of src/edge.ts, whose endpoints are `Vector`
 * objects rather than vertices. The vector class it imports (src/vector.ts)
 * is not part of this model; it is taken to behave as the `Vector` of
 * src/geometry/vector.ts. Its private `inRange` is the same inclusive test
 * as `Numerics.InRange`.
 */
module VectorEdges {
  import opened Numerics
  import opened JsMath
  import opened Planar
  import opened Segments
  import opened Vectors

  class Edge {
    const start: Vector
    const end: Vector

    constructor (start: Vector, end: Vector)
      ensures this.start == start && this.end == end
    {
      this.start := start;
      this.end := end;
    }

    function Value(): Seg
      reads start, end
    {
      Seg(start.Value(), end.Value())
    }

    /** `copy`: new endpoint vectors with equal components. */
    method Copy() returns (e: Edge)
      ensures fresh(e) && fresh(e.start) && fresh(e.end) && e.start != e.end
      ensures e.Value() == Value()
    {
      var s := start.Copy();
      var t := end.Copy();
      e := new Edge(s, t);
    }

    /** `direction`: end - start, or start - end when `reverse` is set. */
    method Direction(reverse: bool := false) returns (v: Vector)
      ensures fresh(v) && v.Value() == Segments.Direction(Value(), reverse)
    {
      v := Vector.Difference(end, start);
      v := v.Scale(if reverse then -1.0 else 1.0);
    }

    /** `normal`: the normalised direction turned by -PI/2. */
    method Normal(clockwise: bool := false) returns (v: Vector)
      ensures fresh(v) && v.Value() == Segments.Normal(Value(), clockwise)
    {
      v := Direction(clockwise);
      v := v.Normalize();
      v := v.Rotate(-PI / 2.0);
    }

    /** `length`: never negative, and zero exactly for a zero-length edge. */
    function Length(): (l: real)
      reads start, end
      ensures l >= 0.0
      ensures l == 0.0 <==> start.Value() == end.Value()
    {
      Segments.Length(Value())
    }

    /**
     * `intersectEdge`: null when r x s is 0 or a parameter falls outside
     * [0, 1]; otherwise the copy of `start` moved to the crossing, a fresh
     * vector. When r x s is 0 the guard is tested before the division the
     * source performs.
     */
    method IntersectEdge(other: Edge) returns (r: Vector?)
      ensures r == null <==> Intersection(Value(), other.Value()).None?
      ensures r != null ==> fresh(r) && r.Value() == Intersection(Value(), other.Value()).value
    {
      var p := start.Copy();
      var q := other.start.Copy();
      var rv := Vector.Difference(end, p);
      var sv := Vector.Difference(other.end, q);
      var a := Vector.Difference(q, p);
      var b := rv.Cross(sv);
      if b == 0.0 {
        return null;
      }
      var sScaled := Vector.ScaledBy(sv, 1.0 / b);
      var t := a.Cross(sScaled);
      var rScaled := Vector.ScaledBy(rv, 1.0 / b);
      var u := a.Cross(rScaled);
      if InRange(t, 0.0, 1.0) && InRange(u, 0.0, 1.0) {
        var step := rv.Scale(t);
        r := p.Add(step);
      } else {
        r := null;
      }
    }
  }
}
