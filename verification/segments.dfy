/**
 * The segment arithmetic shared by the four edge-like classes of bp2d
 * (src/geometry/edge.ts, line.ts, lineSegment.ts and src/edge.ts), on
 * values. The classes in modules Edges, Lines, LineSegments and
 * VectorEdges state their operations through these functions.
 */
module Segments {
  import opened Wrappers
  import opened Numerics
  import opened JsMath
  import opened Planar

  datatype Seg = Seg(start: Pt, end: Pt)

  /** `direction`: end - start, negated (scaled by -1) when `reverse` is set. */
  function Direction(s: Seg, reverse: bool := false): Pt
  {
    Times(Minus(s.end, s.start), if reverse then -1.0 else 1.0)
  }

  /** `normal`: the normalised direction turned by -PI/2. */
  function Normal(s: Seg, clockwise: bool := false): Pt
  {
    Rotated(Normalized(Direction(s, clockwise)), -PI / 2.0)
  }

  /** `length`: the magnitude of the direction. */
  function Length(s: Seg): real
  {
    Magnitude(Direction(s))
  }

  /** The parameter along `a` at which the lines through a and b meet. */
  function ParamA(a: Seg, b: Seg): real
    requires Cross(Direction(a), Direction(b)) != 0.0
  {
    Cross(Minus(b.start, a.start), Times(Direction(b), 1.0 / Cross(Direction(a), Direction(b))))
  }

  /** The parameter along `b` at which the lines through a and b meet. */
  function ParamB(a: Seg, b: Seg): real
    requires Cross(Direction(a), Direction(b)) != 0.0
  {
    Cross(Minus(b.start, a.start), Times(Direction(a), 1.0 / Cross(Direction(a), Direction(b))))
  }

  /** The point at parameter t along s. */
  function At(s: Seg, t: real): Pt
  {
    Plus(s.start, Times(Direction(s), t))
  }

  /**
   * `intersectEdge`: no point when r x s is 0 (parallel, collinear,
   * identical or zero-length segments); otherwise the meeting point of the
   * two lines, provided both parameters lie in [0, 1], bounds included.
   */
  function Intersection(a: Seg, b: Seg): Option<Pt>
  {
    var r := Direction(a);
    var s := Direction(b);
    if Cross(r, s) == 0.0 then None
    else if InRange(ParamA(a, b), 0.0, 1.0) && InRange(ParamB(a, b), 0.0, 1.0) then Some(At(a, ParamA(a, b)))
    else None
  }

  // ----- the cross-product algebra -----

  lemma DirectionForward(s: Seg)
    ensures Direction(s) == Minus(s.end, s.start)
    ensures Direction(s, true) == Times(Minus(s.end, s.start), -1.0)
  {
  }

  /** (d x s) r - (d x r) s == (r x s) d, componentwise. */
  lemma CrossIdentity(d: Pt, r: Pt, s: Pt)
    ensures Cross(d, s) * r.x - Cross(d, r) * s.x == Cross(r, s) * d.x
    ensures Cross(d, s) * r.y - Cross(d, r) * s.y == Cross(r, s) * d.y
  {
  }

  lemma CrossScaled(d: Pt, s: Pt, k: real)
    ensures Cross(d, Times(s, k)) == Cross(d, s) * k
  {
  }

  /**
   * With non-parallel directions the two parameters name one point: a.start
   * moved t along a equals b.start moved u along b.
   */
  lemma ParamsMeet(a: Seg, b: Seg)
    requires Cross(Direction(a), Direction(b)) != 0.0
    ensures At(a, ParamA(a, b)) == At(b, ParamB(a, b))
  {
    ParamsAsQuotients(a, b);
    QuotientsMeet(a, b);
  }

  lemma QuotientsMeet(a: Seg, b: Seg)
    requires Cross(Direction(a), Direction(b)) != 0.0
    ensures var d, den := Minus(b.start, a.start), Cross(Direction(a), Direction(b));
      At(a, Cross(d, Direction(b)) / den) == At(b, Cross(d, Direction(a)) / den)
  {
    var r, s, d := Direction(a), Direction(b), Minus(b.start, a.start);
    SolveByCramer(d.x, d.y, r.x, r.y, s.x, s.y);
    PointsMeet(a, b, Cross(d, s) / Cross(r, s), Cross(d, r) / Cross(r, s));
  }

  /**
   * Cramer's rule for t r - u s == d: with den == r x s, t is (d x s) / den
   * and u is (d x r) / den.
   */
  lemma SolveByCramer(dx: real, dy: real, rx: real, ry: real, sx: real, sy: real)
    requires rx * sy - ry * sx != 0.0
    ensures var den := rx * sy - ry * sx;
      var t, u := (dx * sy - dy * sx) / den, (dx * ry - dy * rx) / den;
      t * rx - u * sx == dx && t * ry - u * sy == dy
  {
    var den := rx * sy - ry * sx;
    CrossIdentity(Pt(dx, dy), Pt(rx, ry), Pt(sx, sy));
    DivideIdentity(dx * sy - dy * sx, dx * ry - dy * rx, rx, sx, den, dx);
    DivideIdentity(dx * sy - dy * sx, dx * ry - dy * rx, ry, sy, den, dy);
  }

  /** The parameters are the cross products (b.start - a.start) x s and x r, over r x s. */
  lemma ParamsAsQuotients(a: Seg, b: Seg)
    requires Cross(Direction(a), Direction(b)) != 0.0
    ensures var d, den := Minus(b.start, a.start), Cross(Direction(a), Direction(b));
      ParamA(a, b) == Cross(d, Direction(b)) / den && ParamB(a, b) == Cross(d, Direction(a)) / den
  {
    var r, s, d := Direction(a), Direction(b), Minus(b.start, a.start);
    var den := Cross(r, s);
    CrossScaled(d, s, 1.0 / den);
    CrossScaled(d, r, 1.0 / den);
  }

  /** Points a.start + t r and b.start + u s coincide when t r - u s is b.start - a.start. */
  lemma PointsMeet(a: Seg, b: Seg, t: real, u: real)
    requires t * Direction(a).x - u * Direction(b).x == b.start.x - a.start.x
    requires t * Direction(a).y - u * Direction(b).y == b.start.y - a.start.y
    ensures At(a, t) == At(b, u)
  {
  }

  /** Conversely, coinciding points give t r - u s == b.start - a.start. */
  lemma MeetingPointsDiffer(a: Seg, b: Seg, t: real, u: real)
    requires At(a, t) == At(b, u)
    ensures t * Direction(a).x - u * Direction(b).x == b.start.x - a.start.x
    ensures t * Direction(a).y - u * Direction(b).y == b.start.y - a.start.y
  {
  }

  lemma DivideIdentity(p: real, q: real, rc: real, sc: real, den: real, dc: real)
    requires den != 0.0 && p * rc - q * sc == den * dc
    ensures (p / den) * rc - (q / den) * sc == dc
  {
    assert (p / den) * rc - (q / den) * sc == (p * rc - q * sc) / den;
  }

  /**
   * Any meeting point determines the parameters: if a.start + t r equals
   * b.start + u s and r x s is not 0, then t and u are ParamA and ParamB.
   */
  lemma ParamsUnique(a: Seg, b: Seg, t: real, u: real)
    requires Cross(Direction(a), Direction(b)) != 0.0
    requires At(a, t) == At(b, u)
    ensures t == ParamA(a, b) && u == ParamB(a, b)
  {
    ParamsAsQuotients(a, b);
    MeetingParamsAreQuotients(a, b, t, u);
  }

  lemma MeetingParamsAreQuotients(a: Seg, b: Seg, t: real, u: real)
    requires Cross(Direction(a), Direction(b)) != 0.0
    requires At(a, t) == At(b, u)
    ensures var d, den := Minus(b.start, a.start), Cross(Direction(a), Direction(b));
      t == Cross(d, Direction(b)) / den && u == Cross(d, Direction(a)) / den
  {
    var r, s, d := Direction(a), Direction(b), Minus(b.start, a.start);
    MeetingPointsDiffer(a, b, t, u);
    CramerUnique(d.x, d.y, r.x, r.y, s.x, s.y, t, u);
  }

  /** The solution of t r - u s == d is unique when r x s is not 0. */
  lemma CramerUnique(dx: real, dy: real, rx: real, ry: real, sx: real, sy: real, t: real, u: real)
    requires rx * sy - ry * sx != 0.0
    requires t * rx - u * sx == dx && t * ry - u * sy == dy
    ensures var den := rx * sy - ry * sx;
      t == (dx * sy - dy * sx) / den && u == (dx * ry - dy * rx) / den
  {
    var den := rx * sy - ry * sx;
    assert dx * sy - dy * sx == den * t;
    assert dx * ry - dy * rx == den * u;
    MulCancel(den, t, (dx * sy - dy * sx) / den);
    MulCancel(den, u, (dx * ry - dy * rx) / den);
  }

  // ----- what the intersection means -----

  /**
   * A found point lies on both segments: it is a.start + t (a.end - a.start)
   * and b.start + u (b.end - b.start) with t and u in [0, 1].
   */
  lemma IntersectionSound(a: Seg, b: Seg)
    requires Intersection(a, b).Some?
    ensures Cross(Direction(a), Direction(b)) != 0.0
    ensures InRange(ParamA(a, b), 0.0, 1.0) && InRange(ParamB(a, b), 0.0, 1.0)
    ensures Intersection(a, b).value == At(a, ParamA(a, b))
    ensures Intersection(a, b).value == At(b, ParamB(a, b))
  {
    ParamsMeet(a, b);
  }

  /**
   * For non-parallel segments a shared point with parameters t and u is
   * found exactly when both parameters lie in [0, 1], bounds included.
   */
  lemma IntersectionComplete(a: Seg, b: Seg, t: real, u: real)
    requires Cross(Direction(a), Direction(b)) != 0.0
    requires At(a, t) == At(b, u)
    ensures Intersection(a, b) == if InRange(t, 0.0, 1.0) && InRange(u, 0.0, 1.0) then Some(At(a, t)) else None
  {
    ParamsUnique(a, b, t, u);
  }

  /** Parallel, collinear, identical and zero-length segments never intersect. */
  lemma IntersectionParallel(a: Seg, b: Seg)
    ensures Cross(Direction(a), Direction(b)) == 0.0 ==> Intersection(a, b) == None
    ensures Intersection(a, a) == None
    ensures a.start == a.end ==> Intersection(a, b) == None && Intersection(b, a) == None
  {
    CrossAntisymmetric(Direction(a), Direction(a));
    if a.start == a.end {
      assert Direction(a) == Origin;
    }
  }

  /** Intersecting b with a finds the same point as intersecting a with b. */
  lemma IntersectionSymmetric(a: Seg, b: Seg)
    ensures Intersection(a, b) == Intersection(b, a)
  {
    var r, s := Direction(a), Direction(b);
    if Cross(r, s) != 0.0 {
      assert Cross(s, r) == -Cross(r, s);
      ParamsMeet(a, b);
      IntersectionComplete(b, a, ParamB(a, b), ParamA(a, b));
    }
  }

  /** Crossing diagonals meet at the origin. */
  lemma IntersectionCrossingDiagonals()
    ensures Intersection(Seg(Pt(-1.0, -1.0), Pt(1.0, 1.0)), Seg(Pt(-1.0, 1.0), Pt(1.0, -1.0))) == Some(Origin)
  {
    var a, b := Seg(Pt(-1.0, -1.0), Pt(1.0, 1.0)), Seg(Pt(-1.0, 1.0), Pt(1.0, -1.0));
    assert Direction(a) == Pt(2.0, 2.0) && Direction(b) == Pt(2.0, -2.0);
    assert Cross(Direction(a), Direction(b)) == -8.0;
    assert ParamA(a, b) == 0.5 && ParamB(a, b) == 0.5;
  }

  /** Segments whose lines meet outside one of them have no intersection. */
  lemma IntersectionOutsideSegment()
    ensures Intersection(Seg(Pt(-2.0, 0.0), Pt(4.0, 2.0)), Seg(Pt(-1.0, -3.0), Pt(0.0, -1.0))) == None
  {
    var a, b := Seg(Pt(-2.0, 0.0), Pt(4.0, 2.0)), Seg(Pt(-1.0, -3.0), Pt(0.0, -1.0));
    assert Direction(a) == Pt(6.0, 2.0) && Direction(b) == Pt(1.0, 2.0);
    assert Cross(Direction(a), Direction(b)) == 10.0;
    assert ParamB(a, b) == 2.0;
  }

  /**
   * Two consecutive, non-parallel edges p->q and q->w meet exactly at their
   * shared vertex q, in either order, because the bounds are inclusive.
   */
  lemma IntersectionAtJoint(p: Pt, q: Pt, w: Pt)
    requires Cross(Minus(q, p), Minus(w, q)) != 0.0
    ensures Intersection(Seg(p, q), Seg(q, w)) == Some(q)
    ensures Intersection(Seg(q, w), Seg(p, q)) == Some(q)
  {
    var a, b := Seg(p, q), Seg(q, w);
    DirectionForward(a);
    DirectionForward(b);
    assert At(a, 1.0) == q;
    assert At(b, 0.0) == q;
    IntersectionComplete(a, b, 1.0, 0.0);
    IntersectionSymmetric(a, b);
  }

  /** A zero-length segment has length 0 and normal (0, 0); reversing negates the direction. */
  lemma DegenerateSegment(s: Seg)
    requires s.start == s.end
    ensures Length(s) == 0.0
    ensures Normal(s) == Origin && Normal(s, true) == Origin
  {
    assert Direction(s) == Origin && Direction(s, true) == Origin;
    ZeroVectorFixed(1.0, -PI / 2.0, Origin);
  }
}
