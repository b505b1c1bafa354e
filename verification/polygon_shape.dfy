/**
 * The value-level meaning of a polygon's construction in
 * src/geometry/polygon.ts: which raw vertices `processVertices` keeps, the
 * closed loop of edges `calculateEdges` builds, the orientation sum of
 * `calculateAngularSum` and the shoelace centroid of
 * `calculateVertexCentroid`. Class Polygon (module Polygons) is proved
 * against these functions.
 */
module PolygonShape {
  import opened Numerics
  import opened JsMath
  import opened Planar
  import opened Segments

  // ----- processVertices -----

  /**
   * Raw vertex i survives normalisation when it is not equivalent to the
   * raw vertex after it; the last one is compared with the first.
   */
  predicate Survives(ps: seq<Pt>, i: nat)
    requires i < |ps|
  {
    if i + 1 < |ps| then !Equivalent(ps[i], ps[i + 1]) else !Equivalent(ps[i], ps[0])
  }

  /** The survivors among the first k raw vertices, in their original order. */
  function Survivors(ps: seq<Pt>, k: nat): seq<Pt>
    requires k <= |ps|
  {
    if k == 0 then [] else Survivors(ps, k - 1) + (if Survives(ps, k - 1) then [ps[k - 1]] else [])
  }

  /**
   * `processVertices`: the survivors, or the first raw vertex alone when a
   * non-empty input collapses entirely.
   */
  function Processed(ps: seq<Pt>): seq<Pt>
  {
    if |ps| == 0 then []
    else if Survivors(ps, |ps|) == [] then [ps[0]]
    else Survivors(ps, |ps|)
  }

  lemma {:induction false} SurvivorsBounded(ps: seq<Pt>, k: nat)
    requires k <= |ps|
    ensures |Survivors(ps, k)| <= k
    ensures forall q :: q in Survivors(ps, k) ==> q in ps[..k]
  {
    if k > 0 {
      SurvivorsBounded(ps, k - 1);
      assert ps[..k] == ps[..k - 1] + [ps[k - 1]];
    }
  }

  /**
   * Normalisation never lengthens the list, keeps only input positions,
   * empties only the empty list, and turns an input that collapses
   * entirely into its first vertex alone.
   */
  lemma ProcessedShape(ps: seq<Pt>)
    ensures |Processed(ps)| <= |ps|
    ensures forall q :: q in Processed(ps) ==> q in ps
    ensures Processed(ps) == [] <==> ps == []
    ensures ps != [] && Survivors(ps, |ps|) == [] ==> Processed(ps) == [ps[0]]
  {
    if ps != [] {
      SurvivorsBounded(ps, |ps|);
      assert ps[..|ps|] == ps;
    }
  }

  lemma {:induction false} SurvivorsAll(ps: seq<Pt>, k: nat)
    requires k <= |ps|
    requires forall i :: 0 <= i < k ==> Survives(ps, i)
    ensures Survivors(ps, k) == ps[..k]
  {
    if k > 0 {
      SurvivorsAll(ps, k - 1);
      assert ps[..k] == ps[..k - 1] + [ps[k - 1]];
    }
  }

  /**
   * An input in which every vertex survives is kept exactly as it is, and so
   * is a single vertex.
   */
  lemma ProcessedKeepsClean(ps: seq<Pt>)
    requires |ps| == 1 || forall i :: 0 <= i < |ps| ==> Survives(ps, i)
    ensures Processed(ps) == ps
  {
    if |ps| == 1 {
      assert !Survives(ps, 0);
      assert Survivors(ps, 1) == [];
    } else if ps != [] {
      SurvivorsAll(ps, |ps|);
      assert ps[..|ps|] == ps;
    }
  }

  /** Two equal leading vertices collapse into one: (1,2),(1,2),(2,-1),(-1,0) keeps the last three. */
  lemma ProcessedMergesRepeats()
    ensures Processed([Pt(1.0, 2.0), Pt(1.0, 2.0), Pt(2.0, -1.0), Pt(-1.0, 0.0)])
         == [Pt(1.0, 2.0), Pt(2.0, -1.0), Pt(-1.0, 0.0)]
  {
    var ps := [Pt(1.0, 2.0), Pt(1.0, 2.0), Pt(2.0, -1.0), Pt(-1.0, 0.0)];
    assert !Survives(ps, 0) && Survives(ps, 1) && Survives(ps, 2) && Survives(ps, 3);
    assert Survivors(ps, 1) == [];
    assert Survivors(ps, 2) == [ps[1]];
    assert Survivors(ps, 3) == [ps[1], ps[2]];
  }

  /**
   * Normalising twice can remove more than normalising once, because
   * equivalence is not transitive: x = 0, 1.2E-9, 0.6E-9, 5 keeps
   * 0, 0.6E-9, 5, and normalising that again drops the 0.
   */
  lemma ProcessedNotIdempotent()
    ensures var ps := [Pt(0.0, 0.0), Pt(0.0000000012, 0.0), Pt(0.0000000006, 0.0), Pt(5.0, 0.0)];
      Processed(ps) == [Pt(0.0, 0.0), Pt(0.0000000006, 0.0), Pt(5.0, 0.0)] &&
      Processed(Processed(ps)) == [Pt(0.0000000006, 0.0), Pt(5.0, 0.0)]
  {
    var ps := [Pt(0.0, 0.0), Pt(0.0000000012, 0.0), Pt(0.0000000006, 0.0), Pt(5.0, 0.0)];
    assert Survives(ps, 0) && !Survives(ps, 1) && Survives(ps, 2) && Survives(ps, 3);
    assert Survivors(ps, 1) == [ps[0]];
    assert Survivors(ps, 2) == [ps[0]];
    assert Survivors(ps, 3) == [ps[0], ps[2]];
    var qs := [Pt(0.0, 0.0), Pt(0.0000000006, 0.0), Pt(5.0, 0.0)];
    assert Processed(ps) == qs;
    assert !Survives(qs, 0) && Survives(qs, 1) && Survives(qs, 2);
    assert Survivors(qs, 1) == [];
    assert Survivors(qs, 2) == [qs[1]];
  }

  // ----- calculateEdges -----

  /** The vertex after vertex i round a loop of n: i + 1, and 0 after the last. */
  function Next(i: nat, n: nat): (j: nat)
    requires i < n
    ensures j < n
  {
    if i + 1 == n then 0 else i + 1
  }

  /** Next is the `(i + 1) % n` (or `mod(i + 1, n)`) the source indexes with. */
  lemma NextIsModulo(i: nat, n: nat)
    requires i < n
    ensures Next(i, n) == (i + 1) % n
  {
    if i + 1 == n {
      assert (i + 1) % n == (n * 1 + 0) % n;
    }
  }

  /**
   * `calculateEdges`: no edges below two vertices; otherwise edge i runs from
   * vertex i to vertex i + 1, and the last edge back to vertex 0.
   */
  function EdgeSegs(ps: seq<Pt>): (es: seq<Seg>)
    ensures |ps| < 2 ==> es == []
    ensures |ps| >= 2 ==> |es| == |ps|
    ensures forall i :: 0 <= i < |es| ==> es[i] == Seg(ps[i], ps[Next(i, |ps|)])
  {
    if |ps| < 2 then [] else seq(|ps|, i requires 0 <= i < |ps| => Seg(ps[i], ps[Next(i, |ps|)]))
  }

  /** Consecutive edges share a vertex, and the last edge returns to the first vertex. */
  lemma EdgeSegsClosed(ps: seq<Pt>)
    requires |ps| >= 2
    ensures forall i :: 0 <= i < |ps| - 1 ==> EdgeSegs(ps)[i].end == EdgeSegs(ps)[i + 1].start
    ensures EdgeSegs(ps)[|ps| - 1].end == EdgeSegs(ps)[0].start
  {
  }

  // ----- calculateAngularSum -----

  /** `direction().angle()` of an edge. */
  function Heading(s: Seg): real
  {
    Angle(Direction(s))
  }

  /** The heading before edge i: that of edge i - 1, or of the last edge for i = 0. */
  function PriorHeading(segs: seq<Seg>, i: nat): real
    requires i < |segs|
  {
    if i == 0 then Heading(segs[|segs| - 1]) else Heading(segs[i - 1])
  }

  /** `start.angleTo(end, priorHeading)` for edge i: the turn onto that edge. */
  function Turn(segs: seq<Seg>, i: nat): (t: real)
    requires i < |segs|
    ensures -PI < t <= PI
  {
    TurnAngleBounds(segs[i].start, segs[i].end, PriorHeading(segs, i));
    TurnAngle(segs[i].start, segs[i].end, PriorHeading(segs, i))
  }

  /** The turns at the first k edges, added up. */
  function TurnSum(segs: seq<Seg>, k: nat): real
    requires k <= |segs|
  {
    if k == 0 then 0.0 else TurnSum(segs, k - 1) + Turn(segs, k - 1)
  }

  /** `calculateAngularSum`: zero without edges. The polygon is clockwise when it is negative. */
  function AngularSum(segs: seq<Seg>): real
  {
    TurnSum(segs, |segs|)
  }

  /** The orientation `calculateAngularSum(edges) < 0` stores in `clockwise`. */
  predicate ClockwiseOutline(ps: seq<Pt>)
  {
    AngularSum(EdgeSegs(ps)) < 0.0
  }

  /** k half-turns. */
  function HalfTurns(k: nat): real
  {
    k as real * PI
  }

  lemma {:induction false} TurnSumBounds(segs: seq<Seg>, k: nat)
    requires k <= |segs|
    ensures -HalfTurns(k) <= TurnSum(segs, k) <= HalfTurns(k)
  {
    if k > 0 {
      TurnSumBounds(segs, k - 1);
      assert HalfTurns(k) == HalfTurns(k - 1) + PI;
    }
  }

  /**
   * Each turn lies in (-PI, PI], so the sum over n edges lies in
   * [-n PI, n PI]; with no edges it is 0, and such a polygon is not clockwise.
   */
  lemma AngularSumBounds(segs: seq<Seg>)
    ensures -HalfTurns(|segs|) <= AngularSum(segs) <= HalfTurns(|segs|)
    ensures segs == [] ==> AngularSum(segs) == 0.0
  {
    TurnSumBounds(segs, |segs|);
  }

  // ----- calculateVertexCentroid -----

  /** The cross product of vertex i with the next vertex around the loop, `mod(i + 1, N)`. */
  function LoopCross(ps: seq<Pt>, i: nat): real
    requires i < |ps|
  {
    Cross(ps[i], ps[Next(i, |ps|)])
  }

  /** The first loop of the centroid: twice the signed area, over the first k vertices. */
  function CrossSum(ps: seq<Pt>, k: nat): real
    requires k <= |ps|
  {
    if k == 0 then 0.0 else CrossSum(ps, k - 1) + LoopCross(ps, k - 1)
  }

  /** The second loop's term for vertex i: the cross product weighted by the summed x coordinates. */
  function MomentXTerm(ps: seq<Pt>, i: nat): real
    requires i < |ps|
  {
    (ps[i].x + ps[Next(i, |ps|)].x) * LoopCross(ps, i)
  }

  /** The same, weighted by the summed y coordinates. */
  function MomentYTerm(ps: seq<Pt>, i: nat): real
    requires i < |ps|
  {
    (ps[i].y + ps[Next(i, |ps|)].y) * LoopCross(ps, i)
  }

  /** The second loop: the weighted cross products of the first k vertices, added up. */
  function MomentX(ps: seq<Pt>, k: nat): real
    requires k <= |ps|
  {
    if k == 0 then 0.0 else MomentX(ps, k - 1) + MomentXTerm(ps, k - 1)
  }

  function MomentY(ps: seq<Pt>, k: nat): real
    requires k <= |ps|
  {
    if k == 0 then 0.0 else MomentY(ps, k - 1) + MomentYTerm(ps, k - 1)
  }

  /** The signed area A of the shoelace formula. */
  function SignedArea(ps: seq<Pt>): real
  {
    0.5 * CrossSum(ps, |ps|)
  }

  /**
   * The position `calculateVertexCentroid` produces when the signed area is
   * 0: the source divides by 6A = 0, and the resulting non-finite
   * coordinates are not modelled.
   */
  const ZeroAreaCentroid: Pt

  /**
   * `calculateVertexCentroid`: the origin for no vertices, the vertex itself
   * for one, and the shoelace centroid (Cx / 6A, Cy / 6A) otherwise.
   */
  function Centroid(ps: seq<Pt>): Pt
  {
    if |ps| == 0 then Origin
    else if |ps| == 1 then ps[0]
    else if SignedArea(ps) == 0.0 then ZeroAreaCentroid
    else Pt(MomentX(ps, |ps|) / (6.0 * SignedArea(ps)), MomentY(ps, |ps|) / (6.0 * SignedArea(ps)))
  }

  /** The terms of the two loops of `calculateVertexCentroid` over the square (1,1),(1,0),(0,0),(0,1). */
  lemma SquareTerms(ps: seq<Pt>)
    requires |ps| == 4 && ps[0] == Pt(1.0, 1.0) && ps[1] == Pt(1.0, 0.0) && ps[2] == Origin && ps[3] == Pt(0.0, 1.0)
    ensures LoopCross(ps, 0) == -1.0 && LoopCross(ps, 1) == 0.0 && LoopCross(ps, 2) == 0.0 && LoopCross(ps, 3) == -1.0
    ensures MomentXTerm(ps, 0) == -2.0 && MomentXTerm(ps, 1) == 0.0 && MomentXTerm(ps, 2) == 0.0 && MomentXTerm(ps, 3) == -1.0
    ensures MomentYTerm(ps, 0) == -1.0 && MomentYTerm(ps, 1) == 0.0 && MomentYTerm(ps, 2) == 0.0 && MomentYTerm(ps, 3) == -2.0
  {
    assert Next(0, 4) == 1 && Next(1, 4) == 2 && Next(2, 4) == 3 && Next(3, 4) == 0;
  }

  /** The signed area of that square: its vertices run clockwise. */
  lemma SquareArea(ps: seq<Pt>)
    requires |ps| == 4 && ps[0] == Pt(1.0, 1.0) && ps[1] == Pt(1.0, 0.0) && ps[2] == Origin && ps[3] == Pt(0.0, 1.0)
    ensures SignedArea(ps) == -1.0
  {
    SquareTerms(ps);
    SumsOfFour(ps);
  }

  /** The weighted sum Cx of that square. */
  lemma SquareMomentX(ps: seq<Pt>)
    requires |ps| == 4 && ps[0] == Pt(1.0, 1.0) && ps[1] == Pt(1.0, 0.0) && ps[2] == Origin && ps[3] == Pt(0.0, 1.0)
    ensures MomentX(ps, 4) == -3.0
  {
    SquareTerms(ps);
    SumsOfFour(ps);
  }

  /** The weighted sum Cy of that square. */
  lemma SquareMomentY(ps: seq<Pt>)
    requires |ps| == 4 && ps[0] == Pt(1.0, 1.0) && ps[1] == Pt(1.0, 0.0) && ps[2] == Origin && ps[3] == Pt(0.0, 1.0)
    ensures MomentY(ps, 4) == -3.0
  {
    SquareTerms(ps);
    SumsOfFour(ps);
  }

  /** Over four vertices each loop adds up its four terms. */
  lemma SumsOfFour(ps: seq<Pt>)
    requires |ps| == 4
    ensures CrossSum(ps, 4) == LoopCross(ps, 0) + LoopCross(ps, 1) + LoopCross(ps, 2) + LoopCross(ps, 3)
    ensures MomentX(ps, 4) == MomentXTerm(ps, 0) + MomentXTerm(ps, 1) + MomentXTerm(ps, 2) + MomentXTerm(ps, 3)
    ensures MomentY(ps, 4) == MomentYTerm(ps, 0) + MomentYTerm(ps, 1) + MomentYTerm(ps, 2) + MomentYTerm(ps, 3)
  {
    assert CrossSum(ps, 1) == LoopCross(ps, 0);
    assert MomentX(ps, 1) == MomentXTerm(ps, 0);
    assert MomentY(ps, 1) == MomentYTerm(ps, 0);
    assert CrossSum(ps, 3) == LoopCross(ps, 0) + LoopCross(ps, 1) + LoopCross(ps, 2);
    assert MomentX(ps, 3) == MomentXTerm(ps, 0) + MomentXTerm(ps, 1) + MomentXTerm(ps, 2);
    assert MomentY(ps, 3) == MomentYTerm(ps, 0) + MomentYTerm(ps, 1) + MomentYTerm(ps, 2);
  }

  /** That square has its centroid at (0.5, 0.5). */
  lemma CentroidOfSquare()
    ensures Centroid([Pt(1.0, 1.0), Pt(1.0, 0.0), Pt(0.0, 0.0), Pt(0.0, 1.0)]) == Pt(0.5, 0.5)
  {
    var ps := [Pt(1.0, 1.0), Pt(1.0, 0.0), Pt(0.0, 0.0), Pt(0.0, 1.0)];
    SquareArea(ps);
    SquareMomentX(ps);
    SquareMomentY(ps);
    assert -3.0 / (6.0 * -1.0) == 0.5;
  }

  /**
   * Two vertices enclose no area (their two cross products cancel), so a
   * two-vertex polygon always takes the zero-area position as its anchor.
   */
  lemma CentroidOfTwoVertices(a: Pt, b: Pt)
    ensures SignedArea([a, b]) == 0.0
    ensures Centroid([a, b]) == ZeroAreaCentroid
  {
    var ps := [a, b];
    assert LoopCross(ps, 0) == Cross(a, b) && LoopCross(ps, 1) == Cross(b, a);
    assert CrossSum(ps, 1) == Cross(a, b);
    assert CrossSum(ps, 2) == Cross(a, b) + Cross(b, a);
    CrossAntisymmetric(a, b);
  }

  // ----- transform -----

  /** One of the four rigid or scaling motions `transform` applies to every vertex. */
  datatype Motion = Translation(dx: real, dy: real) | Scaling(factor: real) | Rotation(angle: real) | Reflection(axis: Pt)

  /**
   * Where a vertex at p goes under the motion; `control` is the reference
   * point (the anchor by default), which a translation ignores.
   */
  function Moved(p: Pt, m: Motion, control: Pt): Pt
  {
    match m
    case Translation(dx, dy) => Plus(p, Pt(dx, dy))
    case Scaling(factor) => ScaledAbout(p, factor, control)
    case Rotation(angle) => RotatedAbout(p, angle, control)
    case Reflection(axis) => ReflectedAbout(p, axis, control)
  }

  /** Every position moved, in order. */
  function MovedAll(ps: seq<Pt>, m: Motion, control: Pt): (qs: seq<Pt>)
    ensures |qs| == |ps|
    ensures forall i :: 0 <= i < |ps| ==> qs[i] == Moved(ps[i], m, control)
  {
    seq(|ps|, i requires 0 <= i < |ps| => Moved(ps[i], m, control))
  }

  /** The reference point of a scaling, rotation or reflection stays where it is. */
  lemma ControlStays(m: Motion, control: Pt)
    requires !m.Translation?
    ensures Moved(control, m, control) == control
  {
    ControlPointFixed(control, control, if m.Scaling? then m.factor else 1.0, if m.Rotation? then m.angle else 0.0, if m.Reflection? then m.axis else Origin);
  }

  /** Translating by (dx, dy) and then by (-dx, -dy) restores every position. */
  lemma TranslationRoundTrip(ps: seq<Pt>, dx: real, dy: real, control: Pt)
    ensures MovedAll(MovedAll(ps, Translation(dx, dy), control), Translation(-dx, -dy), control) == ps
  {
  }

  /**
   * A translation moves both ends of every edge alike, so each edge keeps its
   * direction and the turn onto it.
   */
  lemma TranslationKeepsTurns(ps: seq<Pt>, dx: real, dy: real, control: Pt, i: nat)
    requires i < |EdgeSegs(ps)|
    ensures Turn(EdgeSegs(MovedAll(ps, Translation(dx, dy), control)), i) == Turn(EdgeSegs(ps), i)
  {
    var qs := MovedAll(ps, Translation(dx, dy), control);
    var segs, segs' := EdgeSegs(ps), EdgeSegs(qs);
    assert forall k :: 0 <= k < |segs| ==> Direction(segs'[k]) == Direction(segs[k]);
    assert Minus(segs'[i].end, segs'[i].start) == Minus(segs[i].end, segs[i].start);
  }

  lemma {:induction false} TranslationKeepsTurnSum(ps: seq<Pt>, dx: real, dy: real, control: Pt, k: nat)
    requires k <= |EdgeSegs(ps)|
    ensures TurnSum(EdgeSegs(MovedAll(ps, Translation(dx, dy), control)), k) == TurnSum(EdgeSegs(ps), k)
  {
    if k > 0 {
      TranslationKeepsTurnSum(ps, dx, dy, control, k - 1);
      TranslationKeepsTurns(ps, dx, dy, control, k - 1);
    }
  }

  /** A translated polygon keeps its angular sum, and so its orientation. */
  lemma TranslationKeepsOrientation(ps: seq<Pt>, dx: real, dy: real, control: Pt)
    ensures AngularSum(EdgeSegs(MovedAll(ps, Translation(dx, dy), control))) == AngularSum(EdgeSegs(ps))
  {
    TranslationKeepsTurnSum(ps, dx, dy, control, |EdgeSegs(ps)|);
  }
}
