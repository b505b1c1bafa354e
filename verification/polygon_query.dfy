/**
 * The value-level meaning of the polygon queries of src/geometry/polygon.ts:
 * `intersectEdge` (hits in edge order, sorted by distance from the query's
 * start, then thinned), the candidate lines and chords of `hatchFill`, and
 * `getMaxAnchorDistance`.
 */
module PolygonQuery {
  import opened Wrappers
  import opened Numerics
  import opened JsMath
  import opened Planar
  import opened Segments

  // ----- intersectEdge -----

  /** The intersection points of the first k edges with the query, in edge order. */
  function HitsUpTo(segs: seq<Seg>, query: Seg, k: nat): seq<Pt>
    requires k <= |segs|
  {
    if k == 0 then []
    else
      var hit := Intersection(segs[k - 1], query);
      HitsUpTo(segs, query, k - 1) + (if hit.Some? then [hit.value] else [])
  }

  function Hits(segs: seq<Seg>, query: Seg): seq<Pt>
  {
    HitsUpTo(segs, query, |segs|)
  }

  lemma {:induction false} HitsUpToFromEdges(segs: seq<Seg>, query: Seg, k: nat)
    requires k <= |segs|
    ensures |HitsUpTo(segs, query, k)| <= k
    ensures forall p :: p in HitsUpTo(segs, query, k) ==> exists i :: 0 <= i < k && Intersection(segs[i], query) == Some(p)
  {
    if k > 0 {
      HitsUpToFromEdges(segs, query, k - 1);
    }
  }

  /** Every hit is the intersection of some edge with the query, and there is at most one per edge. */
  lemma HitsFromEdges(segs: seq<Seg>, query: Seg)
    ensures |Hits(segs, query)| <= |segs|
    ensures forall p :: p in Hits(segs, query) ==> exists i :: 0 <= i < |segs| && Intersection(segs[i], query) == Some(p)
  {
    HitsUpToFromEdges(segs, query, |segs|);
  }

  /** A point as it is located by `at`, the identity on plain points. */
  function Id(p: Pt): Pt
  {
    p
  }

  /** The positions of a list of located items. */
  function Positions<T>(xs: seq<T>, at: T -> Pt): (ps: seq<Pt>)
    ensures |ps| == |xs|
    ensures forall i :: 0 <= i < |xs| ==> ps[i] == at(xs[i])
  {
    seq(|xs|, i requires 0 <= i < |xs| => at(xs[i]))
  }

  /** The sort key: the distance of the item's position from the query's start. */
  function Key<T>(x: T, at: T -> Pt, from: Pt): real
  {
    Distance(at(x), from)
  }

  predicate SortedByDistance<T>(xs: seq<T>, at: T -> Pt, from: Pt)
  {
    forall i, j :: 0 <= i < j < |xs| ==> Key(xs[i], at, from) <= Key(xs[j], at, from)
  }

  /** Inserts x after every entry whose key is not larger, as a stable sort does. */
  function Insert<T>(x: T, sorted: seq<T>, at: T -> Pt, from: Pt): seq<T>
  {
    if sorted == [] then [x]
    else if Key(x, at, from) < Key(sorted[|sorted| - 1], at, from) then Insert(x, sorted[..|sorted| - 1], at, from) + [sorted[|sorted| - 1]]
    else sorted + [x]
  }

  /**
   * `vertices.sort((a, b) => a.distanceTo(start) - b.distanceTo(start))`:
   * JavaScript's sort is stable, so equal distances keep their edge order;
   * here each item is inserted after the items before it with no larger key.
   * The items are plain points (`at` is `Id`) or the intersection vertices
   * paired with their positions.
   */
  function SortByDistance<T>(xs: seq<T>, at: T -> Pt, from: Pt): seq<T>
  {
    if xs == [] then [] else Insert(xs[|xs| - 1], SortByDistance(xs[..|xs| - 1], at, from), at, from)
  }

  lemma {:induction false} InsertMembers<T>(x: T, sorted: seq<T>, at: T -> Pt, from: Pt)
    ensures |Insert(x, sorted, at, from)| == |sorted| + 1
    ensures multiset(Insert(x, sorted, at, from)) == multiset(sorted) + multiset{x}
  {
    if sorted != [] && Key(x, at, from) < Key(sorted[|sorted| - 1], at, from) {
      var init := sorted[..|sorted| - 1];
      InsertMembers(x, init, at, from);
      assert sorted == init + [sorted[|sorted| - 1]];
    }
  }

  lemma {:induction false} InsertSorted<T>(x: T, sorted: seq<T>, at: T -> Pt, from: Pt)
    requires SortedByDistance(sorted, at, from)
    ensures SortedByDistance(Insert(x, sorted, at, from), at, from)
  {
    InsertMembers(x, sorted, at, from);
    if sorted != [] && Key(x, at, from) < Key(sorted[|sorted| - 1], at, from) {
      var init := sorted[..|sorted| - 1];
      var last := sorted[|sorted| - 1];
      InsertSorted(x, init, at, from);
      InsertMembers(x, init, at, from);
      var r := Insert(x, init, at, from);
      forall i | 0 <= i < |r|
        ensures Key(r[i], at, from) <= Key(last, at, from)
      {
        var q := r[i];
        assert q in multiset(r);
        if q != x {
          assert q in multiset(init);
          var k :| 0 <= k < |init| && init[k] == q;
          assert sorted[k] == q;
        }
      }
      assert Insert(x, sorted, at, from) == r + [last];
    }
  }

  /** The sorted list is in non-decreasing distance and is a permutation of the input. */
  lemma {:induction false} SortByDistanceCorrect<T>(xs: seq<T>, at: T -> Pt, from: Pt)
    ensures SortedByDistance(SortByDistance(xs, at, from), at, from)
    ensures multiset(SortByDistance(xs, at, from)) == multiset(xs)
    ensures |SortByDistance(xs, at, from)| == |xs|
  {
    if xs != [] {
      SortByDistanceCorrect(xs[..|xs| - 1], at, from);
      InsertSorted(xs[|xs| - 1], SortByDistance(xs[..|xs| - 1], at, from), at, from);
      InsertMembers(xs[|xs| - 1], SortByDistance(xs[..|xs| - 1], at, from), at, from);
      assert xs == xs[..|xs| - 1] + [xs[|xs| - 1]];
    }
  }

  lemma {:induction false} InsertPositions<T>(x: T, sorted: seq<T>, at: T -> Pt, from: Pt)
    ensures Positions(Insert(x, sorted, at, from), at) == Insert(at(x), Positions(sorted, at), Id, from)
  {
    if sorted != [] && Key(x, at, from) < Key(sorted[|sorted| - 1], at, from) {
      var init := sorted[..|sorted| - 1];
      InsertPositions(x, init, at, from);
      assert Positions(sorted, at)[..|sorted| - 1] == Positions(init, at);
      InsertMembers(x, init, at, from);
    }
  }

  /** Sorting items and then taking their positions is sorting the positions. */
  lemma {:induction false} SortPositions<T>(xs: seq<T>, at: T -> Pt, from: Pt)
    ensures Positions(SortByDistance(xs, at, from), at) == SortByDistance(Positions(xs, at), Id, from)
  {
    if xs != [] {
      var init := xs[..|xs| - 1];
      SortPositions(init, at, from);
      InsertPositions(xs[|xs| - 1], SortByDistance(init, at, from), at, from);
      assert Positions(xs, at)[..|xs| - 1] == Positions(init, at);
    }
  }

  /**
   * The filter of `intersectEdge`: an entry is kept when it is the first or
   * its position is not equivalent to that of the entry just before it in
   * the sorted list (the kept or the dropped one).
   */
  function DropRepeats<T>(xs: seq<T>, at: T -> Pt): seq<T>
  {
    if |xs| <= 1 then xs
    else DropRepeats(xs[..|xs| - 1], at) + (if Equivalent(at(xs[|xs| - 1]), at(xs[|xs| - 2])) then [] else [xs[|xs| - 1]])
  }

  /** Thinning items and then taking their positions is thinning the positions. */
  lemma {:induction false} DropRepeatsPositions<T>(xs: seq<T>, at: T -> Pt)
    ensures Positions(DropRepeats(xs, at), at) == DropRepeats(Positions(xs, at), Id)
  {
    if |xs| > 1 {
      DropRepeatsPositions(xs[..|xs| - 1], at);
      assert Positions(xs, at)[..|xs| - 1] == Positions(xs[..|xs| - 1], at);
    }
  }

  /** Thinning keeps some of the entries, always including the first. */
  lemma {:induction false} DropRepeatsMembers<T>(xs: seq<T>, at: T -> Pt)
    ensures |DropRepeats(xs, at)| <= |xs|
    ensures xs != [] ==> DropRepeats(xs, at) != [] && DropRepeats(xs, at)[0] == xs[0]
    ensures forall q :: q in DropRepeats(xs, at) ==> q in xs
  {
    if |xs| > 1 {
      var init := xs[..|xs| - 1];
      DropRepeatsMembers(init, at);
      assert forall q :: q in init ==> q in xs;
    }
  }

  /** Thinning a list sorted by distance leaves it sorted. */
  lemma {:induction false} DropRepeatsSorted<T>(xs: seq<T>, at: T -> Pt, from: Pt)
    requires SortedByDistance(xs, at, from)
    ensures SortedByDistance(DropRepeats(xs, at), at, from)
  {
    if |xs| > 1 {
      var init := xs[..|xs| - 1];
      var last := xs[|xs| - 1];
      DropRepeatsSorted(init, at, from);
      DropRepeatsMembers(init, at);
      var di := DropRepeats(init, at);
      forall i | 0 <= i < |di|
        ensures Key(di[i], at, from) <= Key(last, at, from)
      {
        assert di[i] in init;
        var k :| 0 <= k < |init| && init[k] == di[i];
        assert xs[k] == di[i];
      }
    }
  }

  /** A list with no equivalent neighbours is left as it is. */
  lemma {:induction false} DropRepeatsKeepsDistinct(ps: seq<Pt>)
    requires forall i :: 1 <= i < |ps| ==> !Equivalent(ps[i], ps[i - 1])
    ensures DropRepeats(ps, Id) == ps
  {
    if |ps| > 1 {
      DropRepeatsKeepsDistinct(ps[..|ps| - 1]);
      assert ps == ps[..|ps| - 1] + [ps[|ps| - 1]];
    }
  }

  /**
   * An entry equivalent to its predecessor is dropped, so a point hit twice
   * in a row (the query passing through a vertex two edges share) is
   * reported once.
   */
  lemma {:induction false} DropRepeatsShrinks(ps: seq<Pt>, i: nat)
    requires 1 <= i < |ps| && Equivalent(ps[i], ps[i - 1])
    ensures |DropRepeats(ps, Id)| < |ps|
  {
    DropRepeatsMembers(ps[..|ps| - 1], Id);
    if i < |ps| - 1 {
      DropRepeatsShrinks(ps[..|ps| - 1], i);
    }
  }

  /** Every entry that is not equivalent to its predecessor in the list is kept. */
  lemma {:induction false} DropRepeatsComplete<T>(xs: seq<T>, at: T -> Pt)
    ensures forall k :: 1 <= k < |xs| && !Equivalent(at(xs[k]), at(xs[k - 1])) ==> xs[k] in DropRepeats(xs, at)
  {
    if |xs| > 1 {
      var init := xs[..|xs| - 1];
      DropRepeatsComplete(init, at);
      forall k | 1 <= k < |xs| - 1 && !Equivalent(at(xs[k]), at(xs[k - 1]))
        ensures xs[k] in DropRepeats(xs, at)
      {
        assert init[k] == xs[k] && init[k - 1] == xs[k - 1];
      }
    }
  }

  /**
   * An entry that is not equivalent to its predecessor is not equivalent to
   * any earlier entry either, as for points met in order along one segment.
   */
  predicate SeparationGrows(ps: seq<Pt>)
  {
    forall j, k :: 0 <= j < k < |ps| && !Equivalent(ps[k], ps[k - 1]) ==> !Equivalent(ps[k], ps[j])
  }

  /** On such a list the filter leaves no two equivalent neighbours. */
  lemma {:induction false} DropRepeatsSeparated(ps: seq<Pt>)
    requires SeparationGrows(ps)
    ensures forall m :: 1 <= m < |DropRepeats(ps, Id)| ==> !Equivalent(DropRepeats(ps, Id)[m], DropRepeats(ps, Id)[m - 1])
  {
    if |ps| > 1 {
      var init := ps[..|ps| - 1];
      var last := ps[|ps| - 1];
      forall j, k | 0 <= j < k < |init| && !Equivalent(init[k], init[k - 1])
        ensures !Equivalent(init[k], init[j])
      {
        assert init[k] == ps[k] && init[k - 1] == ps[k - 1] && init[j] == ps[j];
      }
      DropRepeatsSeparated(init);
      DropRepeatsMembers(init, Id);
      var kept := DropRepeats(init, Id);
      if !Equivalent(last, ps[|ps| - 2]) {
        assert kept[|kept| - 1] in kept;
        var j :| 0 <= j < |init| && init[j] == kept[|kept| - 1];
        assert ps[j] == kept[|kept| - 1];
        assert DropRepeats(ps, Id) == kept + [last];
      }
    }
  }

  /** The points of a segment: its start moved by u times its direction, u in [0, 1]. */
  ghost predicate OnSegment(s: Seg, p: Pt)
  {
    exists u :: 0.0 <= u <= 1.0 && p == At(s, u)
  }

  /** Every hit lies on the query, and a query with a hit has non-zero length. */
  lemma HitsOnQuery(segs: seq<Seg>, query: Seg)
    ensures forall p :: p in Hits(segs, query) ==> OnSegment(query, p)
    ensures Hits(segs, query) != [] ==> Direction(query) != Origin
  {
    HitsFromEdges(segs, query);
    forall p | p in Hits(segs, query)
      ensures OnSegment(query, p) && Direction(query) != Origin
    {
      var i :| 0 <= i < |segs| && Intersection(segs[i], query) == Some(p);
      IntersectionSound(segs[i], query);
      assert p == At(query, ParamB(segs[i], query));
    }
    if Hits(segs, query) != [] {
      assert Hits(segs, query)[0] in Hits(segs, query);
    }
  }

  /** Moving from p by c u, u >= 0, goes no less far for a larger u, and further when c != 0. */
  lemma CoordinateGrows(p: real, c: real, u: real, u': real)
    requires 0.0 <= u <= u'
    ensures Abs(p - (p + c * u)) <= Abs(p - (p + c * u'))
    ensures c != 0.0 && u < u' ==> Abs(p - (p + c * u)) < Abs(p - (p + c * u'))
  {
    assert c * u' - c * u == c * (u' - u);
    if c > 0.0 {
      assert 0.0 <= c * u;
      assert u < u' ==> 0.0 < c * (u' - u);
    } else if c < 0.0 {
      assert c * u <= 0.0;
      assert u < u' ==> c * (u' - u) < 0.0;
    }
  }

  /** Of points p + c u, p + c v, p + c w with u <= v <= w, the first is no nearer the last than the second is. */
  lemma CoordinateGap(p: real, c: real, u: real, v: real, w: real)
    requires u <= v <= w
    ensures Abs((p + c * w) - (p + c * v)) <= Abs((p + c * w) - (p + c * u))
  {
    assert (p + c * w) - (p + c * v) == c * (w - v);
    assert (p + c * w) - (p + c * u) == c * (w - v) + c * (v - u);
    if c >= 0.0 {
      assert 0.0 <= c * (w - v) && 0.0 <= c * (v - u);
    } else {
      assert c * (w - v) <= 0.0 && c * (v - u) <= 0.0;
    }
  }

  /** Further along a segment of non-zero length is strictly further from its start. */
  lemma DistanceGrowsAlong(s: Seg, u: real, u': real)
    requires Direction(s) != Origin && 0.0 <= u < u'
    ensures Distance(At(s, u), s.start) < Distance(At(s, u'), s.start)
  {
    var d := Direction(s);
    var m, m' := Minus(s.start, At(s, u)), Minus(s.start, At(s, u'));
    CoordinateGrows(s.start.x, d.x, u, u');
    CoordinateGrows(s.start.y, d.y, u, u');
    HypotGrows(m.x, m.y, m'.x, m'.y);
  }

  /** Of two points of a segment of non-zero length, the one no further from the start comes no later. */
  lemma ParamsInOrder(s: Seg, u: real, v: real)
    requires Direction(s) != Origin && 0.0 <= u && 0.0 <= v
    requires Distance(At(s, u), s.start) <= Distance(At(s, v), s.start)
    ensures u <= v
  {
    if v < u {
      DistanceGrowsAlong(s, v, u);
    }
  }

  /** Along a segment, a point not equivalent to a nearer one is not equivalent to any point nearer still. */
  lemma SeparationAlong(s: Seg, u: real, v: real, w: real)
    requires u <= v <= w && !Equivalent(At(s, w), At(s, v))
    ensures !Equivalent(At(s, w), At(s, u))
  {
    GapsAlong(s, u, v, w);
  }

  lemma GapsAlong(s: Seg, u: real, v: real, w: real)
    requires u <= v <= w
    ensures Abs(At(s, w).x - At(s, v).x) <= Abs(At(s, w).x - At(s, u).x)
    ensures Abs(At(s, w).y - At(s, v).y) <= Abs(At(s, w).y - At(s, u).y)
  {
    CoordinateGap(s.start.x, Direction(s).x, u, v, w);
    CoordinateGap(s.start.y, Direction(s).y, u, v, w);
  }

  /** The hits sorted by distance from the query's start lie in order along the query. */
  lemma SortedHitsSeparate(segs: seq<Seg>, query: Seg)
    ensures SeparationGrows(SortByDistance(Hits(segs, query), Id, query.start))
  {
    var hits := Hits(segs, query);
    var sorted := SortByDistance(hits, Id, query.start);
    HitsOnQuery(segs, query);
    SortByDistanceCorrect(hits, Id, query.start);
    forall j, k | 0 <= j < k < |sorted| && !Equivalent(sorted[k], sorted[k - 1])
      ensures !Equivalent(sorted[k], sorted[j])
    {
      assert sorted[j] in multiset(hits) && sorted[k - 1] in multiset(hits) && sorted[k] in multiset(hits);
      assert OnSegment(query, sorted[j]) && OnSegment(query, sorted[k - 1]) && OnSegment(query, sorted[k]);
      var u :| 0.0 <= u <= 1.0 && sorted[j] == At(query, u);
      var v :| 0.0 <= v <= 1.0 && sorted[k - 1] == At(query, v);
      var w :| 0.0 <= w <= 1.0 && sorted[k] == At(query, w);
      ParamsInOrder(query, u, v);
      ParamsInOrder(query, v, w);
      SeparationAlong(query, u, v, w);
    }
  }

  /** `intersectEdge`: the hits sorted by distance from the query's start, then thinned. */
  function Query(segs: seq<Seg>, query: Seg): seq<Pt>
  {
    DropRepeats(SortByDistance(Hits(segs, query), Id, query.start), Id)
  }

  /**
   * Every reported point is where some edge meets the query; the points come
   * in non-decreasing distance from the query's start; there are no more of
   * them than edges; there is at least one exactly when some edge meets the
   * query; no two neighbours are equivalent; and every hit is reported
   * unless it is equivalent to the hit before it in the sorted list.
   */
  lemma QueryCorrect(segs: seq<Seg>, query: Seg)
    ensures forall p :: p in Query(segs, query) ==> exists i :: 0 <= i < |segs| && Intersection(segs[i], query) == Some(p)
    ensures SortedByDistance(Query(segs, query), Id, query.start)
    ensures |Query(segs, query)| <= |segs|
    ensures Query(segs, query) == [] <==> Hits(segs, query) == []
    ensures forall m :: 1 <= m < |Query(segs, query)| ==> !Equivalent(Query(segs, query)[m], Query(segs, query)[m - 1])
    ensures var sorted := SortByDistance(Hits(segs, query), Id, query.start);
      multiset(sorted) == multiset(Hits(segs, query))
      && forall k :: 1 <= k < |sorted| && !Equivalent(sorted[k], sorted[k - 1]) ==> sorted[k] in Query(segs, query)
  {
    var hits := Hits(segs, query);
    var sorted := SortByDistance(hits, Id, query.start);
    HitsFromEdges(segs, query);
    SortByDistanceCorrect(hits, Id, query.start);
    DropRepeatsMembers(sorted, Id);
    DropRepeatsSorted(sorted, Id, query.start);
    DropRepeatsComplete(sorted, Id);
    SortedHitsSeparate(segs, query);
    DropRepeatsSeparated(sorted);
    forall p | p in Query(segs, query)
      ensures exists i :: 0 <= i < |segs| && Intersection(segs[i], query) == Some(p)
    {
      assert p in multiset(sorted);
      assert p in hits;
    }
    if hits != [] {
      assert hits[0] in multiset(sorted);
    }
  }

  /**
   * The filter compares each entry with its predecessor in the sorted list,
   * not with the last entry it kept, and equivalence is not transitive: of
   * x = 0, 0.9E-9, -0.9E-9 it keeps 0 and -0.9E-9, which are equivalent.
   */
  lemma DropRepeatsKeepsEquivalentNeighbours()
    ensures var ps := [Pt(0.0, 0.0), Pt(0.0000000009, 0.0), Pt(-0.0000000009, 0.0)];
      DropRepeats(ps, Id) == [ps[0], ps[2]] && Equivalent(ps[0], ps[2])
  {
    var ps := [Pt(0.0, 0.0), Pt(0.0000000009, 0.0), Pt(-0.0000000009, 0.0)];
    assert ps[..2][..1] == [ps[0]];
    assert DropRepeats(ps[..2], Id) == [ps[0]];
  }

  // ----- hatchFill -----

  /** The chords of one candidate line: intersections (0, 1), (2, 3), ... paired in order. */
  function Chords(ps: seq<Pt>): (cs: seq<Seg>)
    ensures |cs| == |ps| / 2
    ensures forall m :: 0 <= m < |cs| ==> cs[m] == Seg(ps[2 * m], ps[2 * m + 1])
  {
    if |ps| < 2 then [] else [Seg(ps[0], ps[1])] + Chords(ps[2..])
  }

  /**
   * The candidate line for step `offset`: through the anchor shifted along
   * `ortho` by spacing * (offset + jitter), reaching 2 * reach either way
   * along `grain`.
   */
  function Candidate(anchor: Pt, grain: Pt, ortho: Pt, spacing: real, reach: real, offset: int, jitter: real): Seg
  {
    var control := Plus(anchor, Times(ortho, spacing * (offset as real + jitter)));
    Seg(Plus(control, Times(grain, -reach * 2.0)), Plus(control, Times(grain, reach * 2.0)))
  }

  /** The number of candidate lines for -steps <= offset <= steps. */
  function CandidateCount(steps: int): nat
  {
    if steps < 0 then 0 else 2 * steps + 1
  }

  /**
   * A JavaScript number, as far as the loop bound of `hatchFill` needs it:
   * a finite value, an infinity or NaN.
   */
  datatype Number = Finite(r: real) | Infinity | MinusInfinity | NaN

  /**
   * `maxAnchorDistance / spacing` for a non-negative distance: a zero
   * spacing gives Infinity for a positive distance and NaN for zero.
   */
  function Over(reach: real, spacing: real): Number
    requires reach >= 0.0
  {
    if spacing != 0.0 then Finite(reach / spacing)
    else if reach == 0.0 then NaN
    else Infinity
  }

  /** `Math.floor`: the largest integer not above a finite value; infinities and NaN unchanged. */
  function FloorOf(x: Number): Number
  {
    if x.Finite? then Finite(x.r.Floor as real) else x
  }

  /** Unary minus. */
  function Negate(x: Number): Number
  {
    match x
    case Finite(r) => Finite(-r)
    case Infinity => MinusInfinity
    case MinusInfinity => Infinity
    case NaN => NaN
  }

  /** `x + 1`: an infinity and NaN absorb the one. */
  function Increment(x: Number): Number
  {
    if x.Finite? then Finite(x.r + 1.0) else x
  }

  /** `x <= y`: false whenever NaN is involved. */
  predicate AtMost(x: Number, y: Number)
  {
    match (x, y)
    case (NaN, _) => false
    case (_, NaN) => false
    case (MinusInfinity, _) => true
    case (_, Infinity) => true
    case (Infinity, _) => false
    case (_, MinusInfinity) => false
    case (Finite(a), Finite(b)) => a <= b
  }

  /** The loop variable `offset` of `hatchFill` after k rounds: -steps incremented k times. */
  function OffsetAfter(steps: Number, k: nat): Number
  {
    if k == 0 then Negate(steps) else Increment(OffsetAfter(steps, k - 1))
  }

  /** The loop bound `Math.floor(maxAnchorDistance / spacing)`. */
  function StepsOf(reach: real, spacing: real): Number
    requires reach >= 0.0
  {
    FloorOf(Over(reach, spacing))
  }

  /** From minus infinity, counting up never leaves minus infinity. */
  lemma {:induction false} StuckAtMinusInfinity(k: nat)
    ensures OffsetAfter(Infinity, k) == MinusInfinity
  {
    if k > 0 {
      StuckAtMinusInfinity(k - 1);
    }
  }

  /**
   * As written, a zero spacing with a positive reach never ends the loop of
   * `hatchFill`: after every number of rounds the test `offset <= steps`
   * still holds, since `offset` stays at minus infinity.
   */
  lemma ZeroSpacingNeverEnds(reach: real, k: nat)
    requires reach > 0.0
    ensures StepsOf(reach, 0.0) == Infinity
    ensures AtMost(OffsetAfter(StepsOf(reach, 0.0), k), StepsOf(reach, 0.0))
  {
    StuckAtMinusInfinity(k);
  }

  /** A zero spacing with a zero reach makes the bound NaN: the loop makes no round at all. */
  lemma ZeroSpacingZeroReach()
    ensures StepsOf(0.0, 0.0) == NaN
    ensures !AtMost(OffsetAfter(StepsOf(0.0, 0.0), 0), StepsOf(0.0, 0.0))
  {
  }

  /** Counting up from -n: after k rounds `offset` is k - n. */
  lemma {:induction false} CountingUp(n: int, k: nat)
    ensures OffsetAfter(Finite(n as real), k) == Finite((k - n) as real)
  {
    if k > 0 {
      CountingUp(n, k - 1);
    }
  }

  /**
   * With a non-zero spacing the bound is the finite integer `steps` of
   * `HatchFill`, and the test `offset <= steps` holds for exactly the first
   * `CandidateCount(steps)` rounds: one candidate per offset from -steps to
   * steps, and then the loop ends.
   */
  lemma NonZeroSpacingRounds(reach: real, spacing: real, k: nat)
    requires reach >= 0.0 && spacing != 0.0
    ensures StepsOf(reach, spacing) == Finite((reach / spacing).Floor as real)
    ensures AtMost(OffsetAfter(StepsOf(reach, spacing), k), StepsOf(reach, spacing))
      <==> k < CandidateCount((reach / spacing).Floor)
  {
    CountingUp((reach / spacing).Floor, k);
  }

  /** Concatenation of the chords of all candidates. */
  function Flatten(css: seq<seq<Seg>>): seq<Seg>
  {
    if css == [] then [] else Flatten(css[..|css| - 1]) + css[|css| - 1]
  }

  lemma {:induction false} FlattenLength(css: seq<seq<Seg>>, sizes: seq<nat>)
    requires |sizes| == |css| && forall c :: 0 <= c < |css| ==> |css[c]| == sizes[c]
    ensures |Flatten(css)| == SumOf(sizes)
  {
    if css != [] {
      FlattenLength(css[..|css| - 1], sizes[..|sizes| - 1]);
    }
  }

  function SumOf(ns: seq<nat>): nat
  {
    if ns == [] then 0 else SumOf(ns[..|ns| - 1]) + ns[|ns| - 1]
  }

  /** Each candidate with k intersections contributes floor(k / 2) chords to the result. */
  lemma HatchChordCount(hitss: seq<seq<Pt>>)
    ensures |Flatten(seq(|hitss|, c requires 0 <= c < |hitss| => Chords(hitss[c])))|
         == SumOf(seq(|hitss|, c requires 0 <= c < |hitss| => |hitss[c]| / 2))
  {
    FlattenLength(seq(|hitss|, c requires 0 <= c < |hitss| => Chords(hitss[c])),
                  seq(|hitss|, c requires 0 <= c < |hitss| => |hitss[c]| / 2));
  }

  /**
   * `hatchFill` on values: the candidate lines for offsets -steps .. steps,
   * each shifted by its own jitter `draw(offset)`, and the chords between
   * successive pairs of each candidate's intersections with the polygon's
   * edges, candidate after candidate.
   */
  function HatchLines(segs: seq<Seg>, anchor: Pt, grain: Pt, ortho: Pt, spacing: real, reach: real, steps: int, draw: int -> real): seq<Seg>
  {
    Flatten(ChordsPer(segs, CandidateLines(anchor, grain, ortho, spacing, reach, steps, draw)))
  }

  /** The candidate lines, candidate c at offset c - steps. */
  function CandidateLines(anchor: Pt, grain: Pt, ortho: Pt, spacing: real, reach: real, steps: int, draw: int -> real): (qs: seq<Seg>)
    ensures |qs| == CandidateCount(steps)
  {
    seq(CandidateCount(steps), c requires 0 <= c < CandidateCount(steps) =>
      Candidate(anchor, grain, ortho, spacing, reach, c - steps, draw(c - steps)))
  }

  lemma CandidateLinesAt(anchor: Pt, grain: Pt, ortho: Pt, spacing: real, reach: real, steps: int, draw: int -> real, c: nat)
    requires c < CandidateCount(steps)
    ensures CandidateLines(anchor, grain, ortho, spacing, reach, steps, draw)[c] == Candidate(anchor, grain, ortho, spacing, reach, c - steps, draw(c - steps))
  {
  }

  /** The chords of each of the given lines. */
  function ChordsPer(segs: seq<Seg>, qs: seq<Seg>): (css: seq<seq<Seg>>)
    ensures |css| == |qs|
  {
    seq(|qs|, c requires 0 <= c < |qs| => Chords(Query(segs, qs[c])))
  }

  lemma {:induction false} FlattenMember(css: seq<seq<Seg>>, h: Seg)
    requires h in Flatten(css)
    ensures exists c :: 0 <= c < |css| && h in css[c]
  {
    var init := css[..|css| - 1];
    if h !in css[|css| - 1] {
      FlattenMember(init, h);
      var c :| 0 <= c < |init| && h in init[c];
      assert css[c] == init[c];
    }
  }

  /**
   * h joins two points where the query meets an edge of the polygon, from
   * the one nearer the query's start to the farther one.
   */
  predicate ChordOf(segs: seq<Seg>, query: Seg, h: Seg)
  {
    (exists i :: 0 <= i < |segs| && Intersection(segs[i], query) == Some(h.start)) &&
    (exists i :: 0 <= i < |segs| && Intersection(segs[i], query) == Some(h.end)) &&
    Distance(h.start, query.start) <= Distance(h.end, query.start)
  }

  /** Each chord of one candidate joins two of its crossings with the boundary. */
  lemma ChordsOnEdges(segs: seq<Seg>, query: Seg, h: Seg)
    requires h in Chords(Query(segs, query))
    ensures ChordOf(segs, query, h)
  {
    var ps := Query(segs, query);
    QueryCorrect(segs, query);
    var m :| 0 <= m < |Chords(ps)| && Chords(ps)[m] == h;
    assert ps[2 * m] in ps && ps[2 * m + 1] in ps;
    assert Key(ps[2 * m], Id, query.start) <= Key(ps[2 * m + 1], Id, query.start);
  }

  /**
   * Every hatch line lies along one of the candidate lines, and both of its
   * ends are points where that candidate crosses the polygon's boundary.
   */
  lemma HatchLinesOnEdges(segs: seq<Seg>, anchor: Pt, grain: Pt, ortho: Pt, spacing: real, reach: real, steps: int, draw: int -> real, h: Seg)
    requires h in HatchLines(segs, anchor, grain, ortho, spacing, reach, steps, draw)
    ensures exists offset: int :: -steps <= offset <= steps && ChordOf(segs, Candidate(anchor, grain, ortho, spacing, reach, offset, draw(offset)), h)
  {
    var qs := CandidateLines(anchor, grain, ortho, spacing, reach, steps, draw);
    var css := ChordsPer(segs, qs);
    FlattenMember(css, h);
    var c :| 0 <= c < |css| && h in css[c];
    var offset := c - steps;
    CandidateLinesAt(anchor, grain, ortho, spacing, reach, steps, draw, c);
    ChordsOnEdges(segs, qs[c], h);
  }

  // ----- getMaxAnchorDistance -----

  /** `getMaxAnchorDistance`: the largest distance from the anchor to a vertex, or 0. */
  function MaxDistance(anchor: Pt, ps: seq<Pt>): real
  {
    if ps == [] then 0.0
    else
      var rest := MaxDistance(anchor, ps[..|ps| - 1]);
      var d := Distance(anchor, ps[|ps| - 1]);
      if d > rest then d else rest
  }

  /**
   * The maximum is never negative, no vertex is farther from the anchor, and
   * it is either 0 or the distance to some vertex.
   */
  lemma {:induction false} MaxDistanceBounds(anchor: Pt, ps: seq<Pt>)
    ensures MaxDistance(anchor, ps) >= 0.0
    ensures forall i :: 0 <= i < |ps| ==> Distance(anchor, ps[i]) <= MaxDistance(anchor, ps)
    ensures MaxDistance(anchor, ps) == 0.0 || exists i :: 0 <= i < |ps| && MaxDistance(anchor, ps) == Distance(anchor, ps[i])
  {
    if ps != [] {
      var init := ps[..|ps| - 1];
      MaxDistanceBounds(anchor, init);
      if MaxDistance(anchor, init) != 0.0 && MaxDistance(anchor, ps) == MaxDistance(anchor, init) {
        var i :| 0 <= i < |init| && MaxDistance(anchor, init) == Distance(anchor, init[i]);
        assert ps[i] == init[i];
      }
      if MaxDistance(anchor, ps) != MaxDistance(anchor, init) {
        assert MaxDistance(anchor, ps) == Distance(anchor, ps[|ps| - 1]);
      }
    }
  }

  /**
   * The square (1, 1), (1, -1), (-1, -1), (-1, 1) of the hatching tests,
   * hatched with spacing 0: whatever its anchor, its reach is positive, so
   * the loop of `hatchFill` never ends.
   */
  lemma ZeroSpacingSquare(anchor: Pt, k: nat)
    ensures var square := [Pt(1.0, 1.0), Pt(1.0, -1.0), Pt(-1.0, -1.0), Pt(-1.0, 1.0)];
      var reach := MaxDistance(anchor, square);
      reach > 0.0 && StepsOf(reach, 0.0) == Infinity && AtMost(OffsetAfter(StepsOf(reach, 0.0), k), StepsOf(reach, 0.0))
  {
    var square := [Pt(1.0, 1.0), Pt(1.0, -1.0), Pt(-1.0, -1.0), Pt(-1.0, 1.0)];
    MaxDistanceBounds(anchor, square);
    var i := if anchor == square[0] then 1 else 0;
    var gap := Minus(square[i], anchor);
    assert gap != Origin;
    assert Distance(anchor, square[i]) == HypotOfAbs(Abs(gap.x), Abs(gap.y)) > 0.0;
    ZeroSpacingNeverEnds(MaxDistance(anchor, square), k);
  }
}
