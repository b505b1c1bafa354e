/**
 * `overlapSplit` of src/geometry/polygon.ts, on vertex values: find the first
 * pair of edges that cross away from the base edge's endpoints, cut the
 * vertex loop there into two loops, and repeat until no loop has such a
 * crossing. `Split` is the specification; `SplitAll` follows the source's
 * worklist with its `resolved` flags and restarts.
 */
module PolygonSplit {
  import opened Wrappers
  import opened Planar
  import opened Segments
  import opened PolygonShape

  /** Edge i (the base) meets edge j mod n (the target) at `at`. */
  datatype Crossing = Crossing(i: nat, j: nat, at: Pt)

  /** The pairs the scan visits: base i of n edges, targets i + 1 .. i + n - 1. */
  predicate Pair(n: nat, i: nat, j: nat)
  {
    i < n && i < j < i + n
  }

  /**
   * The point where the base edge meets the target, unless the edges do not
   * meet or the point is equivalent to one of the base edge's endpoints.
   */
  function CrossingPoint(ps: seq<Pt>, i: nat, j: nat): Option<Pt>
    requires Pair(|ps|, i, j)
  {
    var es := EdgeSegs(ps);
    var base := es[i];
    match Intersection(base, es[j % |ps|])
    case None => None
    case Some(x) => if Equivalent(x, base.end) || Equivalent(x, base.start) then None else Some(x)
  }

  /** A vertex loop with no crossing left to cut. */
  predicate Resolved(ps: seq<Pt>)
  {
    forall i, j :: 0 <= i < |ps| && i < j < i + |ps| ==> CrossingPoint(ps, i, j).None?
  }

  /** Two edges joined at q meet, if at all, only at q, whichever one is the base. */
  lemma JointMeetsOnlyAtJoint(p: Pt, q: Pt, w: Pt)
    ensures Intersection(Seg(p, q), Seg(q, w)) in {None, Some(q)}
    ensures Intersection(Seg(q, w), Seg(p, q)) in {None, Some(q)}
  {
    DirectionForward(Seg(p, q));
    DirectionForward(Seg(q, w));
    CrossAntisymmetric(Minus(q, p), Minus(w, q));
    if Cross(Minus(q, p), Minus(w, q)) != 0.0 {
      IntersectionAtJoint(p, q, w);
    } else {
      IntersectionParallel(Seg(p, q), Seg(q, w));
      IntersectionParallel(Seg(q, w), Seg(p, q));
    }
  }

  /**
   * Neighbouring edges only ever meet at their shared vertex, which is an
   * endpoint of the base, so a crossing skips at least one edge on each side.
   */
  lemma CrossingSkipsNeighbours(ps: seq<Pt>, i: nat, j: nat)
    requires Pair(|ps|, i, j) && CrossingPoint(ps, i, j).Some?
    ensures i + 2 <= j <= i + |ps| - 2
  {
    var n := |ps|;
    var es := EdgeSegs(ps);
    var base := es[i];
    EquivalentReflexiveSymmetric(base.start, base.end);
    if j == i + 1 {
      NextIsModulo(i, n);
      var target := es[j % n];
      assert target.start == base.end;
      JointMeetsOnlyAtJoint(base.start, base.end, target.end);
      assert false;
    } else if j == i + n - 1 {
      var t := j % n;
      PredecessorIndex(n, i, j);
      var target := es[t];
      assert target.end == base.start;
      JointMeetsOnlyAtJoint(target.start, base.start, base.end);
      assert false;
    }
  }

  /** Edge (i + n - 1) mod n is the one before edge i. */
  lemma PredecessorIndex(n: nat, i: nat, j: nat)
    requires i < n && j == i + n - 1
    ensures j % n < n && Next(j % n, n) == i
  {
    WrapCases(j, n);
  }

  /** A loop of at most three vertices has no edge that skips a neighbour, so it is resolved. */
  lemma SmallLoopsResolved(ps: seq<Pt>)
    requires |ps| <= 3
    ensures Resolved(ps)
  {
    forall i, j | Pair(|ps|, i, j)
      ensures CrossingPoint(ps, i, j).None?
    {
      if CrossingPoint(ps, i, j).Some? {
        CrossingSkipsNeighbours(ps, i, j);
      }
    }
  }

  // ----- the scan, in the source's order: bases ascending, then targets ascending -----

  /**
   * The crossings of a loop as a table indexed by (base, target); the scan
   * below reads only this table, so its proofs never look inside an
   * intersection.
   */
  function Hits(ps: seq<Pt>): (nat, nat) -> Option<Pt>
  {
    (i: nat, j: nat) => if Pair(|ps|, i, j) then CrossingPoint(ps, i, j) else None
  }

  function ScanTargets(hits: (nat, nat) -> Option<Pt>, n: nat, i: nat, j: nat): Option<Crossing>
    requires i < n && i < j <= i + n
    decreases i + n - j
  {
    if j == i + n then None
    else match hits(i, j)
      case Some(x) => Some(Crossing(i, j, x))
      case None => ScanTargets(hits, n, i, j + 1)
  }

  function ScanBases(hits: (nat, nat) -> Option<Pt>, n: nat, i: nat): Option<Crossing>
    requires i <= n
    decreases n - i
  {
    if i == n then None
    else match ScanTargets(hits, n, i, i + 1)
      case Some(c) => Some(c)
      case None => ScanBases(hits, n, i + 1)
  }

  /** The first crossing the scan meets, if any. */
  function FirstCrossing(ps: seq<Pt>): Option<Crossing>
  {
    ScanBases(Hits(ps), |EdgeSegs(ps)|, 0)
  }

  /** On the pairs the scan visits the table holds the crossing points. */
  lemma HitsAgree(ps: seq<Pt>)
    ensures forall i, j :: Pair(|ps|, i, j) ==> Hits(ps)(i, j) == CrossingPoint(ps, i, j)
  {
  }

  /** (i', j') comes before (i, j) in the scan. */
  predicate Before(i': nat, j': nat, i: nat, j: nat)
  {
    i' < i || (i' == i && j' < j)
  }

  lemma {:induction false} ScanTargetsCorrect(hits: (nat, nat) -> Option<Pt>, n: nat, i: nat, j: nat)
    requires i < n && i < j <= i + n
    ensures ScanTargets(hits, n, i, j).None? <==> forall j' :: j <= j' < i + n ==> hits(i, j').None?
    ensures ScanTargets(hits, n, i, j).Some? ==>
      var c := ScanTargets(hits, n, i, j).value;
      c.i == i && j <= c.j < i + n && hits(i, c.j) == Some(c.at) &&
      forall j' :: j <= j' < c.j ==> hits(i, j').None?
    decreases i + n - j
  {
    if j < i + n {
      ScanTargetsCorrect(hits, n, i, j + 1);
    }
  }

  lemma {:induction false} ScanBasesCorrect(hits: (nat, nat) -> Option<Pt>, n: nat, i: nat)
    requires i <= n
    ensures ScanBases(hits, n, i).None? <==> forall i', j' :: i <= i' && Pair(n, i', j') ==> hits(i', j').None?
    ensures ScanBases(hits, n, i).Some? ==>
      var c := ScanBases(hits, n, i).value;
      i <= c.i && Pair(n, c.i, c.j) && hits(c.i, c.j) == Some(c.at) &&
      forall i', j' :: i <= i' && Pair(n, i', j') && Before(i', j', c.i, c.j) ==> hits(i', j').None?
    decreases n - i
  {
    if i < n {
      ScanTargetsCorrect(hits, n, i, i + 1);
      ScanBasesCorrect(hits, n, i + 1);
    }
  }

  /**
   * The scan finds nothing exactly when the loop is resolved; what it finds
   * is a crossing, and no pair the scan visits earlier is one.
   */
  lemma FirstCrossingCorrect(ps: seq<Pt>)
    ensures FirstCrossing(ps).None? <==> Resolved(ps)
    ensures FirstCrossing(ps).Some? ==>
      var c := FirstCrossing(ps).value;
      Pair(|ps|, c.i, c.j) && CrossingPoint(ps, c.i, c.j) == Some(c.at) &&
      forall i', j' :: Pair(|ps|, i', j') && Before(i', j', c.i, c.j) ==> CrossingPoint(ps, i', j').None?
  {
    ScanBasesCorrect(Hits(ps), |EdgeSegs(ps)|, 0);
    if |ps| < 2 {
      SmallLoopsResolved(ps);
    } else {
      HitsAgree(ps);
    }
  }

  /** What the scan finds is a crossing. */
  lemma FirstCrossingFound(ps: seq<Pt>)
    requires FirstCrossing(ps).Some?
    ensures Pair(|ps|, FirstCrossing(ps).value.i, FirstCrossing(ps).value.j)
    ensures CrossingPoint(ps, FirstCrossing(ps).value.i, FirstCrossing(ps).value.j) == Some(FirstCrossing(ps).value.at)
  {
    FirstCrossingCorrect(ps);
  }

  /**
   * The nested `for` loops over bases i and targets j of one sub-polygon,
   * leaving both at the first crossing.
   */
  method FindCrossing(ps: seq<Pt>) returns (r: Option<Crossing>)
    ensures r == FirstCrossing(ps)
  {
    var edgeCount := |EdgeSegs(ps)|;
    ghost var hits := Hits(ps);
    var i := 0;
    while i < edgeCount
      invariant 0 <= i <= edgeCount
      invariant ScanBases(hits, edgeCount, i) == FirstCrossing(ps)
    {
      var j := i + 1;
      while j < i + edgeCount
        invariant i + 1 <= j <= i + edgeCount
        invariant ScanTargets(hits, edgeCount, i, j) == ScanTargets(hits, edgeCount, i, i + 1)
      {
        var hit := CrossingPoint(ps, i, j);
        assert hits(i, j) == hit;
        if hit.Some? {
          return Some(Crossing(i, j, hit.value));
        }
        j := j + 1;
      }
      i := i + 1;
    }
    return None;
  }

  // ----- cutting one loop -----

  /** `mod(j, edgeCount)`: the target index the scan records for step j. */
  function Wrap(m: nat, n: nat): nat
    requires n > 0
  {
    m % n
  }

  lemma WrapCases(m: nat, n: nat)
    requires 0 < n && m < 2 * n
    ensures m < n ==> Wrap(m, n) == m
    ensures m >= n ==> Wrap(m, n) == m - n
  {
    if m >= n {
      assert m == n * 1 + (m - n);
    }
  }

  /**
   * Vertex idx is one of `subIndices` when the crossing is found: one of
   * (i + 1) mod n .. j mod n.
   */
  predicate InArc(n: nat, i: nat, j: nat, idx: nat)
  {
    if j < n then i < idx <= j else i < idx || idx <= j - n
  }

  /** The closed form agrees with the indices the scan collects. */
  lemma InArcIsSubIndices(n: nat, i: nat, j: nat, idx: nat)
    requires Pair(n, i, j) && idx < n
    ensures InArc(n, i, j, idx) <==> exists m :: i < m <= j && Wrap(m, n) == idx
  {
    if InArc(n, i, j, idx) {
      if j < n || i < idx {
        WrapCases(idx, n);
      } else {
        WrapCases(idx + n, n);
      }
    }
    if exists m :: i < m <= j && Wrap(m, n) == idx {
      var m :| i < m <= j && Wrap(m, n) == idx;
      WrapCases(m, n);
    }
  }

  /** The first k vertices, kept when their membership of the arc is `inside` (the source's two `filter` calls). */
  function Pick(ps: seq<Pt>, i: nat, j: nat, inside: bool, k: nat): seq<Pt>
    requires k <= |ps|
  {
    if k == 0 then []
    else Pick(ps, i, j, inside, k - 1) + (if InArc(|ps|, i, j, k - 1) == inside then [ps[k - 1]] else [])
  }

  function Clip(a: nat, k: nat): nat
  {
    if a < k then a else k
  }

  lemma PickContiguous(ps: seq<Pt>, i: nat, j: nat, k: nat)
    requires Pair(|ps|, i, j) && j < |ps| && k <= |ps|
    ensures Pick(ps, i, j, true, k) == ps[Clip(i + 1, k)..Clip(j + 1, k)]
    ensures Pick(ps, i, j, false, k) == ps[..Clip(i + 1, k)] + ps[Clip(j + 1, k)..k]
  {
    PickContiguousInside(ps, i, j, k);
    PickContiguousOutside(ps, i, j, k);
  }

  lemma {:induction false} PickContiguousInside(ps: seq<Pt>, i: nat, j: nat, k: nat)
    requires Pair(|ps|, i, j) && j < |ps| && k <= |ps|
    ensures Pick(ps, i, j, true, k) == ps[Clip(i + 1, k)..Clip(j + 1, k)]
  {
    if k > 0 {
      PickContiguousInside(ps, i, j, k - 1);
      var idx := k - 1;
      if i < idx <= j {
        assert ps[Clip(i + 1, k)..Clip(j + 1, k)] == ps[Clip(i + 1, k - 1)..Clip(j + 1, k - 1)] + [ps[idx]];
      }
    }
  }

  lemma {:induction false} PickContiguousOutside(ps: seq<Pt>, i: nat, j: nat, k: nat)
    requires Pair(|ps|, i, j) && j < |ps| && k <= |ps|
    ensures Pick(ps, i, j, false, k) == ps[..Clip(i + 1, k)] + ps[Clip(j + 1, k)..k]
  {
    if k > 0 {
      PickContiguousOutside(ps, i, j, k - 1);
      var idx := k - 1;
      if idx <= i {
        assert ps[..Clip(i + 1, k)] == ps[..Clip(i + 1, k - 1)] + [ps[idx]];
      } else if j < idx {
        assert ps[Clip(j + 1, k)..k] == ps[Clip(j + 1, k - 1)..k - 1] + [ps[idx]];
      } else {
        assert Clip(i + 1, k) == Clip(i + 1, k - 1) && Clip(j + 1, k) == k && Clip(j + 1, k - 1) == k - 1;
      }
    }
  }

  lemma {:induction false} PickWrappedInside(ps: seq<Pt>, i: nat, j: nat, k: nat)
    requires Pair(|ps|, i, j) && j >= |ps| && k <= |ps|
    ensures Pick(ps, i, j, true, k) == ps[..Clip(j - |ps| + 1, k)] + ps[Clip(i + 1, k)..k]
  {
    if k > 0 {
      PickWrappedInside(ps, i, j, k - 1);
      var idx := k - 1;
      var w := j - |ps|;
      if idx <= w {
        assert ps[..Clip(w + 1, k)] == ps[..Clip(w + 1, k - 1)] + [ps[idx]];
        assert Clip(i + 1, k) == k;
      } else if idx <= i {
        assert Clip(i + 1, k) == k && Clip(i + 1, k - 1) == k - 1;
      } else {
        assert ps[Clip(i + 1, k)..k] == ps[Clip(i + 1, k - 1)..k - 1] + [ps[idx]];
      }
    }
  }

  lemma {:induction false} PickWrappedOutside(ps: seq<Pt>, i: nat, j: nat, k: nat)
    requires Pair(|ps|, i, j) && j >= |ps| && k <= |ps|
    ensures Pick(ps, i, j, false, k) == ps[Clip(j - |ps| + 1, k)..Clip(i + 1, k)]
  {
    if k > 0 {
      PickWrappedOutside(ps, i, j, k - 1);
      var idx := k - 1;
      var w := j - |ps|;
      if w < idx <= i {
        assert ps[Clip(w + 1, k)..Clip(i + 1, k)] == ps[Clip(w + 1, k - 1)..Clip(i + 1, k - 1)] + [ps[idx]];
      }
    }
  }

  /** `splice(pos, 0, x)`: x inserted at pos, or appended when pos is past the end. */
  function Splice(xs: seq<Pt>, pos: nat, x: Pt): (r: seq<Pt>)
    ensures |r| == |xs| + 1
  {
    if pos < |xs| then xs[..pos] + [x] + xs[pos..] else xs + [x]
  }

  /**
   * The two raw vertex lists a crossing produces: the vertices off the arc
   * with the crossing point spliced in at i + 1 (replacing the polygon), and
   * the vertices on the arc followed by the crossing point (appended).
   */
  function SplitPair(ps: seq<Pt>, c: Crossing): (seq<Pt>, seq<Pt>)
    requires Pair(|ps|, c.i, c.j)
  {
    (Splice(Pick(ps, c.i, c.j, false, |ps|), c.i + 1, c.at), Pick(ps, c.i, c.j, true, |ps|) + [c.at])
  }

  /**
   * Without wrap-around the loop is cut into vertices 0..i, the crossing,
   * j + 1..n - 1, and the arc i + 1..j closed by the crossing.
   */
  lemma SplitContiguous(ps: seq<Pt>, c: Crossing)
    requires Pair(|ps|, c.i, c.j) && c.j < |ps|
    ensures SplitPair(ps, c).0 == ps[..c.i + 1] + [c.at] + ps[c.j + 1..]
    ensures SplitPair(ps, c).1 == ps[c.i + 1..c.j + 1] + [c.at]
  {
    PickContiguous(ps, c.i, c.j, |ps|);
    var off := Pick(ps, c.i, c.j, false, |ps|);
    assert ps[..|ps|] == ps;
    if c.i + 1 < |off| {
      assert off[..c.i + 1] == ps[..c.i + 1];
      assert off[c.i + 1..] == ps[c.j + 1..];
    } else {
      assert ps[c.j + 1..] == [];
    }
  }

  /**
   * When the target index wraps past the last vertex (w = j - n), the
   * replacement loop is w + 1..i followed by the crossing, and the appended
   * one is 0..w, i + 1..n - 1, then the crossing: `filter` keeps index order,
   * so the crossing ends up between vertices n - 1 and 0 rather than
   * between w and i + 1.
   */
  lemma SplitWrapped(ps: seq<Pt>, c: Crossing)
    requires Pair(|ps|, c.i, c.j) && c.j >= |ps|
    ensures SplitPair(ps, c).0 == ps[c.j - |ps| + 1..c.i + 1] + [c.at]
    ensures SplitPair(ps, c).1 == ps[..c.j - |ps| + 1] + ps[c.i + 1..] + [c.at]
  {
    PickWrappedInside(ps, c.i, c.j, |ps|);
    PickWrappedOutside(ps, c.i, c.j, |ps|);
  }

  /**
   * The two lists hold n + 2 vertices between them: j - i + 1 in the
   * appended one and n - (j - i) + 1 in the replacement.
   */
  lemma SplitSizes(ps: seq<Pt>, c: Crossing)
    requires Pair(|ps|, c.i, c.j)
    ensures |SplitPair(ps, c).1| == c.j - c.i + 1
    ensures |SplitPair(ps, c).0| == |ps| - (c.j - c.i) + 1
    ensures |SplitPair(ps, c).0| + |SplitPair(ps, c).1| == |ps| + 2
  {
    if c.j < |ps| {
      SplitContiguous(ps, c);
    } else {
      SplitWrapped(ps, c);
    }
  }

  /** Cutting at a genuine crossing leaves both lists strictly shorter than the loop. */
  lemma SplitShrinks(ps: seq<Pt>, c: Crossing)
    requires Pair(|ps|, c.i, c.j) && CrossingPoint(ps, c.i, c.j) == Some(c.at)
    ensures 3 <= |SplitPair(ps, c).0| < |ps| && 3 <= |SplitPair(ps, c).1| < |ps|
  {
    CrossingSkipsNeighbours(ps, c.i, c.j);
    SplitSizes(ps, c);
  }

  // ----- the worklist -----

  function Pow3(n: nat): (r: nat)
    ensures r >= 1
  {
    if n == 0 then 1 else 3 * Pow3(n - 1)
  }

  lemma {:induction false} Pow3Monotone(a: nat, b: nat)
    requires a <= b
    ensures Pow3(a) <= Pow3(b)
    decreases b
  {
    if a < b {
      Pow3Monotone(a, b - 1);
    }
  }

  /**
   * The termination measure of the worklist: 3 to the power of each
   * sub-polygon's vertex count, summed. A cut replaces a loop of n vertices
   * by two of at most n - 1 each, and 2 * 3^(n-1) < 3^n.
   */
  function Weight(raws: seq<seq<Pt>>): nat
  {
    if raws == [] then 0 else Weight(raws[..|raws| - 1]) + Pow3(|Processed(raws[|raws| - 1])|)
  }

  lemma {:induction false} WeightUpdate(raws: seq<seq<Pt>>, p: nat, r: seq<Pt>)
    requires p < |raws|
    ensures Weight(raws[p := r]) + Pow3(|Processed(raws[p])|) == Weight(raws) + Pow3(|Processed(r)|)
  {
    var last := |raws| - 1;
    if p < last {
      WeightUpdate(raws[..last], p, r);
      assert raws[p := r][..last] == raws[..last][p := r];
    } else {
      assert raws[p := r][..last] == raws[..last];
    }
  }

  lemma WeightAppend(raws: seq<seq<Pt>>, r: seq<Pt>)
    ensures Weight(raws + [r]) == Weight(raws) + Pow3(|Processed(r)|)
  {
    assert (raws + [r])[..|raws|] == raws;
  }

  /** What the scan finds in each slot's polygon. */
  function Scans(raws: seq<seq<Pt>>): (found: seq<Option<Crossing>>)
    ensures |found| == |raws|
  {
    seq(|raws|, q requires 0 <= q < |raws| => FirstCrossing(Processed(raws[q])))
  }

  /** The first slot from p on where the scan finds a crossing, with that crossing. */
  function FirstFound(found: seq<Option<Crossing>>, p: nat): Option<(nat, Crossing)>
    requires p <= |found|
    decreases |found| - p
  {
    if p == |found| then None
    else match found[p]
      case Some(c) => Some((p, c))
      case None => FirstFound(found, p + 1)
  }

  lemma {:induction false} FirstFoundCorrect(found: seq<Option<Crossing>>, p: nat)
    requires p <= |found|
    ensures FirstFound(found, p).None? <==> forall q :: p <= q < |found| ==> found[q].None?
    ensures FirstFound(found, p).Some? ==>
      var (q, c) := FirstFound(found, p).value;
      p <= q < |found| && found[q] == Some(c) && forall q' :: p <= q' < q ==> found[q'].None?
    decreases |found| - p
  {
    if p < |found| {
      FirstFoundCorrect(found, p + 1);
    }
  }

  /** A crossing in slot p, with none in the slots before it, is the first found. */
  lemma FirstFoundAt(found: seq<Option<Crossing>>, p: nat, c: Crossing)
    requires p < |found| && found[p] == Some(c)
    requires forall q :: 0 <= q < p ==> found[q].None?
    ensures FirstFound(found, 0) == Some((p, c))
  {
    FirstFoundCorrect(found, 0);
    assert FirstFound(found, 0).Some?;
    var (q, c') := FirstFound(found, 0).value;
    assert !(q < p) && !(p < q);
  }

  /** Replacing slot p and appending a slot leaves what the scan finds in the other slots. */
  lemma ScansOfCut(raws: seq<seq<Pt>>, p: nat, first: seq<Pt>, second: seq<Pt>)
    requires p < |raws|
    ensures forall q :: 0 <= q < |raws| && q != p ==> Scans(raws[p := first] + [second])[q] == Scans(raws)[q]
  {
    var cut := raws[p := first] + [second];
    forall q | 0 <= q < |raws| && q != p
      ensures Scans(cut)[q] == Scans(raws)[q]
    {
      assert cut[q] == raws[q];
    }
  }

  /** Slot p replaced by the first list of the cut, the second appended. */
  function Cut(raws: seq<seq<Pt>>, p: nat, c: Crossing): seq<seq<Pt>>
    requires p < |raws| && Pair(|Processed(raws[p])|, c.i, c.j)
  {
    var pair := SplitPair(Processed(raws[p]), c);
    raws[p := pair.0] + [pair.1]
  }

  /** Cutting at the first crossing lowers the weight. */
  lemma CutLighter(raws: seq<seq<Pt>>, p: nat, c: Crossing)
    requires p < |raws| && FirstCrossing(Processed(raws[p])) == Some(c)
    ensures Pair(|Processed(raws[p])|, c.i, c.j)
    ensures Weight(Cut(raws, p, c)) < Weight(raws)
  {
    var ps := Processed(raws[p]);
    FirstCrossingFound(ps);
    SplitShrinks(ps, c);
    var pair := SplitPair(ps, c);
    ProcessedShape(pair.0);
    ProcessedShape(pair.1);
    Pow3Split(|ps|, |Processed(pair.0)|, |Processed(pair.1)|);
    WeightOfCut(raws, p, pair.0, pair.1);
  }

  lemma Pow3Split(n: nat, a: nat, b: nat)
    requires a < n && b < n
    ensures Pow3(a) + Pow3(b) < Pow3(n)
  {
    Pow3Monotone(a, n - 1);
    Pow3Monotone(b, n - 1);
  }

  lemma WeightOfCut(raws: seq<seq<Pt>>, p: nat, first: seq<Pt>, second: seq<Pt>)
    requires p < |raws|
    requires Pow3(|Processed(first)|) + Pow3(|Processed(second)|) < Pow3(|Processed(raws[p])|)
    ensures Weight(raws[p := first] + [second]) < Weight(raws)
  {
    WeightUpdate(raws, p, first);
    WeightAppend(raws[p := first], second);
  }

  /**
   * The result of `overlapSplit` on value lists: cut the first sub-polygon
   * with a crossing at its first crossing, and repeat from the start.
   */
  function Split(raws: seq<seq<Pt>>): seq<seq<Pt>>
    decreases Weight(raws)
  {
    match FirstFound(Scans(raws), 0)
    case None => raws
    case Some((p, c)) =>
      FirstFoundCorrect(Scans(raws), 0);
      CutLighter(raws, p, c);
      Split(Cut(raws, p, c))
  }

  /** One step of the split: the first crossing found is cut, and the weight drops. */
  lemma SplitStep(raws: seq<seq<Pt>>, p: nat, c: Crossing)
    requires FirstFound(Scans(raws), 0) == Some((p, c))
    ensures p < |raws| && Pair(|Processed(raws[p])|, c.i, c.j)
    ensures Split(raws) == Split(Cut(raws, p, c))
    ensures Weight(Cut(raws, p, c)) < Weight(raws)
  {
    FirstFoundCorrect(Scans(raws), 0);
    CutLighter(raws, p, c);
  }

  /** When the scan finds nothing in any slot, the split is finished. */
  lemma SplitDone(raws: seq<seq<Pt>>)
    requires forall q :: 0 <= q < |raws| ==> Scans(raws)[q].None?
    ensures Split(raws) == raws
  {
    FirstFoundCorrect(Scans(raws), 0);
  }

  /**
   * The cut the worklist makes in slot p, when the slots before it were just
   * found clean, is the split's next step, lowers the weight, and keeps every
   * slot marked resolved clean.
   */
  lemma CutKeepsWorklist(raws: seq<seq<Pt>>, resolved: seq<bool>, p: nat, c: Crossing)
    requires |resolved| == |raws| && p < |raws|
    requires forall q :: 0 <= q < |raws| && resolved[q] ==> Scans(raws)[q].None?
    requires forall q :: 0 <= q < p ==> resolved[q]
    requires Scans(raws)[p] == Some(c)
    ensures Pair(|Processed(raws[p])|, c.i, c.j)
    ensures Split(Cut(raws, p, c)) == Split(raws)
    ensures Weight(Cut(raws, p, c)) < Weight(raws)
    ensures forall q :: 0 <= q < |raws| + 1 && (resolved + [false])[q] ==> Scans(Cut(raws, p, c))[q].None?
  {
    FirstFoundAt(Scans(raws), p, c);
    SplitStep(raws, p, c);
    var pair := SplitPair(Processed(raws[p]), c);
    ScansOfCut(raws, p, pair.0, pair.1);
    var flags := resolved + [false];
    forall q | 0 <= q < |raws| + 1 && flags[q]
      ensures Scans(Cut(raws, p, c))[q].None?
    {
      assert q < |raws| && resolved[q];
    }
  }

  /** Every loop the split returns is resolved, and none is lost. */
  lemma {:induction false} SplitResolved(raws: seq<seq<Pt>>)
    ensures |Split(raws)| >= |raws|
    ensures forall q :: 0 <= q < |Split(raws)| ==> Resolved(Processed(Split(raws)[q]))
    decreases Weight(raws)
  {
    FirstFoundCorrect(Scans(raws), 0);
    match FirstFound(Scans(raws), 0)
    case None =>
      forall q | 0 <= q < |raws|
        ensures Resolved(Processed(raws[q]))
      {
        assert Scans(raws)[q].None?;
        FirstCrossingCorrect(Processed(raws[q]));
      }
    case Some((p, c)) =>
      CutLighter(raws, p, c);
      SplitResolved(Cut(raws, p, c));
  }

  /** A polygon with no crossing comes back alone and unchanged. */
  lemma SplitOfResolved(start: seq<Pt>)
    requires Resolved(Processed(start))
    ensures Split([start]) == [start]
  {
    FirstCrossingCorrect(Processed(start));
    FirstFoundCorrect(Scans([start]), 0);
  }

  predicate AllTrue(flags: seq<bool>)
  {
    forall q :: 0 <= q < |flags| ==> flags[q]
  }

  /**
   * The worklist of `overlapSplit`: `resolved` flags per slot; each pass
   * scans the slots in order, marks a slot resolved when it has no crossing,
   * and on the first crossing replaces that slot, appends the other loop
   * and restarts. Slot p holds raw vertices; its polygon is their
   * normalisation.
   */
  method SplitAll(start: seq<Pt>) returns (raws: seq<seq<Pt>>, firstKept: bool)
    ensures raws == Split([start]) && |raws| >= 1
    ensures firstKept <==> Resolved(Processed(start))
    ensures firstKept ==> raws[0] == start
  {
    var resolved := [false];
    raws := [start];
    firstKept := true;
    while !AllTrue(resolved)
      invariant |resolved| == |raws| >= 1
      invariant Split(raws) == Split([start])
      invariant forall q :: 0 <= q < |raws| && resolved[q] ==> Scans(raws)[q].None?
      invariant firstKept ==> raws[0] == start
      invariant !firstKept ==> !Resolved(Processed(start))
      decreases Weight(raws), if AllTrue(resolved) then 0 else 1
    {
      var cut;
      ghost var first := raws[0];
      raws, resolved, cut := Pass(raws, resolved);
      if cut == Some(0) {
        FirstCrossingCorrect(Processed(first));
        firstKept := false;
      }
    }
    SplitDone(raws);
    if firstKept {
      assert Scans(raws)[0].None?;
      FirstCrossingCorrect(Processed(start));
    }
  }

  /**
   * One pass of the worklist: slots are scanned in order and marked
   * resolved while clean; the first crossing found cuts its slot, appends
   * the other loop unresolved, and ends the pass (the `restart` of the
   * source). `cut` names the slot that was cut, if any.
   */
  method Pass(raws: seq<seq<Pt>>, resolved: seq<bool>) returns (raws': seq<seq<Pt>>, resolved': seq<bool>, cut: Option<nat>)
    requires |resolved| == |raws| >= 1
    requires forall q :: 0 <= q < |raws| && resolved[q] ==> Scans(raws)[q].None?
    ensures |resolved'| == |raws'| >= 1
    ensures Split(raws') == Split(raws)
    ensures forall q :: 0 <= q < |raws'| && resolved'[q] ==> Scans(raws')[q].None?
    ensures cut.None? ==> raws' == raws && AllTrue(resolved')
    ensures cut.Some? ==> Weight(raws') < Weight(raws) && cut.value < |raws| && Scans(raws)[cut.value].Some?
    ensures cut != Some(0) ==> raws'[0] == raws[0]
  {
    raws', resolved', cut := raws, resolved, None;
    var p: nat := 0;
    while p < |raws'|
      invariant 0 <= p <= |raws'| && |resolved'| == |raws'| == |raws|
      invariant raws' == raws
      invariant forall q :: 0 <= q < |raws'| && resolved'[q] ==> Scans(raws')[q].None?
      invariant forall q :: 0 <= q < p ==> resolved'[q]
      decreases |raws'| - p
    {
      var polygon := Processed(raws'[p]);
      var crossing := FindCrossing(polygon);
      if crossing.Some? {
        var c := crossing.value;
        CutKeepsWorklist(raws', resolved', p, c);
        var pair := SplitPair(polygon, c);
        raws' := raws'[p := pair.0] + [pair.1];
        resolved' := resolved' + [false];
        cut := Some(p);
        return;
      }
      resolved' := resolved'[p := true];
      p := p + 1;
    }
  }

  // ----- the resulting polygons, and offset -----

  /**
   * The outlines of the polygons `overlapSplit` returns for a polygon with
   * outline `start`: each remaining loop, normalised by the constructor.
   * There is at least one, and none of them has a crossing left.
   */
  function Parts(start: seq<Pt>): (outlines: seq<seq<Pt>>)
    ensures |outlines| >= 1
    ensures forall q :: 0 <= q < |outlines| ==> Resolved(outlines[q])
  {
    SplitResolved([start]);
    Normalised(Split([start]))
  }

  /** Each slot's raw vertices as the constructor normalises them. */
  function Normalised(raws: seq<seq<Pt>>): (outlines: seq<seq<Pt>>)
    ensures |outlines| == |raws|
    ensures forall q :: 0 <= q < |raws| ==> outlines[q] == Processed(raws[q])
  {
    seq(|raws|, q requires 0 <= q < |raws| => Processed(raws[q]))
  }

  /**
   * The raw vertices of `offset`: both ends of every edge, in edge order,
   * pushed along the edge's normal (on the side `clockwise` selects) by
   * `quantity`.
   */
  function OffsetRaw(segs: seq<Seg>, clockwise: bool, quantity: real): (raw: seq<Pt>)
    ensures |raw| == 2 * |segs|
    ensures forall k :: 0 <= k < |segs| ==>
      var shift := Times(Normal(segs[k], clockwise), quantity);
      raw[2 * k] == Plus(segs[k].start, shift) && raw[2 * k + 1] == Plus(segs[k].end, shift)
  {
    if segs == [] then []
    else
      var s := segs[|segs| - 1];
      var shift := Times(Normal(s, clockwise), quantity);
      OffsetRaw(segs[..|segs| - 1], clockwise, quantity) + [Plus(s.start, shift), Plus(s.end, shift)]
  }

  /**
   * The filter at the end of `offset`: the outlines whose orientation is
   * `clockwise`, in their order. An outline is kept exactly when it has that
   * orientation.
   */
  function KeepOriented(outlines: seq<seq<Pt>>, clockwise: bool): (kept: seq<seq<Pt>>)
    ensures |kept| <= |outlines|
    ensures forall o :: o in kept <==> o in outlines && ClockwiseOutline(o) == clockwise
  {
    if outlines == [] then []
    else
      var last := outlines[|outlines| - 1];
      var init := KeepOriented(outlines[..|outlines| - 1], clockwise);
      assert outlines == outlines[..|outlines| - 1] + [last];
      if ClockwiseOutline(last) == clockwise then init + [last] else init
  }

  /** Offsetting one more edge appends its two shifted ends. */
  lemma OffsetRawStep(segs: seq<Seg>, i: nat, clockwise: bool, quantity: real)
    requires i < |segs|
    ensures var shift := Times(Normal(segs[i], clockwise), quantity);
      OffsetRaw(segs[..i + 1], clockwise, quantity)
      == OffsetRaw(segs[..i], clockwise, quantity) + [Plus(segs[i].start, shift), Plus(segs[i].end, shift)]
  {
    assert segs[..i + 1][..i] == segs[..i];
  }

  /**
   * `offset` for a non-zero quantity: the parts of the polygon built from
   * the shifted edge ends that have the original orientation.
   */
  function OffsetParts(ps: seq<Pt>, clockwise: bool, quantity: real): seq<seq<Pt>>
  {
    KeepOriented(Parts(Processed(OffsetRaw(EdgeSegs(ps), clockwise, quantity))), clockwise)
  }

  /**
   * Every outline `offset` returns has no crossing and the original
   * orientation, and it returns every part of the split that has that
   * orientation.
   */
  lemma OffsetPartsCorrect(ps: seq<Pt>, clockwise: bool, quantity: real)
    ensures forall o :: o in OffsetParts(ps, clockwise, quantity) ==> Resolved(o) && ClockwiseOutline(o) == clockwise
    ensures forall o :: (o in Parts(Processed(OffsetRaw(EdgeSegs(ps), clockwise, quantity))) && ClockwiseOutline(o) == clockwise)
                        ==> o in OffsetParts(ps, clockwise, quantity)
  {
  }

  // ----- the bowtie of the unit tests -----

  /** (1, 1), (1, -1), (-1, 1), (-1, -1): two triangles touching at the origin. */
  const Bowtie: seq<Pt> := [Pt(1.0, 1.0), Pt(1.0, -1.0), Pt(-1.0, 1.0), Pt(-1.0, -1.0)]

  /** The crossing test of base i and target j, on the two edges written out. */
  lemma CrossingPointOfSegs(ps: seq<Pt>, i: nat, j: nat, base: Seg, target: Seg)
    requires Pair(|ps|, i, j)
    requires base == Seg(ps[i], ps[Next(i, |ps|)])
    requires target == Seg(ps[j % |ps|], ps[Next(j % |ps|, |ps|)])
    ensures Intersection(base, target).None? ==> CrossingPoint(ps, i, j) == None
    ensures Intersection(base, target).Some? ==>
      var x := Intersection(base, target).value;
      CrossingPoint(ps, i, j) == if Equivalent(x, base.end) || Equivalent(x, base.start) then None else Some(x)
  {
  }

  lemma SidesParallel()
    ensures Intersection(Seg(Pt(1.0, 1.0), Pt(1.0, -1.0)), Seg(Pt(-1.0, 1.0), Pt(-1.0, -1.0))) == None
  {
    var a, b := Seg(Pt(1.0, 1.0), Pt(1.0, -1.0)), Seg(Pt(-1.0, 1.0), Pt(-1.0, -1.0));
    DirectionForward(a);
    DirectionForward(b);
    IntersectionParallel(a, b);
  }

  lemma DiagonalsCross()
    ensures Intersection(Seg(Pt(1.0, -1.0), Pt(-1.0, 1.0)), Seg(Pt(-1.0, -1.0), Pt(1.0, 1.0))) == Some(Origin)
  {
    var a, b := Seg(Pt(1.0, -1.0), Pt(-1.0, 1.0)), Seg(Pt(-1.0, -1.0), Pt(1.0, 1.0));
    DirectionForward(a);
    DirectionForward(b);
    assert At(a, 0.5) == Origin && At(b, 0.5) == Origin;
    IntersectionComplete(a, b, 0.5, 0.5);
  }

  lemma BowtieSidesParallel()
    ensures CrossingPoint(Bowtie, 0, 2) == None
  {
    SidesParallel();
    CrossingPointOfSegs(Bowtie, 0, 2, Seg(Pt(1.0, 1.0), Pt(1.0, -1.0)), Seg(Pt(-1.0, 1.0), Pt(-1.0, -1.0)));
  }

  lemma BowtieDiagonalsCross()
    ensures CrossingPoint(Bowtie, 1, 3) == Some(Origin)
  {
    var a, b := Seg(Pt(1.0, -1.0), Pt(-1.0, 1.0)), Seg(Pt(-1.0, -1.0), Pt(1.0, 1.0));
    CrossingPointOfSegs(Bowtie, 1, 3, a, b);
    assert !Equivalent(Origin, a.end) && !Equivalent(Origin, a.start);
    DiagonalsCross();
  }

  /** Neighbouring sides and the parallel sides of the bowtie do not cross. */
  lemma BowtieMisses()
    ensures forall i, j | (i, j) in {(0, 1), (0, 2), (0, 3), (1, 2)} :: CrossingPoint(Bowtie, i, j) == None
  {
    BowtieSidesParallel();
    forall i, j | (i, j) in {(0, 1), (0, 3), (1, 2)}
      ensures CrossingPoint(Bowtie, i, j) == None
    {
      if CrossingPoint(Bowtie, i, j).Some? {
        CrossingSkipsNeighbours(Bowtie, i, j);
      }
    }
  }

  /** Edge 0 of the bowtie crosses nothing: the scan from it finds no crossing. */
  lemma BowtieBaseZero()
    ensures ScanTargets(Hits(Bowtie), 4, 0, 1) == None
  {
    BowtieMisses();
    var hits := Hits(Bowtie);
    assert ScanTargets(hits, 4, 0, 3) == None;
    assert ScanTargets(hits, 4, 0, 2) == None;
  }

  /** The scan passes over the neighbours and the parallel sides and stops at the diagonals, edges 1 and 3. */
  lemma BowtieFirstCrossing()
    ensures FirstCrossing(Bowtie) == Some(Crossing(1, 3, Origin))
  {
    BowtieBaseZero();
    BowtieMisses();
    BowtieDiagonalsCross();
    var hits := Hits(Bowtie);
    assert ScanTargets(hits, 4, 1, 2) == Some(Crossing(1, 3, Origin));
    assert ScanBases(hits, 4, 1) == Some(Crossing(1, 3, Origin));
  }

  const LeftTriangle: seq<Pt> := [Pt(1.0, 1.0), Pt(1.0, -1.0), Origin]
  const RightTriangle: seq<Pt> := [Pt(-1.0, 1.0), Pt(-1.0, -1.0), Origin]

  lemma BowtieClean()
    ensures Processed(Bowtie) == Bowtie
  {
    ProcessedKeepsClean(Bowtie);
  }

  lemma TrianglesClean()
    ensures Processed(LeftTriangle) == LeftTriangle
    ensures Processed(RightTriangle) == RightTriangle
  {
    ProcessedKeepsClean(LeftTriangle);
    ProcessedKeepsClean(RightTriangle);
  }

  lemma BowtieScan()
    ensures Scans([Bowtie]) == [Some(Crossing(1, 3, Origin))]
  {
    BowtieClean();
    BowtieFirstCrossing();
  }

  lemma BowtieCut()
    ensures Processed(Bowtie) == Bowtie
    ensures Cut([Bowtie], 0, Crossing(1, 3, Origin)) == [LeftTriangle, RightTriangle]
  {
    BowtieClean();
    SplitContiguous(Bowtie, Crossing(1, 3, Origin));
    assert Bowtie[..2] + [Origin] + Bowtie[4..] == LeftTriangle;
    assert Bowtie[2..4] + [Origin] == RightTriangle;
  }

  /** A slot whose raw list has at most three vertices is never cut. */
  lemma SmallSlotClean(raw: seq<Pt>)
    requires |raw| <= 3
    ensures FirstCrossing(Processed(raw)).None?
  {
    ProcessedShape(raw);
    SmallLoopsResolved(Processed(raw));
    FirstCrossingCorrect(Processed(raw));
  }

  /**
   * The bowtie splits into exactly two triangles sharing the origin:
   * (1, 1), (1, -1), (0, 0) and (-1, 1), (-1, -1), (0, 0).
   */
  lemma BowtieSplitsIntoTriangles()
    ensures Split([Bowtie]) == [LeftTriangle, RightTriangle]
    ensures Processed(LeftTriangle) == LeftTriangle && Processed(RightTriangle) == RightTriangle
  {
    BowtieFirstCut();
    TrianglesStay();
    TrianglesClean();
  }

  /** The first round of the worklist cuts the bowtie at its centre. */
  lemma BowtieFirstCut()
    ensures Split([Bowtie]) == Split([LeftTriangle, RightTriangle])
  {
    var c := Crossing(1, 3, Origin);
    BowtieScan();
    BowtieCut();
    FirstFoundAt(Scans([Bowtie]), 0, c);
    SplitStep([Bowtie], 0, c);
  }

  /** Triangles are never cut: the worklist stops. */
  lemma TrianglesStay()
    ensures Split([LeftTriangle, RightTriangle]) == [LeftTriangle, RightTriangle]
  {
    SmallSlotClean(LeftTriangle);
    SmallSlotClean(RightTriangle);
    SplitDone([LeftTriangle, RightTriangle]);
  }
}
