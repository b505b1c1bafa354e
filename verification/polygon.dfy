/**
 * The `Polygon` class of src/geometry/polygon.ts. A polygon owns its vertex
 * objects (the constructor copies what it is given), and its edges refer to
 * those very objects, so moving a vertex in place moves the edges that end
 * there until `transform` rebuilds them. The anchor is a separate vertex (the
 * centroid), except that a one-vertex polygon anchors at its own vertex and a
 * copy shares the anchor object of the polygon it was copied from.
 */
module Polygons {
  import opened Wrappers
  import opened Planar
  import opened JsMath
  import opened Segments
  import opened Vectors
  import opened Vertices
  import opened Edges
  import opened PolygonShape
  import opened PolygonQuery
  import opened PolygonSplit

  /** No vertex object appears twice. */
  predicate Distinct(vs: seq<Vertex>)
  {
    forall i, j :: 0 <= i < j < |vs| ==> vs[i] != vs[j]
  }

  /** The endpoint objects of a list of edges. */
  function Ends(es: seq<Edge>): set<Vertex>
  {
    (set e | e in es :: e.start) + (set e | e in es :: e.end)
  }

  /** The positions of a list of edges. */
  function EdgeValues(es: seq<Edge>): (ss: seq<Seg>)
    reads Ends(es)
    ensures |ss| == |es|
    ensures forall i :: 0 <= i < |es| ==> ss[i] == es[i].Value()
  {
    seq(|es|, i requires 0 <= i < |es| reads Ends(es) => es[i].Value())
  }

  /** The vertex objects of a list of polygons. */
  function Footprint(ps: seq<Polygon>): set<object>
    reads ps
  {
    (set p | p in ps :: p as object) + (set p, i | p in ps && 0 <= i < |p.verts| :: p.verts[i] as object)
  }

  /** Every polygon of the list is valid. */
  ghost predicate AllValid(ps: seq<Polygon>)
    reads ps, Footprint(ps)
  {
    forall q :: 0 <= q < |ps| ==> ps[q].Valid()
  }

  /** The outlines of a list of polygons and one more. */
  lemma OutlinesAppend(ps: seq<Polygon>, p: Polygon)
    ensures Outlines(ps + [p]) == Outlines(ps) + [p.Outline()]
  {
  }

  /** The filter of `offset`: the polygons whose `clockwise` field is the given one, in order. */
  function KeepClockwise(ps: seq<Polygon>, clockwise: bool): (kept: seq<Polygon>)
    reads ps
    ensures |kept| <= |ps|
    ensures forall k :: 0 <= k < |kept| ==> kept[k] in ps && kept[k].clockwise == clockwise
    ensures forall p :: p in ps && p.clockwise == clockwise ==> p in kept
  {
    if ps == [] then []
    else
      var last := ps[|ps| - 1];
      var init := KeepClockwise(ps[..|ps| - 1], clockwise);
      assert ps == ps[..|ps| - 1] + [last];
      if last.clockwise == clockwise then init + [last] else init
  }

  /**
   * On valid polygons, filtering by the `clockwise` field keeps exactly the
   * outlines of the requested orientation, and the kept polygons stay valid.
   */
  lemma {:induction false} KeepClockwiseOutlines(ps: seq<Polygon>, clockwise: bool)
    requires AllValid(ps)
    ensures AllValid(KeepClockwise(ps, clockwise))
    ensures Outlines(KeepClockwise(ps, clockwise)) == KeepOriented(Outlines(ps), clockwise)
  {
    if ps != [] {
      var n := |ps|;
      var init := ps[..n - 1];
      var last := ps[n - 1];
      assert AllValid(init) by {
        forall q | 0 <= q < |init| ensures init[q].Valid() {
          assert init[q] == ps[q];
        }
      }
      KeepClockwiseOutlines(init, clockwise);
      assert last.Valid();
      var os := Outlines(ps);
      assert os[..n - 1] == Outlines(init);
      assert os[n - 1] == last.Outline();
      if last.clockwise == clockwise {
        OutlinesAppend(KeepClockwise(init, clockwise), last);
      }
    }
  }

  /** The outlines of a list of polygons. */
  function Outlines(ps: seq<Polygon>): (os: seq<seq<Pt>>)
    reads ps, Footprint(ps)
    ensures |os| == |ps|
    ensures forall q :: 0 <= q < |ps| ==> os[q] == ps[q].Outline()
  {
    seq(|ps|, q requires 0 <= q < |ps| reads ps, Footprint(ps) => ps[q].Outline())
  }

  /** An intersection vertex paired with its position, the key `intersectEdge` sorts and filters by. */
  function Located(hit: (Vertex, Pt)): Pt
  {
    hit.1
  }

  /** New vertex objects at the given positions. */
  method VerticesAt(ps: seq<Pt>) returns (vs: seq<Vertex>)
    ensures Values(vs) == ps
    ensures forall v :: v in vs ==> fresh(v)
  {
    vs := [];
    var i := 0;
    while i < |ps|
      invariant 0 <= i <= |ps|
      invariant Values(vs) == ps[..i]
      invariant forall v :: v in vs ==> fresh(v)
    {
      var v := new Vertex(ps[i].x, ps[i].y);
      vs := vs + [v];
      i := i + 1;
    }
  }

  /** `poly`: the constructor. */
  method Poly(vertices: seq<Vertex>) returns (p: Polygon)
    ensures fresh(p) && p.Valid()
    ensures p.Outline() == Processed(Values(vertices))
    ensures forall v :: v in p.verts ==> fresh(v)
    ensures p.anchor.Value() == Centroid(p.Outline())
    ensures |p.verts| == 1 ==> p.anchor == p.verts[0]
    ensures |p.verts| != 1 ==> fresh(p.anchor)
  {
    p := new Polygon(vertices);
  }

  class Polygon {
    var verts: seq<Vertex>
    var edges: seq<Edge>
    var clockwise: bool
    var anchor: Vertex

    /** The positions of the vertices, in order. */
    function Outline(): seq<Pt>
      reads this`verts, verts
    {
      Values(verts)
    }

    /**
     * The vertex objects are distinct; edge i joins vertex i to vertex i + 1
     * (the last back to the first) by reference, as `calculateEdges` builds
     * them; and `clockwise` is the sign of the angular sum of those edges.
     */
    ghost predicate Valid()
      reads this`verts, this`edges, this`clockwise, verts
    {
      Wired(verts, edges, clockwise)
    }

    /** `Valid` of a polygon whose fields would be the given vertices, edges and orientation. */
    static ghost predicate Wired(vs: seq<Vertex>, es: seq<Edge>, cw: bool)
      reads vs
    {
      Distinct(vs) && Linked(vs, es) && cw == ClockwiseOutline(Values(vs))
    }

    /** Edge i runs from vertex object i to vertex object i + 1, the last back to the first; no edges below two vertices. */
    static predicate Linked(vs: seq<Vertex>, es: seq<Edge>)
    {
      |es| == (if |vs| < 2 then 0 else |vs|) &&
      forall i :: 0 <= i < |es| ==> es[i].start == vs[i] && es[i].end == vs[Next(i, |vs|)]
    }

    /**
     * `processVertices`: copies of the vertices that survive normalisation
     * (not equivalent to the next one, the last compared with the first), or
     * a copy of the first vertex alone when all of them collapse.
     */
    static method ProcessVertices(vertices: seq<Vertex>) returns (processed: seq<Vertex>)
      ensures Values(processed) == Processed(Values(vertices))
      ensures Distinct(processed)
      ensures forall v :: v in processed ==> fresh(v)
    {
      processed := [];
      if |vertices| == 0 {
        return;
      }
      ghost var ps := Values(vertices);
      var i := 0;
      while i + 1 < |vertices|
        invariant 0 <= i <= |vertices| - 1
        invariant Values(processed) == Survivors(ps, i)
        invariant Distinct(processed)
        invariant forall v :: v in processed ==> fresh(v)
      {
        if !vertices[i].IsEquivalentTo(vertices[i + 1]) {
          assert Survives(ps, i);
          var c := vertices[i].Copy();
          Keep(processed, c);
          processed := processed + [c];
        }
        i := i + 1;
      }
      if !vertices[|vertices| - 1].IsEquivalentTo(vertices[0]) {
        assert Survives(ps, |ps| - 1);
        var c := vertices[|vertices| - 1].Copy();
        Keep(processed, c);
        processed := processed + [c];
      }
      assert Values(processed) == Survivors(ps, |ps|);
      if |processed| == 0 && |vertices| > 0 {
        var c := vertices[0].Copy();
        processed := processed + [c];
      }
    }

    /** Appending a new copy keeps the copies distinct and appends its position. */
    static lemma Keep(processed: seq<Vertex>, c: Vertex)
      requires Distinct(processed) && c !in processed
      ensures Distinct(processed + [c])
      ensures Values(processed + [c]) == Values(processed) + [c.Value()]
    {
    }

    /**
     * `calculateEdges`: new edges between the given vertex objects themselves,
     * vertex i to vertex i + 1 and the last back to the first; none for fewer
     * than two vertices.
     */
    static method CalculateEdges(vertices: seq<Vertex>) returns (edges: seq<Edge>)
      ensures |edges| == |EdgeSegs(Values(vertices))|
      ensures forall i :: 0 <= i < |edges| ==>
        fresh(edges[i]) && edges[i].start == vertices[i] && edges[i].end == vertices[Next(i, |vertices|)]
      ensures EdgeValues(edges) == EdgeSegs(Values(vertices))
    {
      edges := [];
      if |vertices| < 2 {
        return;
      }
      var i := 0;
      while i + 1 < |vertices|
        invariant 0 <= i <= |vertices| - 1
        invariant |edges| == i
        invariant forall k :: 0 <= k < i ==> fresh(edges[k]) && edges[k].start == vertices[k] && edges[k].end == vertices[k + 1]
      {
        var e := new Edge(vertices[i], vertices[i + 1]);
        edges := edges + [e];
        i := i + 1;
      }
      var last := new Edge(vertices[|vertices| - 1], vertices[0]);
      edges := edges + [last];
    }

    /**
     * `calculateAngularSum`: the turns from each edge's predecessor (the last
     * edge for the first) onto it, added up; 0 without edges. The heading
     * `edge.direction().angle()` is read off the edge's position rather than
     * through a new direction Vector.
     */
    static method CalculateAngularSum(edges: seq<Edge>) returns (sum: real)
      ensures sum == AngularSum(EdgeValues(edges))
    {
      sum := 0.0;
      if |edges| < 1 {
        return;
      }
      ghost var segs := EdgeValues(edges);
      var priorHeading := Heading(edges[|edges| - 1].Value());
      for i := 0 to |edges|
        invariant sum == TurnSum(segs, i)
        invariant i < |edges| ==> priorHeading == PriorHeading(segs, i)
      {
        var edge := edges[i];
        assert edge.start.AngleTo(edge.end, priorHeading) == Turn(segs, i);
        sum := sum + edge.start.AngleTo(edge.end, priorHeading);
        priorHeading := Heading(edge.Value());
      }
    }

    /**
     * `calculateVertexCentroid`: a new vertex at the origin for no vertices,
     * the only vertex itself for one, and otherwise a new vertex at the
     * shoelace centroid (at the unmodelled zero-area position when the signed
     * area is 0).
     */
    static method CalculateVertexCentroid(vertices: seq<Vertex>) returns (c: Vertex)
      ensures c.Value() == Centroid(Values(vertices))
      ensures |vertices| == 1 ==> c == vertices[0]
      ensures |vertices| != 1 ==> fresh(c)
    {
      var n := |vertices|;
      if n == 0 {
        c := new Vertex(0.0, 0.0);
        return;
      } else if n == 1 {
        c := vertices[0];
        return;
      }
      var area := CrossTotal(vertices);
      area := area * 0.5;
      var cx, cy := Moments(vertices);
      if area == 0.0 {
        c := new Vertex(ZeroAreaCentroid.x, ZeroAreaCentroid.y);
      } else {
        c := new Vertex(cx / (6.0 * area), cy / (6.0 * area));
      }
    }

    /** The first loop of `calculateVertexCentroid`: the cross products of consecutive vertices, added up. */
    static method CrossTotal(vertices: seq<Vertex>) returns (total: real)
      requires |vertices| > 0
      ensures total == CrossSum(Values(vertices), |vertices|)
    {
      var n := |vertices|;
      ghost var ps := Values(vertices);
      total := 0.0;
      var i := 0;
      while i < n
        invariant 0 <= i <= n
        invariant total == CrossSum(ps, i)
      {
        WrapCases(i, n);
        NextIsModulo(i, n);
        var v0 := vertices[i % n];
        var v1 := vertices[(i + 1) % n];
        assert v0.Value() == ps[i] && v1.Value() == ps[Next(i, n)];
        total := total + Cross(v0.Value(), v1.Value());
        i := i + 1;
      }
    }

    /** The second loop of `calculateVertexCentroid`: the cross products weighted by summed coordinates. */
    static method Moments(vertices: seq<Vertex>) returns (cx: real, cy: real)
      requires |vertices| > 0
      ensures cx == MomentX(Values(vertices), |vertices|)
      ensures cy == MomentY(Values(vertices), |vertices|)
    {
      var n := |vertices|;
      ghost var ps := Values(vertices);
      cx, cy := 0.0, 0.0;
      var i := 0;
      while i < n
        invariant 0 <= i <= n
        invariant cx == MomentX(ps, i) && cy == MomentY(ps, i)
      {
        WrapCases(i, n);
        NextIsModulo(i, n);
        var v0 := vertices[i % n];
        var v1 := vertices[(i + 1) % n];
        MomentStep(ps, i, v0.Value(), v1.Value());
        var cross := Cross(v0.Value(), v1.Value());
        cx := cx + (v0.x + v1.x) * cross;
        cy := cy + (v0.y + v1.y) * cross;
        i := i + 1;
      }
    }

    /** One step of the second loop: the terms for vertices i and i + 1 (mod n). */
    static lemma MomentStep(ps: seq<Pt>, i: nat, a: Pt, b: Pt)
      requires i < |ps| && a == ps[i] && b == ps[Next(i, |ps|)]
      ensures MomentX(ps, i + 1) == MomentX(ps, i) + (a.x + b.x) * Cross(a, b)
      ensures MomentY(ps, i + 1) == MomentY(ps, i) + (a.y + b.y) * Cross(a, b)
    {
      assert MomentXTerm(ps, i) == (a.x + b.x) * Cross(a, b);
      assert MomentYTerm(ps, i) == (a.y + b.y) * Cross(a, b);
    }

    /**
     * The constructor: the normalised copies of the vertices, the edges
     * between them, the orientation of those edges, and the centroid as the
     * anchor.
     */
    constructor (vertices: seq<Vertex>)
      ensures Valid()
      ensures Outline() == Processed(Values(vertices))
      ensures forall v :: v in verts ==> fresh(v)
      ensures anchor.Value() == Centroid(Outline())
      ensures |verts| == 1 ==> anchor == verts[0]
      ensures |verts| != 1 ==> fresh(anchor)
    {
      var processed, es, cw, centroid := Build(vertices);
      verts, edges, clockwise, anchor := processed, es, cw, centroid;
    }

    /** The four steps of the constructor, in its order. */
    static method Build(vertices: seq<Vertex>) returns (processed: seq<Vertex>, es: seq<Edge>, cw: bool, centroid: Vertex)
      ensures Wired(processed, es, cw)
      ensures Values(processed) == Processed(Values(vertices))
      ensures forall v :: v in processed ==> fresh(v)
      ensures centroid.Value() == Centroid(Values(processed))
      ensures |processed| == 1 ==> centroid == processed[0]
      ensures |processed| != 1 ==> fresh(centroid)
    {
      processed := ProcessVertices(vertices);
      es, cw := Wire(processed);
      centroid := CalculateVertexCentroid(processed);
    }

    /** The edges between distinct vertices and their orientation, as the constructor computes them. */
    static method Wire(processed: seq<Vertex>) returns (es: seq<Edge>, cw: bool)
      requires Distinct(processed)
      ensures Wired(processed, es, cw)
    {
      es := CalculateEdges(processed);
      ghost var outline := Values(processed);
      ghost var segs := EdgeValues(es);
      assert segs == EdgeSegs(outline);
      var sum := CalculateAngularSum(es);
      assert EdgeValues(es) == segs;
      cw := sum < 0.0;
    }

    /** The getter `vertices`: new vertex objects at the vertices' positions. */
    method Vertices() returns (vs: seq<Vertex>)
      ensures Values(vs) == Outline()
      ensures Distinct(vs)
      ensures forall v :: v in vs ==> fresh(v)
    {
      vs := [];
      var i := 0;
      while i < |verts|
        invariant 0 <= i <= |verts|
        invariant Values(vs) == Outline()[..i]
        invariant Distinct(vs)
        invariant forall v :: v in vs ==> fresh(v)
      {
        var v := verts[i].Copy();
        vs := vs + [v];
        i := i + 1;
      }
    }

    /** The getter `edges`: new edges with new endpoints at the edges' positions. */
    method Edges() returns (es: seq<Edge>)
      ensures EdgeValues(es) == EdgeValues(edges)
      ensures forall e :: e in es ==> fresh(e) && fresh(e.start) && fresh(e.end)
    {
      es := [];
      var i := 0;
      while i < |edges|
        invariant 0 <= i <= |edges|
        invariant EdgeValues(es) == EdgeValues(edges)[..i]
        invariant forall e :: e in es ==> fresh(e) && fresh(e.start) && fresh(e.end)
      {
        var e := edges[i].Copy();
        es := es + [e];
        i := i + 1;
      }
    }

    /**
     * `copy`: a polygon built from the vertices' positions (so normalised
     * again) that shares this polygon's anchor object.
     */
    method Copy() returns (p: Polygon)
      ensures fresh(p) && p.Valid()
      ensures p.Outline() == Processed(Outline())
      ensures forall v :: v in p.verts ==> fresh(v)
      ensures p.anchor == anchor
    {
      var vs := Vertices();
      p := Poly(vs);
      p.anchor := anchor;
    }

    /** The reference point of `scale`, `rotate` and `reflect`: the one given, or else the anchor. */
    function Reference(reference: Vertex?): Vertex
      reads this`anchor
    {
      if reference != null then reference else anchor
    }

    /**
     * `transform`: every vertex object moved in place, in order, then the
     * edges rebuilt between the same objects and the orientation recomputed.
     * The reference point stays where it is even when it is one of the
     * vertices, since a scaling, rotation or reflection fixes it, so every
     * vertex moves about the reference point's original position.
     */
    method Transform(m: Motion, axis: Vector?, control: Vertex?) returns (r: Polygon)
      requires Distinct(verts)
      requires m.Reflection? ==> axis != null && axis.Value() == m.axis
      modifies this`edges, this`clockwise, verts
      ensures r == this && Valid()
      ensures Outline() == MovedAll(old(Outline()), m, old(ControlPoint(control)))
    {
      ghost var vs := verts;
      MoveAll(verts, m, axis, control);
      assert verts == vs;
      ghost var moved := Values(vs);
      Rewire();
      assert Values(verts) == moved;
      r := this;
    }

    /** The last two steps of `transform`: the edges and the orientation computed again. */
    method Rewire()
      requires Distinct(verts)
      modifies this`edges, this`clockwise
      ensures Valid()
    {
      var es, cw := Wire(verts);
      edges, clockwise := es, cw;
    }

    /** The loop of `transform`: each vertex moved in turn by the callback. */
    static method MoveAll(vs: seq<Vertex>, m: Motion, axis: Vector?, control: Vertex?)
      requires Distinct(vs)
      requires m.Reflection? ==> axis != null && axis.Value() == m.axis
      modifies vs
      ensures Values(vs) == MovedAll(old(Values(vs)), m, old(ControlPoint(control)))
    {
      ghost var before := Values(vs);
      ghost var c := ControlPoint(control);
      ghost var after := MovedAll(before, m, c);
      for i := 0 to |vs|
        invariant forall k :: 0 <= k < i ==> vs[k].Value() == after[k]
        invariant forall k :: i <= k < |vs| ==> vs[k].Value() == before[k]
        invariant !m.Translation? ==> ControlPoint(control) == c
      {
        MoveVertex(vs[i], m, axis, control, c);
        if !m.Translation? && control == vs[i] {
          ControlStays(m, c);
        }
      }
      ValuesAre(vs, after);
    }

    /** Instance `translate`: every vertex moved by (dx, dy). */
    method Translate(dx: real := 0.0, dy: real := 0.0) returns (r: Polygon)
      requires Valid()
      modifies this`edges, this`clockwise, verts
      ensures r == this && Valid()
      ensures Outline() == MovedAll(old(Outline()), Translation(dx, dy), Origin)
    {
      r := Transform(Translation(dx, dy), null, null);
    }

    /** Instance `scale`: every vertex's offset from the reference point multiplied by `factor`. */
    method Scale(factor: real, reference: Vertex? := null) returns (r: Polygon)
      requires Valid()
      modifies this`edges, this`clockwise, verts
      ensures r == this && Valid()
      ensures Outline() == MovedAll(old(Outline()), Scaling(factor), old(Reference(reference).Value()))
    {
      var control := if reference != null then reference else anchor;
      r := Transform(Scaling(factor), null, control);
    }

    /** Instance `rotate`: every vertex turned by `angle` about the reference point. */
    method Rotate(angle: real, reference: Vertex? := null) returns (r: Polygon)
      requires Valid()
      modifies this`edges, this`clockwise, verts
      ensures r == this && Valid()
      ensures Outline() == MovedAll(old(Outline()), Rotation(angle), old(Reference(reference).Value()))
    {
      var control := if reference != null then reference else anchor;
      r := Transform(Rotation(angle), null, control);
    }

    /** Instance `reflect`: every vertex mirrored in the axis drawn through the reference point. */
    method Reflect(axis: Vector, reference: Vertex? := null) returns (r: Polygon)
      requires Valid()
      modifies this`edges, this`clockwise, verts
      ensures r == this && Valid()
      ensures Outline() == MovedAll(old(Outline()), Reflection(old(axis.Value())), old(Reference(reference).Value()))
    {
      var control := if reference != null then reference else anchor;
      r := Transform(Reflection(axis.Value()), axis, control);
    }

    /**
     * The static forms: `polygon.copy()` moved by the instance form, about
     * the given reference point or else the anchor the copy shares. The
     * polygon itself is left as it is.
     */
    static method CopyMoved(polygon: Polygon, m: Motion, axis: Vector?, control: Vertex?) returns (r: Polygon)
      requires m.Reflection? ==> axis != null && axis.Value() == m.axis
      ensures fresh(r) && r.Valid()
      ensures r.Outline() == MovedAll(Processed(old(polygon.Outline())), m, old(ControlPoint(control)))
      ensures r.anchor == polygon.anchor
    {
      r := CopyToMove(polygon);
      r := r.Transform(m, axis, control);
    }

    /** `polygon.copy()`, with what `transform` needs of it: new, distinct vertex objects. */
    static method CopyToMove(polygon: Polygon) returns (r: Polygon)
      ensures fresh(r) && Distinct(r.verts)
      ensures forall i :: 0 <= i < |r.verts| ==> fresh(r.verts[i])
      ensures r.Outline() == Processed(polygon.Outline())
      ensures r.anchor == polygon.anchor
    {
      r := polygon.Copy();
      FreshVertices(r);
      assert forall i :: 0 <= i < |r.verts| ==> r.verts[i] in r.verts && fresh(r.verts[i]);
    }

    /** Static `translate`. */
    static method Translated(polygon: Polygon, dx: real := 0.0, dy: real := 0.0) returns (r: Polygon)
      ensures fresh(r) && r.Valid()
      ensures r.Outline() == MovedAll(Processed(old(polygon.Outline())), Translation(dx, dy), Origin)
      ensures r.anchor == polygon.anchor
    {
      r := CopyMoved(polygon, Translation(dx, dy), null, null);
    }

    /** Static `scale`. */
    static method Scaled(polygon: Polygon, factor: real, reference: Vertex? := null) returns (r: Polygon)
      ensures fresh(r) && r.Valid()
      ensures r.Outline() == MovedAll(Processed(old(polygon.Outline())), Scaling(factor), old(polygon.Reference(reference).Value()))
      ensures r.anchor == polygon.anchor
    {
      var control := if reference != null then reference else polygon.anchor;
      r := CopyMoved(polygon, Scaling(factor), null, control);
    }

    /** Static `rotate`. */
    static method RotatedBy(polygon: Polygon, angle: real, reference: Vertex? := null) returns (r: Polygon)
      ensures fresh(r) && r.Valid()
      ensures r.Outline() == MovedAll(Processed(old(polygon.Outline())), Rotation(angle), old(polygon.Reference(reference).Value()))
      ensures r.anchor == polygon.anchor
    {
      var control := if reference != null then reference else polygon.anchor;
      r := CopyMoved(polygon, Rotation(angle), null, control);
    }

    /** Static `reflect`. */
    static method ReflectedIn(polygon: Polygon, axis: Vector, reference: Vertex? := null) returns (r: Polygon)
      ensures fresh(r) && r.Valid()
      ensures r.Outline() == MovedAll(Processed(old(polygon.Outline())), Reflection(old(axis.Value())), old(polygon.Reference(reference).Value()))
      ensures r.anchor == polygon.anchor
    {
      var control := if reference != null then reference else polygon.anchor;
      r := CopyMoved(polygon, Reflection(axis.Value()), axis, control);
    }

    /**
     * `intersectEdge`: new vertices where the edges (taken through the
     * copying getter) meet the query, sorted by distance from the query's
     * start, each dropped when it is equivalent to the one sorted just
     * before it.
     */
    method IntersectEdge(query: Edge) returns (vs: seq<Vertex>)
      ensures Values(vs) == Query(EdgeValues(edges), query.Value())
      ensures forall v :: v in vs ==> fresh(v)
    {
      var es := Edges();
      ghost var segs := EdgeValues(es);
      assert segs == EdgeValues(edges);
      var found := Crossings(es, query);
      ghost var q := query.Value();
      ghost var hits := Positions(found, Located);
      assert segs == EdgeValues(es);
      assert hits == PolygonQuery.Hits(segs, q);
      assert segs == EdgeValues(edges);
      var sorted := SortByDistance(found, Located, query.start.Value());
      var kept := DropRepeats(sorted, Located);
      vs := seq(|kept|, k requires 0 <= k < |kept| => kept[k].0);
      KeptAreLocated(found, sorted, kept, query.start.Value());
      forall k | 0 <= k < |kept|
        ensures kept[k].1 == vs[k].Value() && fresh(vs[k])
      {
        assert kept[k] in found;
      }
      SortPositions(found, Located, q.start);
      DropRepeatsPositions(sorted, Located);
      assert Positions(kept, Located) == Query(EdgeValues(edges), q);
      ValuesAre(vs, Positions(kept, Located));
    }

    /** The loop of `intersectEdge`: each edge's intersection vertex, if any, paired with its position, in edge order. */
    static method Crossings(es: seq<Edge>, query: Edge) returns (found: seq<(Vertex, Pt)>)
      ensures Positions(found, Located) == PolygonQuery.Hits(EdgeValues(es), query.Value())
      ensures forall k :: 0 <= k < |found| ==> found[k].1 == found[k].0.Value() && fresh(found[k].0)
    {
      ghost var segs := EdgeValues(es);
      ghost var q := query.Value();
      found := [];
      for i := 0 to |es|
        invariant Positions(found, Located) == HitsUpTo(segs, q, i)
        invariant forall k :: 0 <= k < |found| ==> found[k].1 == found[k].0.Value() && fresh(found[k].0)
        invariant segs == EdgeValues(es) && q == query.Value()
      {
        var hit := es[i].IntersectEdge(query);
        assert segs[i] == es[i].Value() && q == query.Value();
        if hit != null {
          found := found + [(hit, hit.Value())];
        }
      }
    }

    /**
     * `hatchFill`: candidate lines through the anchor shifted across the
     * grain, one per offset from -steps to steps, then the chords between
     * successive pairs of each candidate's intersections with the edges.
     * `jitter(randomizer())` is the parameter `draw`, applied to the offset.
     * A zero spacing is excluded: the source then divides by zero and, with
     * a positive reach, counts up from minus infinity without end
     * (`ZeroSpacingNeverEnds`); `NonZeroSpacingRounds` shows that every other
     * spacing gives the finite bound `steps` used here.
     */
    method HatchFill(angle: real, spacing: real, draw: int -> real) returns (lines: seq<Edge>)
      requires spacing != 0.0
      ensures EdgeValues(lines) == HatchLines(EdgeValues(edges), anchor.Value(), Unit(angle), Rotated(Unit(angle), PI / 2.0),
        spacing, MaxDistance(anchor.Value(), Outline()), (MaxDistance(anchor.Value(), Outline()) / spacing).Floor, draw)
    {
      ghost var outline := Outline();
      var maxAnchorDistance := GetMaxAnchorDistance();
      var steps := (maxAnchorDistance / spacing).Floor;
      var grain := Vector.Unit(angle);
      var ortho := grain.Copy();
      ortho := ortho.Rotate(PI / 2.0);
      ghost var segs := EdgeValues(edges);
      ghost var a, g, o := anchor.Value(), grain.Value(), ortho.Value();
      var candidates := Candidates(anchor, grain, ortho, spacing, maxAnchorDistance, steps, draw);
      assert segs == EdgeValues(edges) && a == anchor.Value();
      ghost var qs := CandidateLines(a, g, o, spacing, maxAnchorDistance, steps, draw);
      lines := ChordsAlong(candidates, segs, qs);
      assert segs == EdgeValues(edges) && a == anchor.Value() && outline == Outline();
      assert EdgeValues(lines) == HatchLines(segs, a, g, o, spacing, maxAnchorDistance, steps, draw);
    }

    /** The outer loop of `hatchFill`: the chords of each candidate in turn. */
    method ChordsAlong(candidates: seq<Edge>, ghost segs: seq<Seg>, ghost qs: seq<Seg>) returns (lines: seq<Edge>)
      requires segs == EdgeValues(edges)
      requires |qs| == |candidates|
      requires forall c :: 0 <= c < |qs| ==> candidates[c].Value() == qs[c]
      ensures EdgeValues(lines) == Flatten(ChordsPer(segs, qs))
    {
      ghost var css := ChordsPer(segs, qs);
      lines := [];
      for c := 0 to |candidates|
        invariant EdgeValues(lines) == Flatten(css[..c])
        invariant segs == EdgeValues(edges)
        invariant forall k :: 0 <= k < |qs| ==> candidates[k].Value() == qs[k]
      {
        lines := AddChords(lines, candidates[c], segs, qs[c]);
        assert css[..c + 1][..c] == css[..c];
      }
      assert css[..|candidates|] == css;
    }

    /** One round of the outer loop of `hatchFill`: the chords of the candidate appended to the lines so far. */
    method AddChords(lines: seq<Edge>, candidate: Edge, ghost segs: seq<Seg>, ghost q: Seg) returns (more: seq<Edge>)
      requires segs == EdgeValues(edges) && candidate.Value() == q
      ensures EdgeValues(more) == old(EdgeValues(lines)) + Chords(Query(segs, q))
    {
      ghost var before := EdgeValues(lines);
      var chords := ChordsOf(candidate);
      assert EdgeValues(lines) == before;
      assert segs == EdgeValues(edges) && candidate.Value() == q;
      EdgeValuesAppend(lines, chords);
      more := lines + chords;
    }

    /** The body of the outer loop of `hatchFill`: the chords of one candidate. */
    method ChordsOf(candidate: Edge) returns (chords: seq<Edge>)
      ensures EdgeValues(chords) == Chords(Query(EdgeValues(edges), candidate.Value()))
    {
      ghost var segs := EdgeValues(edges);
      ghost var q := candidate.Value();
      var intersections := IntersectEdge(candidate);
      assert segs == EdgeValues(edges);
      assert q == candidate.Value();
      chords := ChordEdges(intersections);
      assert segs == EdgeValues(edges);
      assert q == candidate.Value();
    }

    /** The candidate lines of `hatchFill`, from offset -steps up to steps. */
    static method Candidates(anchor: Vertex, grain: Vector, ortho: Vector, spacing: real, reach: real, steps: int, draw: int -> real)
      returns (cs: seq<Edge>)
      ensures |cs| == CandidateCount(steps)
      ensures forall c :: 0 <= c < |cs| ==>
        cs[c].Value() == CandidateLines(anchor.Value(), grain.Value(), ortho.Value(), spacing, reach, steps, draw)[c]
    {
      cs := [];
      var offset := -steps;
      while offset <= steps
        invariant steps < 0 ==> cs == [] && offset == -steps
        invariant steps >= 0 ==> -steps <= offset <= steps + 1 && |cs| == offset + steps
        invariant forall c :: 0 <= c < |cs| ==>
          cs[c].Value() == Candidate(anchor.Value(), grain.Value(), ortho.Value(), spacing, reach, c - steps, draw(c - steps))
        decreases steps + 1 - offset
      {
        var e := CandidateEdge(anchor, grain, ortho, spacing, reach, offset, draw(offset));
        cs := cs + [e];
        offset := offset + 1;
      }
    }

    /** One candidate line of `hatchFill`. */
    static method CandidateEdge(anchor: Vertex, grain: Vector, ortho: Vector, spacing: real, reach: real, offset: int, jitter: real)
      returns (e: Edge)
      ensures fresh(e) && e.Value() == Candidate(anchor.Value(), grain.Value(), ortho.Value(), spacing, reach, offset, jitter)
    {
      var shift := Vector.ScaledBy(ortho, spacing * (offset as real + jitter));
      var control := anchor.ToVector();
      control := control.Add(shift);
      var back := Vector.ScaledBy(grain, -reach * 2.0);
      var start := Vector.Sum(control, back);
      var fore := Vector.ScaledBy(grain, reach * 2.0);
      var end := Vector.Sum(control, fore);
      var s := Vertex.FromVector(start);
      var t := Vertex.FromVector(end);
      e := new Edge(s, t);
    }

    /** The inner loop of `hatchFill`: edges between intersections 0 and 1, 2 and 3, and so on. */
    static method ChordEdges(intersections: seq<Vertex>) returns (cs: seq<Edge>)
      ensures EdgeValues(cs) == Chords(Values(intersections))
    {
      ghost var chords := Chords(Values(intersections));
      cs := [];
      var i := 0;
      while i < |intersections| - 1
        invariant 0 <= i <= |intersections| && i % 2 == 0
        invariant EdgeValues(cs) == chords[..i / 2]
      {
        var e := new Edge(intersections[i], intersections[i + 1]);
        cs := cs + [e];
        i := i + 2;
      }
      assert chords[..i / 2] == chords;
    }

    /**
     * `overlapSplit`: the worklist runs on vertex positions (see `SplitAll`);
     * slot 0 stays this polygon's copy, sharing its anchor, when the copy
     * has no crossing, and every other slot is a polygon built from its
     * vertices.
     */
    method OverlapSplit() returns (parts: seq<Polygon>)
      ensures Outlines(parts) == Parts(Outline())
      ensures AllValid(parts) && forall q :: 0 <= q < |parts| ==> fresh(parts[q])
      ensures Resolved(Processed(Outline())) ==> parts[0].anchor == anchor
    {
      ghost var outline := Outline();
      var raws, firstKept := SplitAll(Outline());
      parts := PartsOf(raws, firstKept);
      assert outline == Outline();
    }

    /** The polygons of the slots of `overlapSplit`'s worklist, in slot order. */
    method PartsOf(raws: seq<seq<Pt>>, firstKept: bool) returns (parts: seq<Polygon>)
      requires firstKept ==> |raws| >= 1 && raws[0] == Outline()
      ensures Outlines(parts) == Normalised(raws)
      ensures AllValid(parts) && forall q :: 0 <= q < |parts| ==> fresh(parts[q])
      ensures firstKept ==> parts[0].anchor == anchor
    {
      ghost var outs := Normalised(raws);
      ghost var made: set<Polygon> := {};
      parts := [];
      for q := 0 to |raws|
        invariant Outlines(parts) == outs[..q]
        invariant AllValid(parts) && |parts| == q
        invariant fresh(made) && forall k :: 0 <= k < q ==> parts[k] in made
        invariant firstKept && q > 0 ==> parts[0].anchor == anchor
      {
        parts := AddPart(parts, raws[q], q == 0 && firstKept, outs, q);
        made := made + {parts[q]};
      }
      assert outs[..|raws|] == outs;
    }

    /** One round of `PartsOf`: the slot's polygon appended; the polygons before it stay as they were. */
    method AddPart(parts: seq<Polygon>, raw: seq<Pt>, copy: bool, ghost outs: seq<seq<Pt>>, ghost q: nat) returns (more: seq<Polygon>)
      requires copy ==> raw == Outline()
      requires q < |outs| && outs[q] == Processed(raw)
      requires AllValid(parts) && Outlines(parts) == outs[..q]
      ensures |more| == |parts| + 1 && more == parts + [more[|parts|]] && fresh(more[|parts|])
      ensures AllValid(more) && Outlines(more) == outs[..q + 1]
      ensures copy ==> more[|parts|].anchor == anchor
    {
      ghost var before := Outlines(parts);
      var part := PartAt(raw, copy, outs[q]);
      assert AllValid(parts) && Outlines(parts) == before;
      more := parts + [part];
      assert outs[..q + 1] == outs[..q] + [outs[q]];
    }

    /** One slot's polygon: this polygon's copy, or a polygon built from the slot's vertices. */
    method PartAt(raw: seq<Pt>, copy: bool, ghost out: seq<Pt>) returns (part: Polygon)
      requires copy ==> raw == Outline()
      requires out == Processed(raw)
      ensures fresh(part) && part.Valid() && part.Outline() == out
      ensures copy ==> part.anchor == anchor
    {
      if copy {
        part := Copy();
      } else {
        var vs := VerticesAt(raw);
        part := Poly(vs);
      }
    }

    /**
     * `offset`: a zero quantity gives a copy; otherwise both ends of every
     * edge are pushed along the edge's normal by `quantity`, the polygon
     * built from those vertices is split at its crossings, and the parts
     * whose orientation is this polygon's are kept.
     */
    method Offset(quantity: real) returns (parts: seq<Polygon>)
      requires Valid()
      ensures quantity == 0.0 ==> |parts| == 1 && parts[0].Outline() == Processed(Outline()) && parts[0].anchor == anchor
      ensures quantity != 0.0 ==> Outlines(parts) == OffsetParts(Outline(), clockwise, quantity)
      ensures AllValid(parts) && forall q :: 0 <= q < |parts| ==> fresh(parts[q])
    {
      if quantity == 0.0 {
        var c := Copy();
        parts := [c];
      } else {
        parts := OffsetNonZero(quantity);
      }
    }

    /** `offset` for a non-zero quantity: the split parts of the shifted polygon with this polygon's orientation. */
    method OffsetNonZero(quantity: real) returns (parts: seq<Polygon>)
      requires Valid()
      ensures Outlines(parts) == OffsetParts(old(Outline()), old(clockwise), quantity)
      ensures AllValid(parts) && forall q :: 0 <= q < |parts| ==> fresh(parts[q])
    {
      var polygon := OffsetPolygon(quantity);
      parts := SplitKept(polygon, clockwise);
    }

    /** The second half of `offset`: the parts of the split with the given orientation. */
    static method SplitKept(polygon: Polygon, clockwise: bool) returns (parts: seq<Polygon>)
      ensures Outlines(parts) == KeepOriented(Parts(old(polygon.Outline())), clockwise)
      ensures AllValid(parts) && forall q :: 0 <= q < |parts| ==> fresh(parts[q])
    {
      ghost var processed := polygon.Outline();
      var split := polygon.OverlapSplit();
      assert Outlines(split) == Parts(processed);
      parts := KeepClockwise(split, clockwise);
      KeepClockwiseOutlines(split, clockwise);
    }

    /** The first half of `offset`: the polygon built from the shifted ends of every edge. */
    method OffsetPolygon(quantity: real) returns (polygon: Polygon)
      requires Valid()
      ensures fresh(polygon) && polygon.Valid()
      ensures polygon.Outline() == Processed(OffsetRaw(EdgeSegs(old(Outline())), old(clockwise), quantity))
    {
      EdgesOfValid(this);
      var raw := OffsetVertices(edges, clockwise, quantity);
      ghost var shifted := Values(raw);
      polygon := Poly(raw);
      assert Values(raw) == shifted;
    }

    /** The loop of `offset`: both ends of each edge, moved along the edge's normal by `quantity`. */
    static method OffsetVertices(edges: seq<Edge>, clockwise: bool, quantity: real) returns (raw: seq<Vertex>)
      ensures Values(raw) == OffsetRaw(old(EdgeValues(edges)), clockwise, quantity)
    {
      ghost var segs := EdgeValues(edges);
      raw := [];
      for i := 0 to |edges|
        invariant Values(raw) == OffsetRaw(segs[..i], clockwise, quantity)
        invariant segs == EdgeValues(edges)
      {
        assert segs[i] == edges[i].Value();
        OffsetRawStep(segs, i, clockwise, quantity);
        raw := AddEnds(raw, edges[i], clockwise, quantity);
      }
      assert segs[..|edges|] == segs;
    }

    /** One round of the loop of `offset`: the shifted ends of one edge appended to the vertices so far. */
    static method AddEnds(raw: seq<Vertex>, edge: Edge, clockwise: bool, quantity: real) returns (more: seq<Vertex>)
      ensures var shift := Times(Normal(old(edge.Value()), clockwise), quantity);
        Values(more) == old(Values(raw)) + [Plus(old(edge.Value()).start, shift), Plus(old(edge.Value()).end, shift)]
    {
      ghost var before := Values(raw);
      ghost var seg := edge.Value();
      var start, end := ShiftedEnds(edge, clockwise, quantity);
      assert Values(raw) == before && seg == edge.Value();
      more := raw + [start, end];
    }

    /** One round of the loop of `offset`: the edge's ends, translated by its scaled normal. */
    static method ShiftedEnds(edge: Edge, clockwise: bool, quantity: real) returns (start: Vertex, end: Vertex)
      ensures fresh(start) && fresh(end)
      ensures var shift := Times(Normal(edge.Value(), clockwise), quantity);
        start.Value() == Plus(edge.Value().start, shift) && end.Value() == Plus(edge.Value().end, shift)
    {
      var offset := edge.Normal(clockwise);
      offset := offset.Scale(quantity);
      start := Vertex.Translated(edge.start, offset.x, offset.y);
      end := Vertex.Translated(edge.end, offset.x, offset.y);
    }

    /** `getMaxAnchorDistance`: the largest distance from the anchor to a vertex, starting from 0. */
    method GetMaxAnchorDistance() returns (maxDistance: real)
      ensures maxDistance == MaxDistance(anchor.Value(), Outline())
    {
      ghost var ps := Outline();
      maxDistance := 0.0;
      for i := 0 to |verts|
        invariant maxDistance == MaxDistance(anchor.Value(), ps[..i])
      {
        var distance := anchor.DistanceTo(verts[i]);
        DistanceProperties(anchor.Value(), ps[i]);
        assert ps[..i + 1][..i] == ps[..i];
        if distance > maxDistance {
          maxDistance := distance;
        }
      }
      assert ps[..|verts|] == ps;
    }
  }

  /** The positions of two lists of edges, one after the other. */
  lemma EdgeValuesAppend(a: seq<Edge>, b: seq<Edge>)
    ensures EdgeValues(a + b) == EdgeValues(a) + EdgeValues(b)
  {
  }

  /** What survives sorting and thinning was found. */
  lemma KeptAreLocated(found: seq<(Vertex, Pt)>, sorted: seq<(Vertex, Pt)>, kept: seq<(Vertex, Pt)>, from: Pt)
    requires sorted == SortByDistance(found, Located, from) && kept == DropRepeats(sorted, Located)
    ensures forall h :: h in kept ==> h in found
  {
    SortByDistanceCorrect(found, Located, from);
    DropRepeatsMembers(sorted, Located);
    forall h | h in kept
      ensures h in found
    {
      assert h in multiset(sorted);
    }
  }

  /** A polygon's vertex objects are distinct from the polygon itself. */
  lemma FreshVertices(p: Polygon)
    ensures forall i :: 0 <= i < |p.verts| ==> p.verts[i] as object != p
  {
  }

  /** Vertices at the given positions, one for one, have those positions as their values. */
  lemma ValuesAre(vs: seq<Vertex>, ps: seq<Pt>)
    requires |vs| == |ps| && forall k :: 0 <= k < |vs| ==> vs[k].Value() == ps[k]
    ensures Values(vs) == ps
  {
  }

  /**
   * The callback `transform` applies to one vertex: the vertex's own
   * `translate`, `scale`, `rotate` or `reflect`, in place.
   */
  method MoveVertex(v: Vertex, m: Motion, axis: Vector?, control: Vertex?, ghost c: Pt)
    requires m.Reflection? ==> axis != null && axis.Value() == m.axis
    requires !m.Translation? ==> ControlPoint(control) == c
    modifies v
    ensures v.Value() == Moved(old(v.Value()), m, c)
  {
    match m
    case Translation(dx, dy) =>
      var _ := v.Translate(dx, dy);
    case Scaling(factor) =>
      var _ := v.Scale(factor, control);
    case Rotation(angle) =>
      var _ := v.Rotate(angle, control);
    case Reflection(_) =>
      var _ := v.Reflect(axis, control);
  }

  /** The edges of a valid polygon are at the positions `calculateEdges` gives. */
  lemma EdgesOfValid(p: Polygon)
    requires p.Valid()
    ensures EdgeValues(p.edges) == EdgeSegs(p.Outline())
  {
  }
}
