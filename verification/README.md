# bp2d in Dafny

A model of the core of bp2d, a TypeScript library for two-dimensional
geometry, and proofs about it. Its centre is the `Polygon` of
`src/geometry/polygon.ts`:

- **Normalisation.** The constructor drops every vertex that is equivalent
  to the one after it.
- **Edges.** It builds a closed loop of edges that share the vertex objects.
- **Orientation and anchor.** It derives the orientation from the angular
  sum and takes the shoelace centroid as the anchor.
- **Transforms.** It moves its vertices in place.
- **Queries.** It intersects itself with an edge, splits itself at its
  self-crossings, offsets its edges along their normals and fills itself
  with hatch lines.

Beneath the polygon sit the mutable `Vertex` and `Vector` classes, four
edge-like classes (two `Edge`s, `Line` and `LineSegment`) with the same
segment-intersection test, and the numeric helpers `mod` and `inRange`.
Beside it sit four small utilities: a weighted categorical variable, a
polynomial with evaluation, differentiation and formatting, a memoised
factorial, and the Bézier-to-power-basis conversion.

The model has one Dafny module per source file:

- `Polygons`: src/geometry/polygon.ts
- `Vertices`: src/geometry/vertex.ts
- `Vectors`: src/geometry/vector.ts
- `Vectors2`: src/vector2.ts
- `Edges`: src/geometry/edge.ts
- `VectorEdges`: src/edge.ts
- `Lines`: src/geometry/line.ts
- `LineSegments`: src/geometry/lineSegment.ts
- `Numerics`: src/utility/numerics.ts
- `Categorical`: src/utility/categoricalVariable.ts
- `Polynomials`: src/maths/polynomial.ts
- `Factorials`: src/maths/factorial.ts
- `Beziers`: src/geometry/bezier.ts

The source's classes are Dafny classes. Those whose fields the source
updates in place (`Vertex`, `Vector`, `Vector2`, `Polygon`) have methods
with `modifies` clauses. The factorial's module-level
cache becomes the fields of `FactorialCache`. The loops of the source are
`while` loops with invariants.

Each method is proved against a specification function on values. Those
functions live in these value-level modules:

- `Planar`: points and the vector arithmetic;
- `Segments`: the intersection test;
- `PolygonShape`: normalisation, the edge loop, the orientation, the centroid
  and the motions;
- `PolygonQuery`: the intersection query and the hatch lines;
- `PolygonSplit`: the self-crossing split and the offset.

The lemmas about the polygon are stated over these functions.

Numbers are exact reals, and the 1E-9 equivalence threshold is a real
constant. `JsMath` holds `Math.PI` as a decimal; `sin`, `cos`, `atan2` and
the square root are left unspecified. `Wrappers` holds `Option`.

## Model

| member | source | states |
|---|---|---|
| `Numerics.ModIsFlooredModulo` | src/utility/numerics.ts:7-10 | for a positive divisor `mod(x, m)` lies in [0, m) and x - mod(x, m) is a whole multiple of m (the floored modulo) |
| `Numerics.ModOfInRange` | src/utility/numerics.ts:7-10 | a value already in [0, m) is its own `mod` |
| `Numerics.ModPeriodic` | src/utility/numerics.ts:7-10 | `mod(x + m, m) == mod(x, m)` for every x and positive m |
| `Numerics.ModOfIntegers` | src/utility/numerics.ts:7-10 | on whole numbers with a positive divisor `mod` is the integer remainder, the `mod(i + 1, N)` the polygon code indexes with |
| `Numerics.Truncate` | src/utility/numerics.ts:8 | the integer part JavaScript's `%` keeps: the largest whole number not above a non-negative quotient, the smallest not below a negative one |
| `Numerics.RemainderBounds` | src/utility/numerics.ts:8 | JavaScript's `%` lies strictly between -m and m and takes the dividend's sign |
| `Numerics.InRangeInclusive` | src/utility/numerics.ts:19-21 | both bounds belong to the range, and a range whose lower bound is above its upper bound contains nothing |
| `Numerics.Lerp` | src/geometry/vertex.ts:256-258 | proportion 0 gives the start and proportion 1 the end |
| `Numerics.LerpBetween` | src/geometry/vertex.ts:256-258 | interpolating with a proportion in [0, 1] stays between the two ends |
| `Planar.StandardizeAngleIsModulo` | src/geometry/vector.ts:56-58 | `((angle % 2PI) + 2PI) % 2PI` with JavaScript's `%` equals `mod(angle, 2PI)` and lies in [0, 2PI); `Vector2` uses the same expression (src/vector2.ts:52-54) |
| `Planar.StandardizeAngleCanonical` | src/geometry/vector.ts:56-58 | an angle in [0, 2PI) is unchanged, and adding a whole turn changes nothing |
| `Planar.TurnAngleRange` | src/geometry/vertex.ts:229-232 | the turn of `angleBetween` lies in (-PI, PI] and is the source's fold `-(PI - full % PI)` of the full angle |
| `Planar.EquivalentReflexiveSymmetric` | src/geometry/vertex.ts:217-220 | `isEquivalentTo` is reflexive and symmetric |
| `Planar.EquivalentThresholdExclusive` | src/geometry/vertex.ts:217-220 | points exactly 1E-9 apart are not equivalent; points 0.5E-9 apart are |
| `Planar.EquivalentNotTransitive` | src/geometry/vertex.ts:217-220 | equivalence is not transitive: 0, 0.6E-9 and 1.2E-9 chain but the ends are not equivalent |
| `Planar.MinusPlusRoundTrip` | src/geometry/vector.ts:119-144 | subtracting and then adding the same vector gives back the original, and the other way round |
| `Planar.CrossAntisymmetric` | src/geometry/vector.ts:91-102 | cross(a, b) = -cross(b, a), a vector crossed with itself is 0, and the dot product is symmetric |
| `Planar.NormalizedZero` | src/geometry/vector.ts:181-187 | only the zero vector has magnitude 0, and normalising it leaves it alone |
| `JsMath.HypotGrows` | src/geometry/vector.ts:74-76 | the magnitude grows strictly when one coordinate grows in size and the other does not shrink |
| `Planar.DistanceProperties` | src/geometry/vertex.ts:197-199 | the distance is symmetric, never negative, and 0 exactly between equal points |
| `Planar.ControlPointFixed` | src/geometry/vertex.ts:125-180 | scaling, rotating or reflecting about a control point leaves the control point where it is, and a scale factor of 1 moves nothing |
| `Planar.ScaledAboutOffset` | src/geometry/vertex.ts:125-128 | scaling about c multiplies the offset from c by the factor: c + factor (v - c) |
| `Planar.LerpPtEnds` | src/geometry/vertex.ts:256-258 | proportion 0 gives the start and proportion 1 the end |
| `Planar.MeanOfRepeated` | src/geometry/vertex.ts:239-248 | the mean of n copies of one position is that position |
| `Vertices.Values` | src/geometry/polygon.ts:17-19 | the positions of a list of vertices, one for one |
| `Vertices.Vertex.constructor` | src/geometry/vertex.ts:30-33 | the vertex holds the given coordinates, (0, 0) by default |
| `Vertices.Vertex.Copy` | src/geometry/vertex.ts:39-41 | a new vertex object at the same position |
| `Vertices.Vertex.ToVector` | src/geometry/vertex.ts:56-58 | a new vector with the vertex's coordinates |
| `Vertices.Vertex.FromVector` | src/geometry/vector.ts:48-50 | `toVertex`: a new vertex with the vector's proportions |
| `Vertices.Vertex.Translated` | src/geometry/vertex.ts:80-82 | a new vertex at (x + dx, y + dy) |
| `Vertices.Vertex.Translate` | src/geometry/vertex.ts:66-71 | the vertex itself moves to (x + dx, y + dy), and the same object is returned |
| `Vertices.Vertex.Displaced` | src/geometry/vertex.ts:101-103 | a new vertex at the position plus the vector's proportions |
| `Vertices.Vertex.Displace` | src/geometry/vertex.ts:89-94 | the vertex itself moves by the vector's proportions, and the same object is returned |
| `Vertices.Vertex.Scaled` | src/geometry/vertex.ts:125-128 | a new vertex at c + factor (v - c), the control c defaulting to the origin |
| `Vertices.Vertex.Scale` | src/geometry/vertex.ts:111-116 | the vertex itself moves to c + factor (v - c), where c is the control's position before the call |
| `Vertices.Vertex.RotatedBy` | src/geometry/vertex.ts:150-153 | a new vertex at the offset from the control turned by the angle, added back to the control |
| `Vertices.Vertex.Rotate` | src/geometry/vertex.ts:136-141 | the vertex itself is turned about the control point, and the same object is returned |
| `Vertices.Vertex.ReflectedIn` | src/geometry/vertex.ts:175-180 | a new vertex mirrored in the axis through the control; an axis of zero magnitude gives an unchanged copy |
| `Vertices.Vertex.Reflect` | src/geometry/vertex.ts:161-166 | the vertex itself is mirrored in the axis through the control point, and the same object is returned |
| `Vertices.Vertex.DistanceTo` | src/geometry/vertex.ts:187-189 | the distance to the other vertex, 0 exactly when the positions are equal |
| `Vertices.Vertex.DistanceBetween` | src/geometry/vertex.ts:197-199 | symmetric, never negative, and 0 exactly between equal positions |
| `Vertices.Vertex.AngleTo` | src/geometry/vertex.ts:207-209 | the turn from the heading towards the other vertex lies in (-PI, PI] |
| `Vertices.Vertex.AngleBetween` | src/geometry/vertex.ts:229-232 | the folded turn lies in (-PI, PI] |
| `Vertices.Vertex.IsEquivalentTo` | src/geometry/vertex.ts:217-220 | a vertex is always equivalent to itself |
| `Vertices.Vertex.Mean` | src/geometry/vertex.ts:239-248 | the componentwise arithmetic mean of the vertices as a new vertex; no vertex exactly when the list is empty |
| `Vertices.Vertex.Lerp` | src/geometry/vertex.ts:256-258 | a new vertex with each coordinate interpolated; proportion 0 gives the start and 1 the end |
| `Vertices.Vertex.VectorTo` | src/geometry/vertex.ts:265-267 | the new vector (end - this), the displacement that carries this vertex onto `end` |
| `Vectors.Vector.constructor` | src/geometry/vector.ts:22-25 | the vector holds the given proportions, (0, 0) by default |
| `Vectors.Vector.Copy` | src/geometry/vector.ts:31-33 | a new, independent vector with equal proportions |
| `Vectors.Vector.Unit` | src/geometry/vector.ts:65-68 | a new vector of cosine and sine of the standardised angle |
| `Vectors.Vector.Magnitude` | src/geometry/vector.ts:74-76 | never negative, and 0 exactly for the zero vector |
| `Vectors.Vector.Angle` | src/geometry/vector.ts:82-84 | a standard angle, in [0, 2PI) |
| `Vectors.Vector.Dot` | src/geometry/vector.ts:91-93 | x x' + y y', symmetric in the two vectors |
| `Vectors.Vector.Cross` | src/geometry/vector.ts:100-102 | x y' - y x', which is minus the cross product taken the other way, and 0 for a vector with itself |
| `Vectors.Vector.AngleBetween` | src/geometry/vector.ts:110-112 | the counter-clockwise angle to the other vector, in [0, 2PI) |
| `Vectors.Vector.Add` | src/geometry/vector.ts:119-123 | the vector itself becomes the sum, and the same object is returned |
| `Vectors.Vector.Subtract` | src/geometry/vector.ts:140-144 | the vector itself becomes the difference, and the same object is returned |
| `Vectors.Vector.Scale` | src/geometry/vector.ts:161-165 | the vector itself is multiplied by the factor, and the same object is returned |
| `Vectors.Vector.Normalize` | src/geometry/vector.ts:181-187 | the vector itself is divided by its magnitude; the zero vector is left unchanged |
| `Vectors.Vector.Rotate` | src/geometry/vector.ts:203-210 | the vector itself is turned by the angle |
| `Vectors.Vector.Reflect` | src/geometry/vector.ts:227-235 | the vector itself is mirrored in the axis, whose angle is read before anything is written |
| `Vectors.Vector.Sum` | src/geometry/vector.ts:131-133 | static `add`: a new vector holding a + b; neither argument changes |
| `Vectors.Vector.Difference` | src/geometry/vector.ts:152-154 | static `subtract`: a new vector holding a - b; neither argument changes |
| `Vectors.Vector.ScaledBy` | src/geometry/vector.ts:173-175 | static `scale`: a new vector holding v times the factor |
| `Vectors.Vector.NormalizedCopy` | src/geometry/vector.ts:194-196 | static `normalize`: a new vector holding v normalised |
| `Vectors.Vector.RotatedBy` | src/geometry/vector.ts:218-220 | static `rotate`: a new vector holding v turned by the angle |
| `Vectors.Vector.ReflectedIn` | src/geometry/vector.ts:243-245 | static `reflect`: a new vector holding v mirrored in the axis |
| `Vectors.SubtractAddRoundTrip` | src/geometry/vector.ts:119-165 | on two distinct vectors, subtracting w and adding it back restores v, and so does scaling by 1 |
| `Vectors2.Vector2.constructor` | src/vector2.ts:26-29 | the vector holds the given proportions |
| `Vectors2.Vector2.Copy` | src/vector2.ts:35-37 | a new vector with equal proportions |
| `Vectors2.Vector2.Unit` | src/vector2.ts:61-64 | a new vector at the standardised angle |
| `Vectors2.Vector2.Magnitude` | src/vector2.ts:70-72 | never negative, and 0 exactly for the zero vector |
| `Vectors2.Vector2.Angle` | src/vector2.ts:78-80 | a standard angle, in [0, 2PI) |
| `Vectors2.Vector2.Dot` | src/vector2.ts:87-89 | x x' + y y', symmetric |
| `Vectors2.Vector2.Cross` | src/vector2.ts:96-98 | x y' - y x', antisymmetric, and 0 for a vector with itself |
| `Vectors2.Vector2.AngleBetween` | src/vector2.ts:106-108 | the counter-clockwise angle to the other vector, in [0, 2PI) |
| `Vectors2.Vector2.Add` | src/vector2.ts:115-119 | the vector itself becomes the sum and is returned |
| `Vectors2.Vector2.Subtract` | src/vector2.ts:136-140 | the vector itself becomes the difference and is returned |
| `Vectors2.Vector2.Scale` | src/vector2.ts:157-161 | the vector itself is multiplied by the factor and returned |
| `Vectors2.Vector2.Normalize` | src/vector2.ts:177-183 | the vector itself is normalised; the zero vector is left unchanged |
| `Vectors2.Vector2.Rotate` | src/vector2.ts:199-206 | the vector itself is turned by the angle |
| `Vectors2.Vector2.Reflect` | src/vector2.ts:223-231 | the vector itself is mirrored in the axis |
| `Vectors2.Vector2.Sum` | src/vector2.ts:127-129 | static `add`: a new vector holding a + b; neither argument changes |
| `Vectors2.Vector2.SumForDifference` | src/vector2.ts:148-150 | static `subtract` as written: a new vector holding a + b, not a - b |
| `Vectors2.Vector2.Difference` | src/vector2.ts:142-150 | static `subtract` as documented: a new vector r = a - b, so r + b = a |
| `Vectors2.SumForDifferenceDiffers` | src/vector2.ts:148-150 | the sum equals the difference only when the second vector is zero; (3, 4) and (1, 1) give (4, 5) instead of (2, 3) |
| `Vectors2.Vector2.ScaledBy` | src/vector2.ts:169-171 | static `scale`: a new scaled vector |
| `Vectors2.Vector2.NormalizedCopy` | src/vector2.ts:190-192 | static `normalize`: a new normalised vector |
| `Vectors2.Vector2.RotatedBy` | src/vector2.ts:214-216 | static `rotate`: a new rotated vector |
| `Vectors2.Vector2.ReflectedIn` | src/vector2.ts:239-241 | static `reflect`: a new reflected vector |
| `Segments.DirectionForward` | src/geometry/edge.ts:51-53 | `direction()` is end - start and `direction(true)` is its negation |
| `Segments.ParamsMeet` | src/geometry/edge.ts:77-86 | for non-parallel segments the two parameters t and u name one point: start + t r = other.start + u s |
| `Segments.ParamsUnique` | src/geometry/edge.ts:77-86 | any shared point of the two lines has exactly the parameters t and u the source computes |
| `Segments.IntersectionSound` | src/geometry/edge.ts:77-92 | a found point is start + t (end - start) and other.start + u (other.end - other.start) with r x s != 0 and t, u in [0, 1] |
| `Segments.IntersectionComplete` | src/geometry/edge.ts:77-92 | for non-parallel segments, a point on both lines is found exactly when both of its parameters lie in [0, 1], bounds included |
| `Segments.IntersectionParallel` | src/geometry/edge.ts:87 | r x s = 0 gives no point: parallel, collinear, identical and zero-length segments never intersect |
| `Segments.IntersectionSymmetric` | src/geometry/edge.ts:77-92 | intersecting b with a finds the same point as intersecting a with b |
| `Segments.IntersectionCrossingDiagonals` | src/geometry/lineSegment.ts:77-92 | (-1, -1)-(1, 1) and (-1, 1)-(1, -1) meet at the origin |
| `Segments.IntersectionOutsideSegment` | src/geometry/line.ts:77-92 | the test is bounded by the segments: (-2, 0)-(4, 2) and (-1, -3)-(0, -1) have no intersection although their lines meet |
| `Segments.IntersectionAtJoint` | src/geometry/edge.ts:87 | two consecutive, non-parallel edges meet exactly at their shared vertex, because the bounds are inclusive |
| `Segments.DegenerateSegment` | src/geometry/edge.ts:60-70 | a zero-length segment has length 0 and normal (0, 0) |
| `Edges.Edge.constructor` | src/geometry/edge.ts:24-27 | the edge stores the given vertex objects themselves |
| `Edges.Edge.Copy` | src/geometry/edge.ts:33-35 | a new edge with new, distinct endpoint objects at the same positions |
| `Edges.Edge.Direction` | src/geometry/edge.ts:51-53 | a new vector end - start, negated when `reverse` is set |
| `Edges.Edge.Normal` | src/geometry/edge.ts:60-62 | a new vector: the normalised direction (reversed when `clockwise` is set) turned by -PI/2; (0, 0) for a zero-length edge |
| `Edges.Edge.Length` | src/geometry/edge.ts:68-70 | never negative, and 0 exactly for a zero-length edge |
| `Edges.Edge.IntersectEdge` | src/geometry/edge.ts:77-92 | null exactly when the segments do not meet (see `Segments.IntersectionSound` and `IntersectionComplete`); otherwise a new vertex at the meeting point; neither edge changes |
| `Lines.Line.constructor` | src/geometry/line.ts:24-27 | the line stores the given vertex objects themselves |
| `Lines.Line.Copy` | src/geometry/line.ts:33-35 | a new line with new endpoint objects at the same positions |
| `Lines.Line.Direction` | src/geometry/line.ts:51-53 | end - start, negated when `reverse` is set |
| `Lines.Line.Normal` | src/geometry/line.ts:60-62 | the normalised direction turned by -PI/2; (0, 0) for a degenerate line |
| `Lines.Line.Length` | src/geometry/line.ts:68-70 | never negative, and 0 exactly for a degenerate line |
| `Lines.Line.IntersectLine` | src/geometry/line.ts:77-92 | the segment-bounded test: null exactly when the segments do not meet, otherwise a new vertex at the meeting point |
| `LineSegments.LineSegment.constructor` | src/geometry/lineSegment.ts:24-27 | the segment stores the given vertex objects themselves |
| `LineSegments.LineSegment.Copy` | src/geometry/lineSegment.ts:33-35 | a new segment with new endpoint objects at the same positions |
| `LineSegments.LineSegment.Direction` | src/geometry/lineSegment.ts:51-53 | end - start, negated when `reverse` is set |
| `LineSegments.LineSegment.Normal` | src/geometry/lineSegment.ts:60-62 | the normalised direction turned by -PI/2; (0, 0) for a zero-length segment |
| `LineSegments.LineSegment.Length` | src/geometry/lineSegment.ts:68-70 | never negative, and 0 exactly for a zero-length segment |
| `LineSegments.LineSegment.IntersectLineSegment` | src/geometry/lineSegment.ts:77-92 | null exactly when the segments do not meet, otherwise a new vertex at the meeting point |
| `LineSegments.LineSegment.Lerp` | src/geometry/lineSegment.ts:100-102 | a new segment whose starts and ends are interpolated separately; proportion 0 gives the first segment and 1 the second |
| `VectorEdges.Edge.constructor` | src/edge.ts:22-25 | the edge stores the given vector objects themselves |
| `VectorEdges.Edge.Copy` | src/edge.ts:31-33 | new endpoint vectors with equal components |
| `VectorEdges.Edge.Direction` | src/edge.ts:49-51 | end - start, negated when `reverse` is set |
| `VectorEdges.Edge.Normal` | src/edge.ts:58-60 | the normalised direction turned by -PI/2 |
| `VectorEdges.Edge.Length` | src/edge.ts:66-68 | never negative, and 0 exactly for a zero-length edge |
| `VectorEdges.Edge.IntersectEdge` | src/edge.ts:86-101 | null exactly when the segments do not meet (the bounds of `inRange`, src/edge.ts:77-79, inclusive); otherwise a fresh copy of `start` moved to the meeting point; neither edge changes |
| `PolygonShape.ProcessedShape` | src/geometry/polygon.ts:52-76 | normalisation never lengthens the list, keeps only input positions, gives the empty list only for the empty input, and gives the first vertex alone when every vertex collapses |
| `PolygonShape.ProcessedKeepsClean` | src/geometry/polygon.ts:52-76 | a list in which every vertex survives, or a single vertex, is kept exactly as it is |
| `PolygonShape.ProcessedMergesRepeats` | src/geometry/polygon.ts:52-76 | two equal leading vertices collapse into one |
| `PolygonShape.ProcessedNotIdempotent` | src/geometry/polygon.ts:52-76 | normalising twice can remove more than normalising once, since equivalence is not transitive |
| `PolygonShape.EdgeSegs` | src/geometry/polygon.ts:78-92 | no edges below two vertices; otherwise exactly n edges, edge i running from vertex i to vertex (i + 1) mod n |
| `PolygonShape.EdgeSegsClosed` | src/geometry/polygon.ts:78-92 | consecutive edges share a vertex, and the last edge returns to the first vertex |
| `PolygonShape.NextIsModulo` | src/geometry/polygon.ts:84-87 | the successor index is `(i + 1) % n` |
| `PolygonShape.Turn` | src/geometry/polygon.ts:98-104 | the turn from an edge's predecessor onto it lies in (-PI, PI] |
| `PolygonShape.TurnSumBounds` | src/geometry/polygon.ts:94-107 | the first k turns add up to a value in [-k PI, k PI] |
| `PolygonShape.AngularSumBounds` | src/geometry/polygon.ts:94-107 | the angular sum over n edges lies in [-n PI, n PI] and is 0 without edges |
| `PolygonShape.CentroidOfSquare` | src/geometry/polygon.ts:109-138 | (1, 1), (1, 0), (0, 0), (0, 1) has its centroid at (0.5, 0.5) |
| `PolygonShape.CentroidOfTwoVertices` | src/geometry/polygon.ts:118-135 | two vertices enclose no area, so a two-vertex polygon always takes the zero-area position |
| `PolygonShape.MovedAll` | src/geometry/polygon.ts:267-274 | every position moved by the same motion, in order |
| `PolygonShape.ControlStays` | src/geometry/vertex.ts:111-180 | the reference point of a scaling, rotation or reflection does not move |
| `PolygonShape.TranslationRoundTrip` | src/geometry/polygon.ts:189-191 | translating by (dx, dy) and then by (-dx, -dy) restores every position |
| `PolygonShape.TranslationKeepsOrientation` | src/geometry/polygon.ts:267-274 | a translated polygon has the same angular sum, so the same `clockwise` |
| `PolygonQuery.HitsFromEdges` | src/geometry/polygon.ts:167-172 | every hit is where some edge meets the query, and there are no more hits than edges |
| `PolygonQuery.SortByDistanceCorrect` | src/geometry/polygon.ts:174-176 | the sorted hits are in non-decreasing distance from the query's start and are a permutation of the hits |
| `PolygonQuery.DropRepeatsMembers` | src/geometry/polygon.ts:178-180 | the filter never lengthens the list, keeps only its entries, and always keeps the first entry |
| `PolygonQuery.DropRepeatsSorted` | src/geometry/polygon.ts:178-180 | thinning a list sorted by distance leaves it sorted |
| `PolygonQuery.DropRepeatsKeepsDistinct` | src/geometry/polygon.ts:178-180 | a list with no equivalent neighbours is left unchanged |
| `PolygonQuery.DropRepeatsShrinks` | src/geometry/polygon.ts:178-180 | an entry equivalent to its predecessor is dropped, so a vertex hit by two edges is reported once |
| `PolygonQuery.DropRepeatsComplete` | src/geometry/polygon.ts:178-180 | every entry not equivalent to its predecessor in the list is kept |
| `PolygonQuery.DropRepeatsSeparated` | src/geometry/polygon.ts:178-180 | on a list where an entry not equivalent to its predecessor is not equivalent to any earlier entry, no two neighbours of the thinned list are equivalent |
| `PolygonQuery.HitsOnQuery` | src/geometry/polygon.ts:166-172 | every hit is the query's start moved u times its direction for some u in [0, 1], and a query with a hit has non-zero length |
| `PolygonQuery.DistanceGrowsAlong` | src/geometry/polygon.ts:174-176 | on a segment of non-zero length, a point further along is strictly further from the start |
| `PolygonQuery.ParamsInOrder` | src/geometry/polygon.ts:174-176 | of two points of such a segment, the one no further from the start is no further along |
| `PolygonQuery.SeparationAlong` | src/geometry/polygon.ts:178-180 | of three points in order along a segment, if the last is not equivalent to the middle one it is not equivalent to the first |
| `PolygonQuery.SortedHitsSeparate` | src/geometry/polygon.ts:166-176 | the hits sorted by distance from the query's start lie in order along the query, so an entry not equivalent to its predecessor is not equivalent to any earlier entry |
| `PolygonQuery.QueryCorrect` | src/geometry/polygon.ts:160-181 | every reported point is where some edge meets the query; the points are in non-decreasing distance from the query's start; there are no more of them than edges; there is one exactly when some edge is hit; no two neighbours are equivalent; and every hit is reported unless it is equivalent to the hit before it in the sorted list, which is a permutation of the hits |
| `PolygonQuery.DropRepeatsKeepsEquivalentNeighbours` | src/geometry/polygon.ts:178-180 | the filter taken alone compares with the sorted predecessor, not with the last kept entry, so on an arbitrary list two kept neighbours can be equivalent; the hits of `intersectEdge` never form such a list (`PolygonQuery.SortedHitsSeparate`) |
| `PolygonQuery.Chords` | src/geometry/polygon.ts:375-379 | the chords of one candidate pair intersections (0, 1), (2, 3), ...: k intersections give floor(k / 2) chords |
| `PolygonQuery.HatchChordCount` | src/geometry/polygon.ts:373-380 | the hatch lines number the sum over candidates of floor(k / 2) |
| `PolygonQuery.CandidateLines` | src/geometry/polygon.ts:365-371 | exactly 2 steps + 1 candidate lines |
| `PolygonQuery.CandidateLinesAt` | src/geometry/polygon.ts:365-371 | candidate c lies at offset c - steps, shifted across the grain by spacing times (offset + its jitter) |
| `PolygonQuery.HatchLinesOnEdges` | src/geometry/polygon.ts:359-383 | every hatch line lies on one of the candidates and joins two points where that candidate crosses the polygon's boundary |
| `PolygonQuery.NonZeroSpacingRounds` | src/geometry/polygon.ts:360-365 | with a non-zero spacing the loop bound is the integer floor(maxAnchorDistance / spacing), and the loop runs exactly 2 steps + 1 rounds |
| `PolygonQuery.ZeroSpacingNeverEnds` | src/geometry/polygon.ts:360-365 | as written, a zero spacing with a positive reach makes `steps` Infinity and `offset` minus Infinity, so the test `offset <= steps` holds after every number of rounds |
| `PolygonQuery.ZeroSpacingZeroReach` | src/geometry/polygon.ts:360-365 | a zero spacing with a zero reach makes `steps` NaN, and the loop makes no round |
| `PolygonQuery.ZeroSpacingSquare` | src/geometry/polygon.ts:360-365 | the square (1, 1), (1, -1), (-1, -1), (-1, 1) has a positive reach from any anchor, so with spacing 0 `steps` is Infinity and the loop test holds after every number of rounds |
| `PolygonQuery.StuckAtMinusInfinity` | src/geometry/polygon.ts:365-371 | `offset++` leaves minus Infinity where it is, after any number of rounds |
| `PolygonQuery.CountingUp` | src/geometry/polygon.ts:365-371 | from a finite start -n, k rounds of `offset++` reach k - n |
| `PolygonQuery.MaxDistanceBounds` | src/geometry/polygon.ts:385-392 | the maximum is never negative, no vertex is farther from the anchor, and it is 0 or the distance to some vertex |
| `PolygonSplit.FirstCrossingCorrect` | src/geometry/polygon.ts:287-299 | the scan over bases i and targets i + 1 .. i + n - 1 finds nothing exactly when the loop has no crossing away from the base's ends; what it finds is such a crossing, and no earlier pair is one |
| `PolygonSplit.FindCrossing` | src/geometry/polygon.ts:287-299 | the nested `for` loops stop at the first crossing the scan meets |
| `PolygonSplit.CrossingSkipsNeighbours` | src/geometry/polygon.ts:296 | neighbouring edges only meet at their shared vertex, so a crossing skips at least one edge on each side |
| `PolygonSplit.SmallLoopsResolved` | src/geometry/polygon.ts:287-299 | an outline of at most three vertices has no crossing to split |
| `PolygonSplit.InArcIsSubIndices` | src/geometry/polygon.ts:292-293 | the indices collected in `subIndices` are exactly the arc (i + 1) mod n .. j mod n |
| `PolygonSplit.SplitContiguous` | src/geometry/polygon.ts:297-303 | without wrap-around the cut gives vertices 0..i, the crossing, j + 1..n - 1 (replacing the slot) and the arc i + 1..j closed by the crossing (appended) |
| `PolygonSplit.SplitWrapped` | src/geometry/polygon.ts:297-303 | when the target wraps past the last vertex, the two lists keep index order, with the crossing spliced at i + 1 or appended |
| `PolygonSplit.SplitSizes` | src/geometry/polygon.ts:297-303 | before normalisation the two new lists hold n + 2 vertices between them |
| `PolygonSplit.SplitShrinks` | src/geometry/polygon.ts:297-303 | cutting at a genuine crossing leaves both lists with at least 3 and fewer than n vertices |
| `PolygonSplit.CutLighter` | src/geometry/polygon.ts:284-321 | each cut lowers the worklist's weight, the sum of 3 to the size of each slot, so the worklist ends |
| `PolygonSplit.SplitStep` | src/geometry/polygon.ts:285-320 | cutting at the first crossing the scan finds keeps the final result and lowers the weight |
| `PolygonSplit.SplitResolved` | src/geometry/polygon.ts:280-326 | every loop the split returns has no crossing left, and no slot is lost |
| `PolygonSplit.SplitOfResolved` | src/geometry/polygon.ts:280-326 | a polygon without a crossing comes back alone and unchanged |
| `PolygonSplit.Pass` | src/geometry/polygon.ts:285-320 | one pass marks slots resolved in order while clean; the first crossing cuts its slot, appends the other loop, lowers the weight and ends the pass; the split's result is unchanged |
| `PolygonSplit.SplitAll` | src/geometry/polygon.ts:280-326 | the worklist returns exactly the split of the polygon, and slot 0 is still the original exactly when it had no crossing |
| `PolygonSplit.Parts` | src/geometry/polygon.ts:280-326 | at least one outline, and none with a crossing left |
| `PolygonSplit.Normalised` | src/geometry/polygon.ts:298-305 | one outline per raw vertex list, each the normalised list |
| `PolygonSplit.BowtieSplitsIntoTriangles` | src/geometry/polygon.ts:280-326 | the bowtie (1, 1), (1, -1), (-1, 1), (-1, -1) splits into exactly two triangles sharing the origin |
| `PolygonSplit.BowtieFirstCrossing` | src/geometry/polygon.ts:287-299 | the first crossing of the bowtie is edge 1 against edge 3, at the origin |
| `PolygonSplit.OffsetRaw` | src/geometry/polygon.ts:340-345 | 2 n raw vertices: both ends of every edge, in edge order, pushed along the edge's normal by `quantity` |
| `PolygonSplit.KeepOriented` | src/geometry/polygon.ts:347 | an outline is kept exactly when its orientation is the requested one, in order |
| `PolygonSplit.OffsetPartsCorrect` | src/geometry/polygon.ts:335-348 | every outline `offset` returns has no crossing and the requested orientation, and every such part of the split is returned |
| `Polygons.Poly` | src/geometry/polygon.ts:395-397 | `poly` is the constructor |
| `Polygons.KeepClockwise` | src/geometry/polygon.ts:347 | the filter keeps, in order, exactly the polygons whose `clockwise` is the given one |
| `Polygons.KeepClockwiseOutlines` | src/geometry/polygon.ts:347 | on valid polygons the filter keeps exactly the outlines of the requested orientation |
| `Polygons.Polygon.ProcessVertices` | src/geometry/polygon.ts:52-76 | new, distinct vertex copies at the normalised positions |
| `Polygons.Polygon.CalculateEdges` | src/geometry/polygon.ts:78-92 | new edges whose endpoints are the given vertex objects themselves, vertex i to vertex (i + 1) mod n; none below two vertices |
| `Polygons.Polygon.CalculateAngularSum` | src/geometry/polygon.ts:94-107 | the angular sum of the edges' positions: the turns from each edge's predecessor onto it, added up |
| `Polygons.Polygon.CalculateVertexCentroid` | src/geometry/polygon.ts:109-138 | a new vertex at the origin for no vertices, the only vertex itself for one, and a new vertex at the shoelace centroid otherwise |
| `Polygons.Polygon.CrossTotal` | src/geometry/polygon.ts:118-124 | the first loop adds up the cross products of consecutive vertices |
| `Polygons.Polygon.Moments` | src/geometry/polygon.ts:126-133 | the second loop adds up the cross products weighted by the summed coordinates |
| `Polygons.Polygon.constructor` | src/geometry/polygon.ts:45-50 | normalised copies of the vertices, edges between those very objects, the orientation of those edges, and the centroid as anchor (the vertex itself for a single vertex) |
| `Polygons.Polygon.Build` | src/geometry/polygon.ts:45-50 | the four steps of the constructor: normalised fresh vertices, their edges and orientation, and the centroid |
| `Polygons.Polygon.Wire` | src/geometry/polygon.ts:47-48 | `calculateEdges` and `calculateAngularSum` on distinct vertices give edges between those very objects and their orientation |
| `Polygons.Polygon.Rewire` | src/geometry/polygon.ts:271-273 | after the vertices moved, the edges and the orientation are rebuilt and the polygon is valid again |
| `Polygons.Polygon.Vertices` | src/geometry/polygon.ts:17-19 | the getter returns new, distinct vertices at the vertices' positions |
| `Polygons.Polygon.Edges` | src/geometry/polygon.ts:24-26 | the getter returns new edges with new endpoints at the edges' positions |
| `Polygons.Polygon.Copy` | src/geometry/polygon.ts:144-148 | a valid polygon built from the positions (so normalised again) that shares this polygon's anchor object |
| `Polygons.Polygon.Transform` | src/geometry/polygon.ts:267-274 | every vertex moved in place by the motion about the reference point as it was before the call; the edges and orientation rebuilt; the same object returned and valid |
| `Polygons.Polygon.MoveAll` | src/geometry/polygon.ts:268-270 | the loop moves each vertex object in turn, and the positions become the moved positions |
| `Polygons.Polygon.Translate` | src/geometry/polygon.ts:189-191 | every vertex moved by (dx, dy); the polygon is returned, still valid |
| `Polygons.Polygon.Scale` | src/geometry/polygon.ts:210-212 | every vertex's offset from the reference point (the anchor by default) multiplied by the factor |
| `Polygons.Polygon.Rotate` | src/geometry/polygon.ts:231-233 | every vertex turned about the reference point (the anchor by default) |
| `Polygons.Polygon.Reflect` | src/geometry/polygon.ts:252-254 | every vertex mirrored in the axis through the reference point (the anchor by default) |
| `Polygons.Polygon.Translated` | src/geometry/polygon.ts:200-202 | a new valid polygon: the copy translated, sharing the original's anchor; the original is unchanged |
| `Polygons.Polygon.Scaled` | src/geometry/polygon.ts:221-223 | a new valid polygon: the copy scaled about the reference point or the shared anchor |
| `Polygons.Polygon.RotatedBy` | src/geometry/polygon.ts:242-244 | a new valid polygon: the copy rotated about the reference point or the shared anchor |
| `Polygons.Polygon.ReflectedIn` | src/geometry/polygon.ts:263-265 | a new valid polygon: the copy reflected in the axis through the reference point or the shared anchor |
| `Polygons.Polygon.CopyMoved` | src/geometry/polygon.ts:200-265 | the shared body of the static transforms: a new valid polygon, the copy moved by the motion, sharing the original's anchor |
| `Polygons.Polygon.CopyToMove` | src/geometry/polygon.ts:144-148 | a copy whose vertices are new and distinct, at the normalised positions, sharing the anchor |
| `Polygons.Polygon.IntersectEdge` | src/geometry/polygon.ts:164-181 | new vertices at the intersections, sorted by distance and thinned as `PolygonQuery.Query` states |
| `Polygons.Polygon.Crossings` | src/geometry/polygon.ts:167-172 | each edge's intersection with the query, if any, as a new vertex, in edge order |
| `Polygons.Polygon.HatchFill` | src/geometry/polygon.ts:359-383 | for a non-zero spacing, the chords of each candidate line, candidates from offset -steps up to steps |
| `Polygons.Polygon.Candidates` | src/geometry/polygon.ts:365-371 | 2 steps + 1 candidate edges, candidate c at offset c - steps |
| `Polygons.Polygon.ChordEdges` | src/geometry/polygon.ts:376-378 | edges between intersections 0 and 1, 2 and 3, ..., floor(k / 2) of them for k intersections |
| `Polygons.Polygon.ChordsAlong` | src/geometry/polygon.ts:374-380 | the chords of every candidate, candidate by candidate |
| `Polygons.Polygon.AddChords` | src/geometry/polygon.ts:374-380 | one round of the loop: the chords of one candidate appended to the lines so far |
| `Polygons.Polygon.ChordsOf` | src/geometry/polygon.ts:375-379 | the chords of one candidate: consecutive pairs of the polygon's sorted, thinned intersections with it |
| `Polygons.Polygon.CandidateEdge` | src/geometry/polygon.ts:366-370 | a new edge for one offset: across the polygon along the grain, shifted by spacing times (offset + jitter) |
| `Polygons.Polygon.OverlapSplit` | src/geometry/polygon.ts:280-326 | new valid polygons with the outlines of the split; slot 0 shares this polygon's anchor when the polygon had no crossing |
| `Polygons.Polygon.PartsOf` | src/geometry/polygon.ts:298-305 | one new valid polygon per slot, each normalised from its raw vertices |
| `Polygons.Polygon.AddPart` | src/geometry/polygon.ts:298-305 | one round: a new valid polygon for the next slot appended, the earlier ones kept |
| `Polygons.Polygon.PartAt` | src/geometry/polygon.ts:298-305 | a new valid polygon with the normalised outline; the kept original shares its anchor |
| `Polygons.Polygon.Offset` | src/geometry/polygon.ts:335-348 | a zero quantity gives one copy sharing the anchor; otherwise the outlines of the split offset polygon with this polygon's orientation |
| `Polygons.Polygon.OffsetNonZero` | src/geometry/polygon.ts:340-347 | for a non-zero quantity, the split outlines of the offset polygon that have the original orientation |
| `Polygons.Polygon.SplitKept` | src/geometry/polygon.ts:346-347 | the parts of the split whose orientation is the given one, as new valid polygons |
| `Polygons.Polygon.OffsetPolygon` | src/geometry/polygon.ts:340-346 | a new valid polygon built from both shifted ends of every edge |
| `Polygons.Polygon.OffsetVertices` | src/geometry/polygon.ts:340-345 | the loop collects both ends of every edge, translated along the edge's scaled normal |
| `Polygons.Polygon.AddEnds` | src/geometry/polygon.ts:341-344 | one round: both ends of one edge, shifted along its scaled normal, appended |
| `Polygons.Polygon.ShiftedEnds` | src/geometry/polygon.ts:342-343 | new vertices at the edge's start and end, each translated by the normal times the quantity |
| `Polygons.Polygon.GetMaxAnchorDistance` | src/geometry/polygon.ts:385-392 | the largest distance from the anchor to a vertex, starting from 0 |
| `Categorical.NormalisedSumIsOne` | src/utility/categoricalVariable.ts:33-39 | weights divided by a non-zero total add up to 1 |
| `Categorical.Scaled` | src/utility/categoricalVariable.ts:36-38 | every weight divided by the total, one for one |
| `Categorical.SumScaled` | src/utility/categoricalVariable.ts:36-38 | the scaled weights add up to the old sum divided by the total |
| `Categorical.Pick` | src/utility/categoricalVariable.ts:48-56 | what the loop selects, if anything, is one of the categories |
| `Categorical.Category` | src/utility/categoricalVariable.ts:47-63 | `getCategory` always returns one of the categories |
| `Categorical.FirstExceeding` | src/utility/categoricalVariable.ts:47-63 | the reference rule: the index of the first category whose running total exceeds the value, with every earlier total at most the value |
| `Categorical.PickIsFirstExceeding` | src/utility/categoricalVariable.ts:48-56 | without empty names the loop picks exactly the first category whose running total exceeds the value, and nothing when none does |
| `Categorical.CategoryIsFirstExceeding` | src/utility/categoricalVariable.ts:47-63 | without empty names `getCategory` is the first category whose running total exceeds the value, else the last category |
| `Categorical.FirstExceedingMonotone` | src/utility/categoricalVariable.ts:47-63 | a larger value never selects an earlier category |
| `Categorical.CategoryMonotone` | src/utility/categoricalVariable.ts:47-63 | with distinct, non-empty names, the category for a larger value is never earlier in key order |
| `Categorical.EmptyNameOverwritten` | src/utility/categoricalVariable.ts:53 | as written, a selected empty name does not stop the loop: "" and "b" of equal weight give "b" for the value 0 |
| `Categorical.IntendedCategoryIsFirstExceeding` | src/utility/categoricalVariable.ts:47-63 | with `selected === null` as the test, `getCategory` is the first category whose running total exceeds the value, else the last, for any names |
| `Categorical.IntendedPickIsFirstExceeding` | src/utility/categoricalVariable.ts:48-56 | with `selected === null` as the test the loop picks the first category whose running total exceeds the value, for any names |
| `Categorical.IntendedAgreesWithoutEmptyNames` | src/utility/categoricalVariable.ts:53 | without an empty name, the code as written and the intended test select the same category |
| `Categorical.EmptyNameKept` | src/utility/categoricalVariable.ts:53 | with the intended test, the example of `EmptyNameOverwritten` selects "" |
| `Categorical.ColoursNormalised` | src/utility/categoricalVariable.ts:33-39 | blue 3, red 1, green 2, white 4 are stored as 0.3, 0.1, 0.2, 0.4 |
| `Categorical.ColoursCategories` | src/utility/categoricalVariable.ts:47-63 | with those weights 0.31 selects red and 1.00 falls back to white |
| `Categorical.CategoricalVariable.constructor` | src/utility/categoricalVariable.ts:33-39 | every category stored with its weight divided by the total, in key order |
| `Categorical.CategoricalVariable.Create` | src/utility/categoricalVariable.ts:35 | construction fails (the `TypeError` of `reduce`) exactly for an empty dictionary |
| `Categorical.CategoricalVariable.Categories` | src/utility/categoricalVariable.ts:11-13 | the categories in key order |
| `Categorical.CategoricalVariable.Weights` | src/utility/categoricalVariable.ts:18-20 | the normalised weights in key order |
| `Categorical.CategoricalVariable.Span` | src/utility/categoricalVariable.ts:25-27 | the number of categories |
| `Categorical.CategoricalVariable.WeightsSumToOne` | src/utility/categoricalVariable.ts:33-39 | the stored weights add up to 1 when the input total is not 0 |
| `Categorical.CategoricalVariable.GetWeighting` | src/utility/categoricalVariable.ts:70-72 | the normalised weight of a known category, and nothing for an unknown one |
| `Categorical.CategoricalVariable.GetCategory` | src/utility/categoricalVariable.ts:47-63 | the loop's result is `Category`, so the first-exceeding lemmas apply to it |
| `Categorical.Accumulate` | src/utility/categoricalVariable.ts:49-56 | the running total and the truthiness test select what `Pick` selects |
| `Polynomials.EvalIsHorner` | src/maths/polynomial.ts:49-55 | the sum of c[i] value^i equals Horner's rule on every input |
| `Polynomials.Polynomial.constructor` | src/maths/polynomial.ts:7-9 | the polynomial keeps its own copy of the coefficients, which never change |
| `Polynomials.Polynomial.Evaluate` | src/maths/polynomial.ts:49-55 | the sum of c[i] value^i, which is also the Horner value; 0 for no coefficients |
| `Polynomials.Derive` | src/maths/polynomial.ts:64-68 | one differentiation is one entry shorter, except on the empty list |
| `Polynomials.DeriveNClosedForm` | src/maths/polynomial.ts:57-73 | k differentiations leave max(0, n - k) entries, entry i being c[i + k] (i + 1) (i + 2) ... (i + k) |
| `Polynomials.DeriveNCompose` | src/maths/polynomial.ts:57-73 | differentiating a times and then b times is differentiating a + b times |
| `Polynomials.TwiceIsSecond` | src/maths/polynomial.ts:57-73 | differentiating once and then once more is `getDerivative(2)` |
| `Polynomials.Polynomial.GetDerivative` | src/maths/polynomial.ts:57-73 | a new polynomial with `order` differentiations; an order of 0 or less gives equal coefficients |
| `Polynomials.CubicExamples` | src/maths/polynomial.ts:49-73 | 2 + 4x + 5x^2 + x^3 is 38 at 2 and has derivatives [4, 10, 3] and [10, 6] |
| `Polynomials.Decimal` | src/maths/polynomial.ts:43 | the degree prints as one or more decimal digits |
| `Polynomials.TermVariable` | src/maths/polynomial.ts:33-43 | a non-zero term ends in its variable part: in "x" exactly for degree 1, and in "^" and the degree exactly from degree 2 on |
| `Polynomials.TermDigits` | src/maths/polynomial.ts:19-31 | a non-zero term shows digits in front of its variable part exactly when the digit rule does not hide them, and then shows the magnitude's text |
| `Polynomials.TermSign` | src/maths/polynomial.ts:24-29 | below the top degree a term starts with " - " or " + " by its sign; at the top degree a negative term starts with "-" |
| `Polynomials.ZeroSkipped` | src/maths/polynomial.ts:15-17 | a zero coefficient adds nothing to the text |
| `Polynomials.AllZeroIsEmpty` | src/maths/polynomial.ts:11-47 | coefficients that are all zero print as the empty string |
| `Polynomials.RenderingOfFour` | src/maths/polynomial.ts:13 | terms are printed from the highest degree down |
| `Polynomials.FormatExample` | src/maths/polynomial.ts:11-47 | -3 + x^2 - 2x^3 prints as "-", the text of 2, "x^3 + x^2 - " and the text of 3 |
| `Polynomials.UnitConstantPrintsNoDigit` | src/maths/polynomial.ts:19-22 | as written, 1 + x prints as "x + ", with no digit at all |
| `Polynomials.ConstantShowsDigit` | src/maths/polynomial.ts:19-22 | under the intended rule every non-zero constant term shows a digit |
| `Polynomials.UnitConstantKeepsDigit` | src/maths/polynomial.ts:19-22 | under the intended rule 1 + x prints as "x + " followed by the text of 1 |
| `Polynomials.Polynomial.ToString` | src/maths/polynomial.ts:11-47 | the loop builds the terms from the highest degree down, under the digit rule as written |
| `Polynomials.Polynomial.ToStringCorrected` | src/maths/polynomial.ts:11-47 | the same loop under the intended digit rule, where a magnitude of 1 is hidden only in front of "x" |
| `Polynomials.Polynomial.Render` | src/maths/polynomial.ts:13-45 | the loop appends the term of each degree from the highest down |
| `Polynomials.AppendTerm` | src/maths/polynomial.ts:14-44 | one round of the loop: the text so far followed by the term of one degree |
| `Factorials.FactMonotone` | src/maths/factorial.ts:4-11 | k <= n implies k! <= n! |
| `Factorials.BinomialFactorials` | src/maths/factorial.ts:4-11 | C(n, k) k! (n - k)! = n!, the identity the Bézier conversion relies on |
| `Factorials.Fact` | src/maths/factorial.ts:4-11 | the reference factorial, never below 1 |
| `Factorials.FactorialCache.constructor` | src/maths/factorial.ts:2-3 | the cache starts as f = [1, 1] and i = 2 |
| `Factorials.FactorialCache.Factorial` | src/maths/factorial.ts:4-11 | n! for natural n; a cached n leaves f and i alone; an uncached n fills f up to n and leaves i = n + 1; a negative n returns (i - 1)! unchanged; f[k] = k! for k < i = len(f) throughout |
| `Beziers.AsWrittenSignIsPositive` | src/geometry/bezier.ts:22 | as JavaScript parses line 22, the sign is +1 exactly for point 0 of an even coefficient |
| `Beziers.ConstantIsFirstPoint` | src/geometry/bezier.ts:14-27 | under either sign rule the constant coefficient is the first control point |
| `Beziers.AsWrittenFailsLineTest` | src/geometry/bezier.ts:22 | as written, (1, 2), (10, 5) give x = [1, -11] and y = [2, -7] |
| `Beziers.CorrectedPassesLineTest` | tests/unit/geometry/bezier.test.ts:6-7 | with the sign (-1)^(i + j), (1, 2), (10, 5) give x = [1, 9] and y = [2, 3], as the test expects |
| `Beziers.FallingIsBinomial` | src/geometry/bezier.ts:17-20 | the falling product n (n - 1) ... (n - j + 1) is C(n, j) j! |
| `Beziers.FallingFactorials` | src/geometry/bezier.ts:17-20 | the falling product times (n - j)! is n! |
| `Beziers.LineCoefficients` | src/geometry/bezier.ts:13-33 | the two coefficients of a straight Bézier curve: P0, and P0 and P1 weighted by their signs |
| `Beziers.CorrectedIsBinomialForm` | src/geometry/bezier.ts:13-33 | with the intended sign, coefficient j is the power-basis coefficient of a degree-n Bézier curve, the sum over i <= j of (-1)^(i + j) C(n, j) C(j, i) P_i |
| `Beziers.Bezier.constructor` | src/geometry/bezier.ts:9-11 | the curve keeps its own copy of the control-point list |
| `Beziers.Bezier.GetPolynomials` | src/geometry/bezier.ts:13-33 | two new polynomials, the x and y coordinates of the coefficients computed with the sign of line 22 as written, one per control point |
| `Beziers.Bezier.GetPolynomialsCorrected` | src/geometry/bezier.ts:13-33 | the same with the sign (-1)^(i + j), so the coefficients are those of `CorrectedIsBinomialForm` |
| `Beziers.Bezier.Expand` | src/geometry/bezier.ts:16-27 | the outer loop stores coefficient j in c[j] for every degree |
| `Beziers.Bezier.Coefficient` | src/geometry/bezier.ts:17-26 | coefficient j as a new vertex: the weighted sum of points 0 .. j times the falling product |
| `Beziers.Bezier.ToPolynomials` | src/geometry/bezier.ts:29-30 | the x coordinates and the y coordinates of the coefficient vertices, as two new polynomials |
| `Beziers.Xs` | src/geometry/bezier.ts:29 | the x coordinates, one for one |
| `Beziers.Ys` | src/geometry/bezier.ts:30 | the y coordinates, one for one |
| `Beziers.Bezier.Combine` | src/geometry/bezier.ts:21-25 | the inner loop adds up points 0 .. j, each scaled by its weight |
| `Beziers.WeightOf` | src/geometry/bezier.ts:22-23 | the sign divided by i! (j - i)!, both factorials taken from the cache |
| `Beziers.FallingProduct` | src/geometry/bezier.ts:17-20 | the loop computes the falling product n (n - 1) ... (n - j + 1) |

## Left out

- IEEE-754 rounding: every coordinate is an exact real, and no NaN or infinity is modelled outside `PolygonQuery.Number`. `PolygonSplit.Split` ends because each cut lowers `PolygonSplit.Weight`; that termination holds under exact arithmetic only. The source loop (src/geometry/polygon.ts:284) has no bound of its own.
- JsMath.Sin, JsMath.Cos, JsMath.Atan2 and JsMath.HypotOfAbs are left unspecified; `HypotOfAbs` is only known, for non-negative arguments, to be non-negative, zero exactly at (0, 0), and strictly increasing in one argument while the other does not shrink. So `unit`, `angle`, `angleBetween`, `rotate`, `reflect`, the magnitude, the distance and the angular sum get structural facts only: ranges, fixed points, and agreement between the instance and static forms.
- Vertices.Vertex.AngleTo: only the range (-PI, PI] of the turn is stated, because the angle itself comes from `atan2`.
- Vertices.Vertex.AngleBetween: only the range (-PI, PI] is stated, for the same reason.
- Vectors.Vector.Angle: only the range [0, 2PI) is stated, for the same reason.
- Vectors.Vector.AngleBetween: only the range [0, 2PI) is stated, for the same reason.
- Vectors2.Vector2.Angle: only the range [0, 2PI) is stated, for the same reason.
- Vectors2.Vector2.AngleBetween: only the range [0, 2PI) is stated, for the same reason.
- Polygons.Polygon.CalculateAngularSum: the sum of turns is stated, not its sign for a given shape, because the turns come from `atan2`. The heading `edge.direction().angle()` is read from the edge's position rather than through a new direction vector.
- PolygonShape.Centroid: when the signed area is 0, the source divides by 6A = 0 (src/geometry/polygon.ts:134-135) and gets NaN or an infinity. The model gives the unspecified finite point `PolygonShape.ZeroAreaCentroid` instead. This covers every polygon with exactly two vertices (`CentroidOfTwoVertices`) and every polygon whose vertices are collinear.
- Polygons.Polygon.CalculateVertexCentroid: on a zero-area polygon it returns `ZeroAreaCentroid`, as `PolygonShape.Centroid` does, where the source returns a vertex at NaN or infinite coordinates.
- Polygons.Polygon.Rotate: the anchor is the default reference (src/geometry/polygon.ts:232). On a zero-area polygon the source turns every vertex about a NaN anchor, so every vertex becomes NaN. The model turns them about the finite `ZeroAreaCentroid`.
- Polygons.Polygon.Reflect: the same as `Rotate`, with the anchor default at src/geometry/polygon.ts:253.
- Polygons.Polygon.Scale: the same as `Rotate`, with the anchor default at src/geometry/polygon.ts:211.
- Vertices.Vertex.Mean: for an empty list the source divides 0 by 0 and returns the vertex (NaN, NaN) (src/geometry/vertex.ts:239-248). The model returns `None`.
- Polygons.Polygon.HatchFill: a zero spacing is excluded by `requires spacing != 0.0`. As written, the source never ends for a positive reach (`PolygonQuery.ZeroSpacingNeverEnds`; see Findings), and returns [] after no round for a zero reach (`PolygonQuery.ZeroSpacingZeroReach`). A method that never returns cannot be written with a terminating loop. Negative zero, NaN and infinite spacings are not modelled.
- Polygons.Polygon.HatchFill: `jitter(randomizer())` becomes the parameter `draw: int -> real`, applied to each offset. Caller-supplied randomness thus becomes one fixed value per candidate.
- Categorical.Normalise: a weight divided by a zero total is the unspecified `Categorical.NonFinite` (an infinity or NaN in JavaScript). `WeightsSumToOne` and `NormalisedSumIsOne` require a non-zero total.
- Categorical.CategoricalVariable.constructor: it requires a non-empty dictionary. The empty one throws in `reduce`, which `Create` returns as `None`. Keys are kept in insertion order; JavaScript lists integer-like keys first, in numeric order, and that ordering is not modelled.
- Number formatting: `toString` of `Vertex`, `Vector`, `Vector2`, `Edge`, `Line`, `LineSegment` and `Polygon` is not modelled (it is `toFixed(3)` formatting). In `Polynomial.toString` the text of a magnitude is the unspecified `Polynomials.NumberText`, known only to start with a digit and to hold no "x" or "^".
- Factorials.FactorialCache.Factorial: it works on unbounded integers, so results above 2^53 are exact, where JavaScript doubles round. It takes an `int`: a non-integer n, such as `factorial(2.5)` (which returns 2 in the source), is not modelled.
- Polynomials.Polynomial.GetDerivative: `order` is an `int`. A non-integer order, such as 1.5 (which runs two rounds in the source), is not modelled.
- `Polynomial.getRoot` (src/maths/polynomial.ts:75-98) is not modelled: it is an iterative floating-point root finder.
- Numerics.Lerp: src/geometry/vertex.ts:2 imports `lerp` from src/utility/numerics.ts, which does not define it. The model takes a + (b - a) p, which gives the start at 0, the end at 1, and extrapolates outside [0, 1].
- Edges.Edge.IntersectEdge: the source computes t and u by dividing by r x s before it tests r x s != 0; the model tests first. The result is null in both cases. The same holds for `Lines.Line.IntersectLine`, `LineSegments.LineSegment.IntersectLineSegment` and `VectorEdges.Edge.IntersectEdge`.
- The private `inRange` of src/edge.ts (lines 77-79) is the same test as src/utility/numerics.ts:19-21 and is modelled by `Numerics.InRange`.
- src/polygon.ts and src/vertex.ts are not part of this model: they are an older copy of the polygon whose vertex methods are stubs. src/vector.ts is not part of this model either; `VectorEdges` takes the semantics of src/geometry/vector.ts for it.
- Polygons.Polygon.Transform: the callback of `transform` is one of the four motions the public methods pass (`PolygonShape.Motion`); an arbitrary callback is not modelled, since `transform` is private.
- Polygons.Polygon.OverlapSplit: the worklist runs on vertex positions, and the polygon objects are built at the end. The intermediate polygon objects, which the source discards, are not modelled.
- Beziers.Bezier.GetPolynomials: the array `c` is first filled with one shared vertex, and every slot is then overwritten. The model builds the slots directly; no difference can be observed. The factorial cache is passed in as a parameter.
- `vtx` and `vec` (src/geometry/vertex.ts:276-278, src/geometry/vector.ts:254-256) are the constructors and have no rows of their own.

## Findings

| source | as written | input that shows it | evidently intended | confidence | as-written member | corrected member |
|---|---|---|---|---|---|---|
| src/geometry/bezier.ts:22 | `i + j % 2 == 0 ? 1 : -1` parses as `i + (j % 2) == 0`, so the sign is +1 only for i = 0 and even j | control points (1, 2), (10, 5): x = [1, -11], y = [2, -7] | the sign (-1)^(i + j), giving x = [1, 9] and y = [2, 3] as tests/unit/geometry/bezier.test.ts:6-7 expects | high (not executed) | `Beziers.Bezier.GetPolynomials`, `Beziers.AsWrittenFailsLineTest` | `Beziers.Bezier.GetPolynomialsCorrected`, `Beziers.CorrectedPassesLineTest`, `Beziers.CorrectedIsBinomialForm` |
| src/vector2.ts:148-150 | static `subtract` returns `vectorA.copy().add(vectorB)`, the sum | (3, 4) and (1, 1) give (4, 5) | the difference a - b, (2, 3), as documented at src/vector2.ts:142-147 | high (not executed) | `Vectors2.Vector2.SumForDifference`, `Vectors2.SumForDifferenceDiffers` | `Vectors2.Vector2.Difference` |
| src/maths/polynomial.ts:19-22 | a coefficient of magnitude 1 prints no digits at every degree, the constant included | 1 + x prints as "x + " | hide the 1 only in front of "x": "x + 1" | medium (not executed) | `Polynomials.Polynomial.ToString`, `Polynomials.UnitConstantPrintsNoDigit` | `Polynomials.Polynomial.ToStringCorrected`, `Polynomials.UnitConstantKeepsDigit`, `Polynomials.ConstantShowsDigit` |
| src/utility/categoricalVariable.ts:53 | `!selected` treats a selected empty category name as nothing selected, so a later category overwrites it | categories "" and "b" with normalised weights 0.5 and 0.5, value 0: returns "b" | select the first category whose running total exceeds the value (`selected === null`): "" | medium (not executed) | `Categorical.CategoricalVariable.GetCategory`, `Categorical.EmptyNameOverwritten` | `Categorical.IntendedCategoryIsFirstExceeding`, `Categorical.EmptyNameKept` |
| src/geometry/polygon.ts:360-365 | `steps = Math.floor(maxAnchorDistance / spacing)` with spacing 0 is Infinity, and `offset` starts at minus Infinity, so `offset++` never ends the loop | the square (1, 1), (1, -1), (-1, -1), (-1, 1) of tests/unit/geometry/polygon.test.ts:21-26, hatched as at tests/unit/geometry/polygon.test.ts:652-667 but with spacing 0 (`PolygonQuery.ZeroSpacingSquare`) | a spacing of 0 rejected, or treated as no hatching; a non-zero spacing runs exactly 2 steps + 1 rounds | medium (not executed) | `PolygonQuery.ZeroSpacingNeverEnds` | `Polygons.Polygon.HatchFill`, `PolygonQuery.NonZeroSpacingRounds` |
