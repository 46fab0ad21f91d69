# MuonGun core in Dafny

A Dafny model of the core of the MuonGun project of IceTray. MuonGun simulates
atmospheric muons and weights them. The model covers five parts.

- **The extruded-polygon sampling surface** (`Hull`, `Polygon`, `Convexity`, `Inside`, `Intersection`):
  - Andrew's monotone-chain convex hull of the string positions.
  - The surface built on that hull: one side per hull vertex and a z range.
  - The face list and the projected area.
  - The `expand` vertex offset.
  - Surface equality and the coordinate accessors.
  - The ray queries: the ray-casting point-in-hull test, the distances to the sides and to the caps, the NaN-aware ordering helpers and `GetIntersection`.
- **Histogram binning** (`Histogram`):
  - The `general` scheme: edges bracketed by ±inf and found with `upper_bound`.
  - The `uniform` scheme with the identity transformation.
  - The row-major datacube that `make_datacube` allocates.
  - `fill`.
- **Generation-spectrum bookkeeping** (`Weighting`):
  - A spectrum's scalar call, its scaling, its compatibility test, and `+=` / `+`.
  - The per-particle-type collection: its constructor, call, scaling and `+=`.
- **The lookup-table builder** `CompiledFlux.build_lookup` (`Fluxes`):
  - the text it returns;
  - the nested `where` expression that text denotes.
- **Muon tracks** (`Track`):
  - The constructor's layout of energy checkpoints and running loss sums.
  - The range guards and lookups of `GetEnergy`, `GetPos` and `GetTime`.

The model handles numbers as follows:

- **Doubles are reals.** A double that may be NaN is an `Option<real>`, with `None` standing for NaN.
- **Infinities:** where ±inf matter (bin edges, the range guards of `Track`), a number is an `Ext` (`NegInf | Fin(v) | PosInf`). This is in `extended.dfy`.
- **Square roots and hypot** enter as values or function parameters:
  - `hypot` is a parameter, and the properties that need it assume that it returns the positive root.
  - `sin_zenith` is a value whose square is `1 - dir.z^2`.
  - The side lengths of the face list are parameters.
  - The projected area is also stated without square roots, and proved equal to the face sum.
- **Errors** are `Result` values: `log_fatal`, the Python `assert`s and the exceptions `raise`d by the weighting classes.

Each source function is one Dafny function or method. Where the source is wrong, the model has both the as-written member and a corrected one; see "## Findings". The corrected members are the ones the rest of the model builds on.

Some behaviours of the code are worth knowing before reading the model:

- **Cap distances.** The cap distance is `(pos.z - cap_z)/dir.z`, so an upward ray from below the prism gets negative distances: the ray from (5, 5, -10) along +z through the square prism over z in [0, 100] gets (-110, -10) (see "## Findings").
- **Oblique rays.** The side distances of an oblique ray are divided by sin(zenith), although they are already measured along the 3-D direction (see "## Findings").
- **Point-in-hull boundary.** Membership follows the code's half-open rule: a side counts when exactly one of its end points lies strictly above the query height, and the crossing must lie strictly to the right of the point. So at mid-height the left edge of the square belongs to the hull and the right edge does not (`Scenarios.MidHeightMembership`).
- **Too few points.** The Python constructor asserts that it was given at least three input points. The C++ constructor checks nothing.

The convexity of the hull and the sign of its area are proved in `Convexity` (convexity.dfy). The point-in-hull test on points strictly inside the hull is proved in `Inside` (inside.dfy). Worked examples on a 10 by 10 square are in `Scenarios`.

## Model

| member | source | states |
|---|---|---|
| `Vectors.LexLessIsStrictTotalOrder` | private/MuonGun/ExtrudedPolygon.cxx:177-188 | `operator<` on `vec2` is the lexicographic order on (x, y): irreflexive, transitive and asymmetric. Two points that neither precedes are equal, which is how the point set drops duplicates |
| `Hull.Reverse` | python/extruded_polygon.py:44 | the upper scan visits the sorted points back to front: same length, with element `i` being element `n-1-i` |
| `Hull.Insert` | private/MuonGun/ExtrudedPolygon.cxx:53-56 | inserting a point into the ordered set keeps it strictly ascending; its members are the old ones plus the point |
| `Hull.SortUnique` | python/extruded_polygon.py:21-23 | `sorted(set(points))` is strictly ascending in (x, y) and has exactly the input points as members |
| `Hull.AscendingIsUnique` | python/extruded_polygon.py:23 | two strictly ascending sequences with the same members are equal |
| `Hull.SortUniqueDependsOnlyOnPointSet` | private/MuonGun/ExtrudedPolygon.cxx:53-56 | the sorted point set depends only on which points occur, not on their order or repetition |
| `Hull.Push` | private/MuonGun/ExtrudedPolygon.cxx:23-29 | adding a point to a `ccw_curve` keeps a prefix of the chain and ends with the point. The result holds only chain points and the point, and a non-empty chain keeps its first point and grows to at least two points |
| `Hull.PushKeepsCcw` | private/MuonGun/ExtrudedPolygon.cxx:25-28 | if every three consecutive chain points turn strictly counter-clockwise before a push, they still do after it |
| `Hull.Curve` | python/extruded_polygon.py:35-40 | the chain of a scan starts at the first scanned point and ends at the last, and uses only scanned points |
| `Hull.CurveStrictlyCcw` | private/MuonGun/ExtrudedPolygon.cxx:31-38 | every three consecutive points of a chain make a strictly counter-clockwise turn (positive cross product) |
| `Hull.CurveMonotone` | python/extruded_polygon.py:42-47 | scanning ascending points gives an ascending chain, and scanning descending points a descending one |
| `Hull.CcwCurve` | private/MuonGun/ExtrudedPolygon.cxx:20-29 | the scan with its pop loop builds the chain: strictly counter-clockwise, from the first to the last point, using only input points |
| `Hull.PopAndPush` | python/extruded_polygon.py:38-40 | the `while ... pop()` loop followed by `append` is one stack step of the chain |
| `Hull.ConvexHull` | private/MuonGun/ExtrudedPolygon.cxx:48-75 | the hull holds only input points. With at most one distinct point it is that sorted set; otherwise it has at least two vertices and starts at the lexicographically smallest input point |
| `Hull.ChainFacts` | private/MuonGun/ExtrudedPolygon.cxx:64-66 | for two or more distinct points the lower chain ascends and the upper chain descends. Both turn strictly counter-clockwise, and each ends where the other starts |
| `Hull.HullIsChains` | python/extruded_polygon.py:49-51 | the hull is the lower chain and then the upper chain, each without its last point |
| `Hull.SplitAtJoin` | private/MuonGun/ExtrudedPolygon.cxx:68-72 | cutting the joined hull at the join gives both chains back, the upper one closed with the first vertex |
| `Hull.HullChains` | private/MuonGun/ExtrudedPolygon.cxx:41-45 | the hull splits at a vertex `m` into an ascending part and a descending part that closes back at the first vertex, both strictly counter-clockwise |
| `Hull.EdgesTurnLeft` | private/MuonGun/ExtrudedPolygon.cxx:31-38 | on a monotone, strictly counter-clockwise chain every later edge turns left of every earlier one |
| `Hull.InteriorRightOfChord` | private/MuonGun/ExtrudedPolygon.cxx:19-29 | every vertex of such a chain strictly between its first vertex and a later vertex `k` lies strictly right of the chord between them |
| `Hull.ChainsMeetOnlyAtEnds` | private/MuonGun/ExtrudedPolygon.cxx:68-72 | the lower and upper chains share no vertex apart from their two common ends, so dropping each chain's last point drops exactly the repeated ones |
| `Hull.JoinedChainsDistinct` | python/extruded_polygon.py:49-51 | the two chains joined without their last points repeat no vertex |
| `Hull.HullAsChains` | private/MuonGun/ExtrudedPolygon.cxx:64-72 | for two or more distinct points the hull is made of two chains: monotone in opposite directions, strictly counter-clockwise and sharing their ends |
| `Hull.CurveLeft` | private/MuonGun/ExtrudedPolygon.cxx:19-29 | every scanned point lies on or left of every edge of the chain the scan builds |
| `Hull.PushLeft` | private/MuonGun/ExtrudedPolygon.cxx:23-29 | if the scanned points so far lie on or left of every chain edge, they and the new point still do after the pops and the push |
| `Hull.JoinTurnsLeft` | private/MuonGun/ExtrudedPolygon.cxx:68-72 | where one chain ends and the other begins, the polygon turns strictly counter-clockwise, provided each chain lies on or left of the other |
| `Hull.ChainUnique` | private/MuonGun/ExtrudedPolygon.cxx:19-38 | two monotone, strictly counter-clockwise chains with the same ends, each on or left of the other, are the same chain |
| `Hull.SortedJoinedChains` | private/MuonGun/ExtrudedPolygon.cxx:53-56 | the sorted point set of a polygon made of two joined chains runs from the lower chain's first point to the upper chain's first point |
| `Hull.HullOfJoinedChains` | private/MuonGun/ExtrudedPolygon.cxx:48-75 | a polygon made of two joined chains, each on or left of the other and starting at the least and greatest point, is its own convex hull |
| `Hull.HullIdempotent` | python/extruded_polygon.py:7-54 | `convex_hull` of a convex hull is that hull |
| `Hull.HullVerticesDistinct` | python/extruded_polygon.py:7-54 | the convex hull of any input repeats no vertex |
| `Polygon.SidesOf` | private/MuonGun/ExtrudedPolygon.cxx:207-212 | one side per hull vertex: its origin is the vertex and its vector leads to the next vertex, wrapping around |
| `Polygon.FromHull` | private/MuonGun/ExtrudedPolygon.cxx:206-217 | the surface has one side per hull vertex, the side origins are the hull in order, the z range is the one given, and the cap area is the shoelace sum of the hull over two |
| `Polygon.VerticesOfFromHull` | private/MuonGun/ExtrudedPolygon.cxx:206-216 | the vertices read back from a surface are exactly the hull it was built from |
| `Polygon.ZRange` | private/MuonGun/ExtrudedPolygon.cxx:111-123 | the range is the lowest and highest z: both are attained by some position and every position lies between them. There is no range without positions |
| `Polygon.Footprint` | private/MuonGun/ExtrudedPolygon.cxx:164-168 | each position becomes its (x, y) pair, in order |
| `Polygon.Construct` | private/MuonGun/ExtrudedPolygon.cxx:195-218 | no positions is an error. Without padding the vertices are the hull of the footprint; with padding they are `expand_polygon` of that hull, and the constructor fails exactly when the expansion does. The z range is the positions' range widened by the padding at both ends, and the cap area is the shoelace area of the vertices |
| `Polygon.Extrude` | private/MuonGun/ExtrudedPolygon.cxx:201-217 | from a hull and a z range: without padding the vertices are the hull; with padding the construction fails exactly when `expand_polygon` does, and otherwise the vertices are its result and the z range widens by the padding at both ends. The cap area is the shoelace area of the vertices |
| `Polygon.PyConstruct` | python/extruded_polygon.py:89-120 | fails exactly for fewer than three input points; otherwise the vertices are the convex hull, the z range is the one given, and the cap area is the signed area of the hull |
| `Polygon.Faces` | python/extruded_polygon.py:111-119 | the face list has N sides and then two caps. Each side normal is horizontal and perpendicular to its edge; the caps have normals (0,0,±1) and the shoelace area |
| `Polygon.SideNormalsAreUnit` | python/extruded_polygon.py:56-65 | with the true edge lengths every side normal has unit length |
| `Polygon.SideShadowsMatchFaces` | python/extruded_polygon.py:176-180 | the masked sum over the first `k` side faces equals the square-root-free side sum |
| `Polygon.AreaMatchesFaces` | python/extruded_polygon.py:170-180 | `area(dir)`, summed over faces facing `dir` as `-(n·dir)·area`, equals the square-root-free projected area |
| `Polygon.CapShadows` | python/extruded_polygon.py:115-119 | the two caps contribute `|dir.z|` times the cap area |
| `Polygon.AreaNonNegative` | python/extruded_polygon.py:176-180 | the projected area is never negative when the height and the cap area are not |
| `Polygon.AreaFromAboveIsCapArea` | python/extruded_polygon.py:170-180 | seen along ±z the projected area is the cap area |
| `Polygon.SideFace` | python/extruded_polygon.py:56-65 | side face `i` has the normal `(v.y/l, -v.x/l, 0)` of its edge vector `v` with length `l`, and the area `l` times the height |
| `Polygon.ColumnSum` | python/extruded_polygon.py:176-180 | summing column `j` of the broadcast product over the first `k` rows gives face `j`'s masked inner product times the total area of those `k` faces |
| `Polygon.AreaAsWritten` | python/extruded_polygon.py:170-180 | as written, a single direction gives one value per face: entry `j` is minus face `j`'s masked inner product times the total area of all faces |
| `Polygon.AreaAsWrittenIsScaledShadow` | python/extruded_polygon.py:170-180 | entry `j` of the as-written result, times face `j`'s area, is face `j`'s contribution to the projected area times the total area of all faces |
| `Polygon.Normalized` | private/MuonGun/ExtrudedPolygon.cxx:170-175 | with the true `hypot` a vector has a unit-length normalized vector; a normalized vector times the length gives back the vector |
| `Polygon.OffsetPrefix` | private/MuonGun/ExtrudedPolygon.cxx:89-106 | the loop succeeds exactly when each of the first `k` vertex offsets succeeds, and then returns those offsets in order |
| `Polygon.ExpandPolygon` | private/MuonGun/ExtrudedPolygon.cxx:86-109 | `expand_polygon` succeeds exactly when every vertex can be offset, and keeps the vertex count |
| `Polygon.ExpandFailsOnParallelEdges` | private/MuonGun/ExtrudedPolygon.cxx:100-103 | on edges of non-zero length, the expansion fails exactly when the incoming and outgoing edges of some vertex are parallel or antiparallel |
| `Polygon.OffsetVertexOnBothLines` | private/MuonGun/ExtrudedPolygon.cxx:96-105 | an offset vertex lies at outward distance `padding` from the lines of both edges meeting at the old vertex |
| `Polygon.ExpandMovesEdgesOut` | python/extruded_polygon.py:122-139 | every vertex of the expanded polygon lies at outward distance `padding` from both edges that met at the old vertex |
| `Polygon.ExpandedEdgeParallel` | python/extruded_polygon.py:126-139 | each edge of the expanded polygon is parallel to the edge it came from |
| `Polygon.PyExpand` | python/extruded_polygon.py:122-143 | `expand` succeeds exactly when every vertex can be offset and the surface has at least three vertices. It widens the z range by `padding` at both ends, and its vertices are the hull of the offset points |
| `Polygon.GetX` | private/MuonGun/ExtrudedPolygon.cxx:239-246 | one x per side: the x of its origin |
| `Polygon.GetY` | private/MuonGun/ExtrudedPolygon.cxx:248-255 | one y per side: the y of its origin |
| `Polygon.GetZ` | private/MuonGun/ExtrudedPolygon.cxx:257-265 | the bottom of the z range, then its top; their difference is the height |
| `Polygon.SameOriginsMeansEqualVertices` | private/MuonGun/ExtrudedPolygon.cxx:229-233 | the loop over the sides finds no difference exactly when all origins agree |
| `Polygon.EqualsIffSameAccessors` | private/MuonGun/ExtrudedPolygon.cxx:220-237 | `operator==` holds exactly for another extruded polygon with the same `GetX`, `GetY` and `GetZ`, and never for another kind of surface |
| `Polygon.EqualsIffSameSurface` | private/MuonGun/ExtrudedPolygon.cxx:220-237 | for surfaces built from hulls, `operator==` is equality of the whole derived geometry |
| `Convexity.HullEdges` | private/MuonGun/ExtrudedPolygon.cxx:64-72 | the closed hull's edges are the edges of the lower chain and then of the upper chain, and every input point lies on or left of each |
| `Convexity.HullContainsInput` | python/extruded_polygon.py:7-12 | `convex_hull` contains its input: every input point lies on or left of every edge of the closed hull, the closing edge included |
| `Convexity.JoinedChainsTurnLeft` | private/MuonGun/ExtrudedPolygon.cxx:64-72 | two joined chains, each on or left of the other, turn strictly counter-clockwise at every vertex of the closed polygon, the two joins included |
| `Convexity.HullCyclicCcw` | python/extruded_polygon.py:7-12 | every three cyclically consecutive hull vertices turn strictly counter-clockwise when the hull has at least three |
| `Convexity.ShoelaceIsFan` | python/extruded_polygon.py:75-83 | the shoelace sum up to a vertex, closed back to the first vertex, is the sum of the cross products of the fan of triangles from the first vertex |
| `Convexity.SignedAreaIsFan` | python/extruded_polygon.py:75-83 | `signed_area` is half the fan of triangles from the first vertex |
| `Convexity.HullAreaPositive` | python/extruded_polygon.py:75-83 | `signed_area` of the convex hull is positive with at least three vertices and zero otherwise, as its documentation promises for counter-clockwise points |
| `Convexity.PyConstructAreaNonNegative` | python/extruded_polygon.py:89-120 | for an ordered z range the Python constructor's surface projects a non-negative area in every direction, and its cap area is positive once the hull has three vertices |
| `Convexity.ConstructAreaNonNegative` | private/MuonGun/ExtrudedPolygon.cxx:195-218 | without padding the C++ constructor's surface projects a non-negative area in every direction |
| `Inside.SideCrossesRightIffRises` | private/MuonGun/ExtrudedPolygon.cxx:316-324 | for a point strictly left of a side, the side is counted exactly when it spans the point's height going upward |
| `Inside.CrossingsOfOnlyCrossing` | private/MuonGun/ExtrudedPolygon.cxx:310-325 | when exactly one side is counted, the count over the first `k` sides is 1 if that side is among them and 0 otherwise |
| `Inside.OneRisingEdge` | private/MuonGun/ExtrudedPolygon.cxx:316-318 | on a hull made of two joined chains at most one edge spans a given height going upward |
| `Inside.InsideSomeEdgeRises` | private/MuonGun/ExtrudedPolygon.cxx:316-318 | for a point strictly inside a strictly convex counter-clockwise polygon some edge spans its height going upward |
| `Inside.StrictlyInsideCrossesOnce` | private/MuonGun/ExtrudedPolygon.cxx:306-329 | a point strictly left of every edge of such a hull crosses exactly one side |
| `Inside.StrictlyInsideIsInHull` | private/MuonGun/ExtrudedPolygon.cxx:306-329 | `PointInHull` holds for every point strictly left of every edge of the convex hull: exactly one side is counted |
| `Intersection.FromHullIsClosed` | private/MuonGun/ExtrudedPolygon.cxx:207-212 | in a surface built from a hull each side ends at the origin of the next, wrapping around |
| `Intersection.NoStraddleNoCrossings` | private/MuonGun/ExtrudedPolygon.cxx:316-319 | sides whose y range does not span the point's y are never counted |
| `Intersection.PointOutsideYRangeIsOutside` | private/MuonGun/ExtrudedPolygon.cxx:306-329 | a point above every vertex or at or below every vertex is outside the hull |
| `Intersection.NoCrossingRightOfEnds` | private/MuonGun/ExtrudedPolygon.cxx:320-324 | the crossing of a side lies between its end x's, so a side with both ends at or left of the point is not counted |
| `Intersection.RightOfVerticesNoCrossings` | private/MuonGun/ExtrudedPolygon.cxx:310-325 | for a point at or right of every vertex, no side is counted |
| `Intersection.PointRightOfHullIsOutside` | private/MuonGun/ExtrudedPolygon.cxx:306-329 | a point at or right of every vertex is outside the hull |
| `Intersection.Crossings` | private/MuonGun/ExtrudedPolygon.cxx:310-325 | the count over the first `k` sides is at most `k` |
| `Intersection.SideHit` | private/MuonGun/ExtrudedPolygon.cxx:279-300 | a side is hit only when the ray is not parallel to it and the meeting point is at `0 <= alpha < 1` along it |
| `Intersection.SideHitIsCrossing` | private/MuonGun/ExtrudedPolygon.cxx:282-292 | the distance `beta` reported for a side puts the ray's (x, y) on the side, at `alpha` along it |
| `Intersection.CrossingIsSideHit` | private/MuonGun/ExtrudedPolygon.cxx:282-292 | if the ray at distance `t` meets the side's line at `a`, then `a` is `alpha`, and the side reports `t` exactly when `0 <= a < 1` |
| `Intersection.HitFromSolution` | private/MuonGun/ExtrudedPolygon.cxx:288-292 | any `t` that solves both coordinates of the meeting point is the reported `beta` |
| `Intersection.SideHits` | private/MuonGun/ExtrudedPolygon.cxx:276-300 | one distance per side, each the one that side reports |
| `Intersection.NanMin` | python/extruded_polygon.py:221-224 | `nanmin` is NaN exactly when every entry is. Otherwise it is an entry, at most every number among them |
| `Intersection.NanMax` | python/extruded_polygon.py:221-224 | `nanmax` is NaN exactly when every entry is. Otherwise it is an entry, at least every number among them |
| `Intersection.HullScanIsMinMax` | private/MuonGun/ExtrudedPolygon.cxx:276-303 | the loop with the reversed comparisons computes the NaN-ignoring minimum and maximum of the hits of the first `k` sides |
| `Intersection.DistanceToHull` | private/MuonGun/ExtrudedPolygon.cxx:267-304 | (corrected guard) fails exactly when the direction has no horizontal component; otherwise gives the nearest and farthest side hits |
| `Intersection.DistanceToHullAsWritten` | private/MuonGun/ExtrudedPolygon.cxx:269-304 | fails exactly when `dir.x + dir.y == 0`; otherwise agrees with the corrected version |
| `Intersection.CapHit` | private/MuonGun/ExtrudedPolygon.cxx:331-340 | (corrected sign) a reported cap distance takes the ray to the cap's z |
| `Intersection.CapHitIsCrossing` | private/MuonGun/ExtrudedPolygon.cxx:331-340 | the distance at which the ray reaches the cap plane is reported exactly when that point lies in the hull |
| `Intersection.CapHitAsWritten` | private/MuonGun/ExtrudedPolygon.cxx:334-339 | as written, a reported distance `r` is one at which the ray travelled backwards, `p - r*dir`, reaches the cap's z |
| `Intersection.CapHitAsWrittenIsReflected` | private/MuonGun/ExtrudedPolygon.cxx:331-340 | if the ray reaches the cap's z at distance `t`, the as-written distance is `-t`, reported exactly when the mirrored point `p - t*dir` lies in the hull; it is NaN exactly when that mirrored point is outside |
| `Intersection.DistanceToCaps` | private/MuonGun/ExtrudedPolygon.cxx:342-346 | (corrected sign) each reported cap distance takes the ray to one of the two cap heights, and two reported distances are ascending |
| `Intersection.DistanceToCapsAsWritten` | private/MuonGun/ExtrudedPolygon.cxx:342-346 | as written, each reported distance takes the ray travelled backwards to a cap height, and two reported distances are ascending |
| `Intersection.MakeOrderedPair` | private/MuonGun/ExtrudedPolygon.cxx:148-155 | the pair is the two values in some order; two numbers come out ascending and a NaN leaves the order unchanged |
| `Intersection.SortedPairIsOrderedPair` | python/extruded_polygon.py:233-234 | Python's `sorted` of the two cap distances equals `make_ordered_pair`, NaN included |
| `Intersection.MinElementIsNanMin` | private/MuonGun/ExtrudedPolygon.cxx:126-135 | `min_element` with `nan_less` picks the NaN-ignoring minimum |
| `Intersection.MinElementIsNanMax` | private/MuonGun/ExtrudedPolygon.cxx:137-146 | `min_element` with `nan_greater` picks the NaN-ignoring maximum |
| `Intersection.MinElement` | private/MuonGun/ExtrudedPolygon.cxx:366-368 | `min_element` returns an element of the range it scans |
| `Intersection.Candidates` | private/MuonGun/ExtrudedPolygon.cxx:357-368 | the combined list holds one distance per side, each the side's own, followed, for a non-horizontal ray, by two distances at which the ray reaches a cap height |
| `Intersection.NoSideHitsWhenVertical` | private/MuonGun/ExtrudedPolygon.cxx:351-353 | a vertical ray hits no side, so the caps alone decide |
| `Intersection.VerticalIntersection` | private/MuonGun/ExtrudedPolygon.cxx:351-353 | for a vertical ray the answer is the nearest and farthest of all crossings |
| `Intersection.ObliqueIntersection` | private/MuonGun/ExtrudedPolygon.cxx:357-371 | for an oblique ray, combining the sides and the caps with the NaN orderings gives the nearest and farthest of all crossings |
| `Intersection.GetIntersectionIsNearestAndFarthest` | private/MuonGun/ExtrudedPolygon.cxx:348-372 | the corrected `GetIntersection` returns the nearest and farthest boundary crossing for every unit direction, NaN when there is none |
| `Intersection.GetIntersectionAsWritten` | private/MuonGun/ExtrudedPolygon.cxx:348-372 | fails exactly for a non-vertical ray with `dir.x + dir.y == 0`. A vertical ray gets the as-written cap distances; a horizontal ray agrees with the corrected version; any other ray gets the NaN-ignoring minimum and maximum of its side distances divided by `sin_zenith` and its as-written cap distances |
| `Scenarios.SquareFromHull` | python/extruded_polygon.py:100-115 | the counter-clockwise 10 by 10 square over z in [0, 100] builds the expected closed four-sided surface |
| `Scenarios.SquareCapArea` | private/MuonGun/ExtrudedPolygon.cxx:214-217 | the shoelace area of the square is 100 |
| `Scenarios.SquareSides` | private/MuonGun/ExtrudedPolygon.cxx:190-193 | the square's edge vectors alternate horizontal and vertical |
| `Scenarios.SquareSorted` | python/extruded_polygon.py:21-23 | the four corners of the square, in scrambled order, sort to (0,0), (0,10), (10,0), (10,10) |
| `Scenarios.ChainDropsSecond` | private/MuonGun/ExtrudedPolygon.cxx:23-29 | a four-point scan whose second point makes no left turn drops it, giving the first, third and fourth points |
| `Scenarios.SquareHull` | private/MuonGun/ExtrudedPolygon.cxx:48-75 | the convex hull of the four corners is the square, counter-clockwise from (0,0) |
| `Scenarios.SquareFromCorners` | python/extruded_polygon.py:89-120 | the Python constructor over the four corners and z range [0, 100] builds the square prism, with cap area 100 |
| `Scenarios.SquareFaces` | python/extruded_polygon.py:111-119 | the square prism has four side faces of area 1000 with normals -y, +x, +y, -x, and two caps of area 100 |
| `Scenarios.SquareFacesAsWritten` | python/extruded_polygon.py:176-180 | on those faces the as-written single-direction `area` along +x gives `[0, 0, 0, 4200, 0, 0]` |
| `Scenarios.SquareTotalArea` | python/extruded_polygon.py:114-118 | the faces of the square prism have total area 4200 |
| `Scenarios.SquareAreaAlongX` | python/extruded_polygon.py:176-180 | seen along +x the square prism projects an area of 1000 |
| `Scenarios.SquareAreaAsWritten` | python/extruded_polygon.py:170-180 | for the square prism along +x, `area` as written returns the vector `[0, 0, 0, 4200, 0, 0]` where the projected area is 1000 |
| `Scenarios.BoxCrossings` | private/MuonGun/ExtrudedPolygon.cxx:316-324 | at mid-height the ray-casting count is one per vertical side strictly to the right of the point |
| `Scenarios.MidHeightMembership` | private/MuonGun/ExtrudedPolygon.cxx:306-329 | at y = 5 a point is in the square exactly when `0 <= x < 10` |
| `Scenarios.DiagonalRayRejected` | private/MuonGun/ExtrudedPolygon.cxx:273-274 | the unit direction (2/3, -2/3, 1/3) is rejected as written but accepted by the corrected guard |
| `Scenarios.UpwardRayCaps` | private/MuonGun/ExtrudedPolygon.cxx:331-353 | the upward ray from (5, 5, -10) gives (10, 110) corrected but (-110, -10) as written, and the as-written point at -10 lies on neither cap |
| `Scenarios.UpwardCapHit` | private/MuonGun/ExtrudedPolygon.cxx:334 | for that ray the cap at height `z` is at `z + 10` corrected and at `-10 - z` as written |
| `Scenarios.ObliqueSideHits` | private/MuonGun/ExtrudedPolygon.cxx:276-300 | the ray from (5, 5, 50) along (0.6, 0, 0.8) hits the square's right side at 25/3 and its left side at -25/3 |
| `Scenarios.ObliqueCapsMissed` | private/MuonGun/ExtrudedPolygon.cxx:331-346 | that ray misses both caps, corrected and as written |
| `Scenarios.ObliqueHullDistance` | private/MuonGun/ExtrudedPolygon.cxx:267-304 | the side part of that query is (-25/3, 25/3) |
| `Scenarios.ObliqueMissingCaps` | private/MuonGun/ExtrudedPolygon.cxx:357-371 | an oblique ray that misses both caps reports its nearest and farthest side hits |
| `Scenarios.ObliqueMissingCapsAsWritten` | private/MuonGun/ExtrudedPolygon.cxx:359-368 | as written, such a ray reports its side hits divided by `sin_zenith` |
| `Scenarios.TwoHitsAndTwoMisses` | private/MuonGun/ExtrudedPolygon.cxx:363-368 | `min_element` over two ordered numbers followed by two NaNs gives the two numbers |
| `Scenarios.ObliqueRay` | private/MuonGun/ExtrudedPolygon.cxx:357-371 | the oblique ray gives (-25/3, 25/3) corrected but (-125/9, 125/9) as written |
| `Scenarios.ObliqueAsWrittenPointOutside` | private/MuonGun/ExtrudedPolygon.cxx:361-365 | the as-written far distance 125/9 leads to a point outside the hull |
| `Histogram.GeneralEdges` | private/MuonGun/histogram.h:31-38 | the stored edges are the given ones, preceded by -inf unless they start with it and followed by +inf unless they end with it |
| `Histogram.GeneralEdgesBracketed` | private/MuonGun/histogram.h:31-38 | sorted edges stay sorted once bracketed |
| `Histogram.GeneralEdgesIdempotent` | private/MuonGun/histogram.h:31-38 | bracketing bracketed edges again changes nothing |
| `Histogram.UpperBound` | private/MuonGun/histogram.h:45-47 | `upper_bound` gives the position of the first edge above the value; every edge before it is at most the value |
| `Histogram.UpperBoundSplitsSorted` | private/MuonGun/histogram.h:45-47 | on sorted edges every edge from that position on lies above the value |
| `Histogram.UpperBoundUnique` | private/MuonGun/histogram.h:45-47 | the upper bound is the only position with that split |
| `Histogram.UpperBoundSearch` | private/MuonGun/histogram.h:45-47 | the binary search over sorted edges finds the upper bound |
| `Histogram.GeneralIndexAsWritten` | private/MuonGun/histogram.h:43-50 | the asserted `j > 0` holds on bracketed edges, and the returned bin's lower edge is at most the value |
| `Histogram.GeneralIndexAsWrittenInRange` | private/MuonGun/histogram.h:43-50 | every value below +inf gets a bin of the datacube |
| `Histogram.GeneralIndexAsWrittenOfPosInf` | private/MuonGun/histogram.h:43-50 | +inf gets index `|edges| - 1`, one past the last bin |
| `Histogram.GeneralIndex` | private/MuonGun/histogram.h:43-50 | (+inf in the last bin) the index is a bin of the datacube whose edges bracket the value, and it agrees with the source below +inf |
| `Histogram.GeneralIndexIsTheBracket` | private/MuonGun/histogram.h:43-50 | the general index is the only bin bracketing the value |
| `Histogram.UniformEdges` | private/MuonGun/histogram.h:83-93 | `nsteps + 2` edges: -inf, `nsteps` evenly spaced edges from `low` to `high`, then +inf |
| `Histogram.UniformEdgeIncreasing` | private/MuonGun/histogram.h:90-91 | for `low < high` the interior edges strictly increase |
| `Histogram.UniformEdgesBracketed` | private/MuonGun/histogram.h:83-93 | uniform edges are sorted and bracketed |
| `Histogram.UniformIndex` | private/MuonGun/histogram.h:98-107 | below `low` the bin is 0, at or above `high` the last bin `nsteps`, in between an interior bin |
| `Histogram.UniformInteriorIndex` | private/MuonGun/histogram.h:104-105 | `floor((n-1)*imap(x)) + 1` is an interior bin, between 1 and `n - 1` |
| `Histogram.UniformIndexBrackets` | private/MuonGun/histogram.h:98-107 | every value lands in the uniform bin whose edges bracket it, with +inf in the last bin |
| `Histogram.UniformMatchesGeneral` | private/MuonGun/histogram.h:28-107 | a uniform scheme bins every value as the general scheme on the same edges does |
| `Histogram.Edges` | private/MuonGun/histogram.h:170-176 | every scheme's edges are sorted and bracketed, with one more edge than bins |
| `Histogram.Index` | private/MuonGun/histogram.h:21-26 | `scheme::index` is a bin of the scheme |
| `Histogram.IndexBrackets` | private/MuonGun/histogram.h:21-26 | the bin `index` picks brackets the value, with +inf in the last bin |
| `Histogram.Dims` | private/MuonGun/histogram.h:170-176 | each dimension has one bin fewer than its scheme has edges |
| `Histogram.OffsetInRange` | private/MuonGun/histogram.h:198-200 | the row-major position of a cell in the box lies inside the datacube |
| `Histogram.OffsetInjective` | private/MuonGun/histogram.h:198-200 | different cells of the box have different positions |
| `Histogram.MakeDatacube` | private/MuonGun/histogram.h:170-183 | the datacube has one entry per cell, every content and squared weight starting at zero |
| `Histogram.FromEdges` | private/MuonGun/histogram.h:130-137 | the histogram built from edge lists stores each list bracketed by ±inf |
| `Histogram.Cell` | private/MuonGun/histogram.h:156-161 | a point's cell is the bin of each coordinate in its dimension |
| `Histogram.CellInBox` | private/MuonGun/histogram.h:154-163 | the cell of a point without NaN lies in the datacube |
| `Histogram.CellBrackets` | private/MuonGun/histogram.h:156-161 | in every dimension the edges of a point's bin bracket its coordinate |
| `Histogram.CellOffset` | private/MuonGun/histogram.h:163 | a point's position in the datacube is in range |
| `Histogram.Bump` | private/MuonGun/histogram.h:163-164 | one cell gains `w` in content and `w*w` in squared weight; every other cell is unchanged |
| `Histogram.Fill` | private/MuonGun/histogram.h:154-165 | the state it leaves is `Filled`. A point with a NaN coordinate leaves the histogram unchanged; otherwise exactly its cell gains the weight and the squared weight, and every other cell is unchanged. A coordinate at +inf falls in the last bin, through the corrected `GeneralIndex` (see "## Findings") |
| `Histogram.Locate` | private/MuonGun/histogram.h:156-161 | the loop finds a cell exactly when no coordinate is NaN, and then finds the point's cell |
| `Histogram.Filled` | private/MuonGun/histogram.h:154-165 | filling keeps the schemes, the edges and the datacube's shape |
| `Histogram.FillAddsWeight` | private/MuonGun/histogram.h:154-165 | filling a point without NaN adds `w` to the total content and `w*w` to the total squared weight; with a NaN it adds nothing |
| `Histogram.BumpAddsWeight` | private/MuonGun/histogram.h:163-164 | one bump adds `w` to the total content and `w*w` to the total squared weight |
| `Histogram.BumpsCommute` | private/MuonGun/histogram.h:163-164 | two bumps commute |
| `Histogram.FillsCommute` | private/MuonGun/histogram.h:154-165 | two fills commute: the histogram does not remember their order |
| `Histogram.SameCellIffSameBins` | private/MuonGun/histogram.h:156-163 | two points share a datacube entry exactly when they share a bin in every dimension |
| `Track.RunningSums` | private/MuonGun/Track.cxx:30-36 | one loss record per secondary |
| `Track.RunningSumsAt` | private/MuonGun/Track.cxx:31-35 | record `i` is at secondary `i`'s distance and holds the total energy of secondaries `0..i` |
| `Track.RunningSumsIncrease` | private/MuonGun/Track.cxx:31-35 | with non-negative secondary energies the running sums never decrease |
| `Track.CollectLosses` | private/MuonGun/Track.cxx:30-36 | the loop over the secondaries produces the running sums and the total energy lost |
| `Track.Build` | private/MuonGun/Track.cxx:16-48 | the constructor makes two checkpoints, plus one each for a positive entry and exit energy. It makes one loss record per secondary, entry and exit, plus a final one. The first checkpoint is the vertex with the full energy, the last is at the length with no energy, and the final record holds the losses since the last reset |
| `Track.BuildLayout` | private/MuonGun/Track.cxx:16-48 | every constructed track has the layout that the `GetEnergy` comment relies on |
| `Track.LowerBound` | private/MuonGun/Track.cxx:67-69 | `lower_bound` on the checkpoints returns the first checkpoint at or beyond the query |
| `Track.LossLowerBound` | private/MuonGun/Track.cxx:75-76 | `lower_bound` on the loss records `[l1, l2)` returns the first record at or beyond the query |
| `Track.LossUpperBound` | private/MuonGun/Track.cxx:75-76 | the upper bound is past every record at or before the query and at the first record beyond it |
| `Track.LossSoFarAsWritten` | private/MuonGun/Track.cxx:75-76 | as written, the loss read is that of the first record at or beyond the query; it is missing exactly when the search runs past the last record |
| `Track.LossSoFar` | private/MuonGun/Track.cxx:75-76 | (corrected) the loss so far is the running sum of the last record at or before the query, and 0 when the first record is already beyond it |
| `Track.ReadSegmentAsWritten` | private/MuonGun/Track.cxx:72-80 | as written, a successful read returns checkpoint `cp` and the next one, at different distances, with the loss of the first record at or beyond the query |
| `Track.ReadSegment` | private/MuonGun/Track.cxx:72-80 | (corrected loss lookup) a successful read returns checkpoint `cp` and the next one, at different distances, and the loss so far is the running sum of the last loss record at or before the query in that segment, or 0 when there is none |
| `Track.SegmentEnergy` | private/MuonGun/Track.cxx:78-81 | (corrected rate) at the segment's start the energy is the start checkpoint's minus the losses so far; at its end it is the next checkpoint's plus the segment's stochastic losses not yet counted |
| `Track.SegmentEnergyAsWritten` | private/MuonGun/Track.cxx:78-81 | as written, at the segment's start the energy is the start checkpoint's minus the losses so far; at its end it is twice the start energy minus the next, plus the stochastic losses not yet counted |
| `Track.SegmentEnergyHitsCheckpoints` | private/MuonGun/Track.cxx:78-81 | (corrected rate) the energy is the start checkpoint's at its distance before any loss, and the next checkpoint's at its distance after every loss |
| `Track.SegmentEnergyAsWrittenOvershoots` | private/MuonGun/Track.cxx:79-81 | with the rate as written the energy at the end of a segment is `2*start - next`, whatever the losses |
| `Track.SegmentEnergyAsWrittenExample` | private/MuonGun/Track.cxx:79-81 | a segment from 100 to 50 over length 10 with no stochastic loss ends at 150 as written, and at 50 corrected |
| `Track.GetEnergyAsWritten` | private/MuonGun/Track.cxx:60-84 | a query that is NaN, infinite, negative or at least the length gives 0 |
| `Track.StartCheckpoint` | private/MuonGun/Track.cxx:65-69 | (corrected lookup) the chosen checkpoint is at or before the query, and the next one is beyond it |
| `Track.GetEnergy` | private/MuonGun/Track.cxx:60-84 | out of range the energy is 0 |
| `Track.GetEnergyInBounds` | private/MuonGun/Track.cxx:65-66 | on a track with the constructor's layout, an in-range query finds checkpoints `cp` and `cp+1` around it, and every read stays in range |
| `Track.BuiltTrackHasEnergy` | private/MuonGun/Track.cxx:16-84 | every in-range query of a constructed track has an energy |
| `Track.LowerBoundRunsOffEnd` | private/MuonGun/Track.cxx:65-73 | as written, a query beyond every checkpoint but the last reads past the last checkpoint |
| `Track.LowerBoundExample` | private/MuonGun/Track.cxx:65-81 | a length-10 track queried at 5 fails as written and gives 50 of the initial 100 corrected |
| `Track.GetEnergyAtVertex` | private/MuonGun/Track.cxx:16-84 | for every constructed track of positive length whose MMC crossing and secondaries lie beyond the vertex, the energy at distance 0 is the initial energy |
| `Track.GetEnergyAtStart` | private/MuonGun/Track.cxx:60-84 | on a track whose first segment records no loss at its start, the energy at distance 0 is the first checkpoint's |
| `Track.LossLookupCountsLossAhead` | private/MuonGun/Track.cxx:75-81 | a length-10 track of energy 100 with one loss of 10 at distance 5 reads that loss already at distance 0 as written, giving 90; corrected it gives 100 |
| `Track.GetPos` | private/MuonGun/Track.cxx:86-96 | the position is defined exactly for queries in `[0, length)` |
| `Track.GetPosDisplacement` | private/MuonGun/Track.cxx:91-95 | the vertex is the position at distance 0, and two positions differ by the distance between them times the direction |
| `Track.Delay` | private/MuonGun/Track.cxx:104 | at a non-zero speed, the delay times the speed is the distance. At zero speed the result is NaN for distance 0 and +inf for a positive distance |
| `Track.GetTime` | private/MuonGun/Track.cxx:98-105 | out of range the time is NaN |
| `Track.GetTimeAlongTrack` | private/MuonGun/Track.cxx:98-105 | at positive speed the time starts at the vertex time and strictly increases along the track, by the distance over the speed |
| `Track.DistanceOfTimeAsWritten` | private/MuonGun/Track.cxx:26 | as written, a time becomes the distance that, multiplied by the speed, gives the time since the vertex |
| `Track.DistanceOfTime` | private/MuonGun/Track.cxx:98-105 | (corrected) a time becomes the distance that, divided by the speed, gives the time since the vertex, which is what `GetTime` adds |
| `Track.Placed` | private/MuonGun/Track.cxx:31-36 | each daughter becomes a secondary at the distance of its time, with its energy, in order |
| `Track.BuildFromTimesAsWritten` | private/MuonGun/Track.cxx:16-48 | the constructor from the MMC record and the daughters' times, with the conversion as written, keeps the speed, the vertex time and the length, and has a loss record per daughter |
| `Track.BuildFromTimes` | private/MuonGun/Track.cxx:16-48 | (corrected) the same constructor with each time converted into the distance flown by then |
| `Track.SecondaryRecord` | private/MuonGun/Track.cxx:20-36 | the loss record of secondary `k` is the `k`-th after the entry record, when there is one, at the secondary's distance |
| `Track.DistanceOfTimeInvertsGetTime` | private/MuonGun/Track.cxx:98-105 | at positive speed, the distance of the time `GetTime` gives is the distance queried, and `GetTime` at the distance of a time within the track is that time |
| `Track.DistanceOfTimeAsWrittenMisplaces` | private/MuonGun/Track.cxx:26-41 | as written, the distance is the true one divided by the speed squared, so at a positive speed other than 1 `GetTime` there never gives back a time other than the vertex time |
| `Track.BuildFromTimesPlacesSecondaries` | private/MuonGun/Track.cxx:31-36 | (corrected) `GetTime` at the loss record of each daughter flown to within the track is that daughter's time |
| `Track.BuildFromTimesAsWrittenMisplaces` | private/MuonGun/Track.cxx:31-36 | as written, at a positive speed other than 1, `GetTime` at the loss record of a daughter later than the vertex is never its time |
| `Track.SecondaryPlacementExample` | private/MuonGun/Track.cxx:31-36 | a daughter 20 ns after the vertex of a track at 0.5 m/ns is recorded at 40 m as written and at 10 m corrected |
| `Weighting.Call` | python/weighting.py:71-77 | zero outside `[emin, emax)` or for another particle type; otherwise `nevents` times the density |
| `Weighting.Scale` | python/weighting.py:31-41 | scaling keeps the shape and multiplies the event count by the factor |
| `Weighting.ScaleLinear` | python/weighting.py:31-41 | a scaled spectrum returns the scaled value, and two scalings compose into one |
| `Weighting.IsCompatible` | python/weighting.py:218-222 | true exactly for two power laws with the same slope, range and particle type. A Hoerandel spectrum raises `NotImplementedError` |
| `Weighting.CompatibilityIsSymmetric` | python/weighting.py:218-222 | between power laws compatibility is reflexive and symmetric |
| `Weighting.Iadd` | python/weighting.py:52-60 | it succeeds exactly for compatible spectra, keeping the shape and adding the event counts. Another type raises `TypeError`, and an incompatible power law raises `ValueError` |
| `Weighting.IaddAddsCalls` | python/weighting.py:52-56 | the pooled spectrum returns the sum of what the two returned, at every energy |
| `Weighting.AddAsWritten` | python/weighting.py:62-69 | compatible spectra add like `+=`, and spectra of different types make a collection. Two power laws of one type that are not compatible give `None`, and a Hoerandel spectrum raises `NotImplementedError` |
| `Weighting.AddAsWrittenLosesIncompatible` | python/weighting.py:62-69 | two power laws with different ranges give `None` under `+`, while `+=` raises `ValueError` |
| `Weighting.Add` | python/weighting.py:62-69 | (corrected) spectra of different types make a collection |
| `Weighting.AddAgreesWithIadd` | python/weighting.py:52-69 | on spectra of one type, `a + b` succeeds exactly when `a += b` does, with the same result or the same error, and never gives `None` |
| `Weighting.Insert` | python/weighting.py:124-125 | the spectrum is appended to the list of its particle type, and every other list is unchanged |
| `Weighting.FromSpectra` | python/weighting.py:121-125 | the constructor's collection lists each particle type once, and lists exactly the types that have spectra |
| `Weighting.FromSpectraGroups` | python/weighting.py:121-125 | each type's list is the input spectra of that type, in input order, and no listed type is empty |
| `Weighting.Group` | python/weighting.py:121-125 | the constructor's loop computes that collection |
| `Weighting.InsertAddsCall` | python/weighting.py:124-129 | inserting a spectrum adds what it returns to the collection's sum |
| `Weighting.GroupingKeepsCall` | python/weighting.py:121-129 | a collection returns the sum of what its input spectra return |
| `Weighting.CollectionScale` | python/weighting.py:143-156 | scaling a collection scales every member and keeps the types |
| `Weighting.CallAllScales` | python/weighting.py:143-147 | scaling every spectrum of a list scales their summed value |
| `Weighting.CollectionScaleLinear` | python/weighting.py:143-162 | a scaled collection returns the scaled value, with or without a particle type |
| `Weighting.FirstCompatible` | python/weighting.py:176-181 | the scan stops at the first compatible member, after members all reported incompatible. It reports none only if all are incompatible, and fails only where a Hoerandel member raises |
| `Weighting.IaddSpectrum` | python/weighting.py:175-182 | adding a spectrum changes only its own type's list, and raises only `NotImplementedError`. It succeeds whenever that list holds only power laws |
| `Weighting.IaddSpectrumMerges` | python/weighting.py:176-181 | the added spectrum is pooled into the first compatible member or appended, and its type's event count grows by exactly its events |
| `Weighting.MergeAddsCall` | python/weighting.py:176-179 | pooling into a compatible member adds what the spectrum returns to the collection's sum |
| `Weighting.IaddSpectrumAddsCall` | python/weighting.py:175-182 | adding a spectrum adds what it returns to the collection's sum |
| `Weighting.IaddAll` | python/weighting.py:164-174 | adding spectra one after another keeps the collection well formed |
| `Weighting.IaddCollection` | python/weighting.py:164-174 | adding a well-formed collection, whose dictionary keys are its spectra's particle types, keeps the collection well formed |
| `Weighting.IaddAllAddsCall` | python/weighting.py:164-174 | adding spectra one after another adds the sum of what they return |
| `Weighting.MembersCall` | python/weighting.py:127-129 | the spectra of a collection in iteration order return, together, what the collection returns |
| `Weighting.IaddCollectionAddsCall` | python/weighting.py:164-174 | adding a well-formed collection adds what it returns |
| `Fluxes.LookupExpr` | python/fluxes.py:25-28 | the expression has one `where` per mapping entry |
| `Fluxes.LookupExprIsTable` | python/fluxes.py:21-28 | evaluated at `x`, the expression gives the default when no key equals `x`, and otherwise the value of the first entry whose key equals `x` |
| `Fluxes.DistinctKeysLookup` | python/fluxes.py:21-28 | with distinct keys the expression gives each entry's value at its key |
| `Fluxes.BuildLookup` | python/fluxes.py:25-28 | the returned text is the rendering of the lookup expression |
| `Fluxes.BuildLookupShape` | python/fluxes.py:25-28 | when the name, keys and values print without parentheses, the text's parentheses balance. Every opening one ends a `where(`, and there are as many as there are entries |

## Left out

- `ExtrudedPolygon::from_I3Geometry`, `from_file` and `Track::Harvest`: these read a geometry frame, a text file or an `I3MCTree`. They are I/O and tree walks; the model starts from the positions, the track's crossing data and its list of secondaries.
- `Track.Build`: the constructor converts the MMC entry and exit times and every daughter's time into distances (private/MuonGun/Track.cxx:26, 34 and 41), dividing the time since the vertex by `GetSpeed()`. `Track.Build` takes those distances as given; the conversion is modelled by `Track.BuildFromTimesAsWritten` and, corrected, by `Track.BuildFromTimes` (see "## Findings"). The energy results about `Track.Build` hold for any placement that meets their requires, whichever conversion produced it.
- `Track.DistanceOfTimeAsWritten`: a zero speed, for which the source's division gives infinite or NaN distances, is not modelled.
- `uniform` with a `log10` or power transformation, and with `nsteps < 2` or `low >= high`. Only the identity transformation is modelled. The transformations only move the edges, which `Histogram.UniformMatchesGeneral` relates to the general scheme.
- numpy array arguments of `GenerationProbability.__call__`: the model evaluates one energy at a time.
- `Polygon.Area`: this is `area` for an array of directions, taken one direction (one column of the result) at a time. Called with one direction, `area` broadcasts to a matrix and returns one value per face; that path is `Polygon.AreaAsWritten` (see "## Findings").
- `Weighting.CollectionCall`: `defaultdict` creating an empty entry when a missing particle type is read is not modelled. Reading a missing type gives zero, which is what the sum returns.
- Aliasing: `copy.copy` shares dictionaries and `*=` scales objects in place. The model uses values, so one object scaled through two names is not modelled.
- `__idiv__` and `__div__` of both classes: they divide by a factor, which is `Weighting.Scale` / `Weighting.CollectionScale` with the reciprocal factor.
- The weighting densities (`PowerLaw`, `FiveComponent`, `Hoerandel`, `EnergyWeight`) and the option parser: a spectrum's density is a function parameter, and only the power-law compatibility test (slope, range, type) is modelled.
- The `numexpr` evaluation and Python's string formatting in `CompiledFlux`: the lookup is modelled as an expression tree with an evaluator, and the printing of keys and values is a parameter.
- IEEE rounding, signed zeros and overflow: doubles are exact reals. NaN is modelled in the distances, in the `Track` queries and in histogram fill values; infinities are modelled where the source relies on them. Elsewhere a NaN the source would produce is an error result or is excluded, as the next lines say.
- `Polygon.ExpandPolygon`: a zero-length edge (two equal hull vertices, for example a padded surface over positions with one distinct footprint) makes `vec2::normalized` divide 0 by 0. In the source `det` is then NaN, `det == 0.` is false, and a NaN vertex is pushed; the model reports `NanVertex` instead of building a surface with NaN vertices.
- `Polygon.ExpandPolygon`: that, for positive padding, every original hull vertex lies inside the expanded polygon and the projected area does not shrink is not proved. Only the per-edge statements are: each new vertex lies at outward distance `padding` from both edges that met at the old vertex (`Polygon.ExpandMovesEdgesOut`), and each new edge is parallel to its old one (`Polygon.ExpandedEdgeParallel`).
- `Track.LossSoFar` and `Track.LossSoFarAsWritten`: `std::upper_bound` and `std::lower_bound` are modelled as linear scans, which agree with the binary searches on ranges sorted by distance. The constructor places the exit record at the distance of the last checkpoint so far, so a segment whose secondaries lie beyond that record is not sorted; there the model gives the linear scan's answer, and the source's binary search may differ.
- `Polygon.Construct`: with no positions the C++ constructor keeps the z range (+inf, -inf) and an empty hull. The model reports an error instead.
- `Polygon.Faces`: the edge lengths are taken as parameters, since there is no square root on reals. `Polygon.SideNormalsAreUnit` shows that true lengths make unit normals.
- `Intersection.GetIntersection`: `sin_zenith` is given as a value whose square is `1 - dir.z^2`, not computed with `sqrt`.
- Logging (`log_fatal`, `log_error`) is modelled as a failure result carrying no message.

## Findings

| source | as written | input that shows it | evidently intended | confidence | as-written member | corrected member |
|---|---|---|---|---|---|---|
| private/MuonGun/ExtrudedPolygon.cxx:273-274 | the vertical-direction guard tests `dir.x + dir.y == 0`, and python/extruded_polygon.py:206 asserts the same sum | the unit direction (2/3, -2/3, 1/3), which is not vertical, is rejected | reject only when `dir.x == 0 && dir.y == 0` | high; not executed | `Intersection.DistanceToHullAsWritten`, `Scenarios.DiagonalRayRejected` | `Intersection.DistanceToHull` |
| private/MuonGun/ExtrudedPolygon.cxx:334 | the cap distance is `(pos.z - cap_z)/dir.z` | the ray from (5, 5, -10) along (0, 0, 1) through the 10 by 10 square over z in [0, 100] gives (-110, -10) | `(cap_z - pos.z)/dir.z`, giving (10, 110) | high; not executed | `Intersection.CapHitAsWritten`, `Scenarios.UpwardRayCaps` | `Intersection.CapHit`, `Intersection.CapHitIsCrossing` |
| private/MuonGun/ExtrudedPolygon.cxx:361-365 | the side distances of an oblique ray are divided by `sin(zenith)`, but they are already measured along the 3-D direction | the ray from (5, 5, 50) along (0.6, 0, 0.8) through the same square gives (-125/9, 125/9), and the point at 125/9 lies outside the hull | no division, giving (-25/3, 25/3) | high; not executed | `Intersection.GetIntersectionAsWritten`, `Scenarios.ObliqueRay`, `Scenarios.ObliqueAsWrittenPointOutside` | `Intersection.GetIntersectionIsNearestAndFarthest` |
| private/MuonGun/histogram.h:43-50 | `general::index(+inf)` returns `edges.size() - 1`, one past the last bin of the datacube | any edge list, with the value +inf | +inf in the last bin `[e, +inf)`, as `uniform::index` does | medium; not executed | `Histogram.GeneralIndexAsWritten`, `Histogram.GeneralIndexAsWrittenOfPosInf` | `Histogram.GeneralIndex`, `Histogram.GeneralIndexIsTheBracket` |
| private/MuonGun/Track.cxx:65-73 | `lower_bound` picks the first checkpoint at or beyond the query, and the segment is read from it to the next one | a track of length 10 with no MMC crossing and no secondaries queried at 5: the lookup lands on the last checkpoint and reads past the end | the last checkpoint at or before the query (`upper_bound` minus one), giving 50 of the initial 100 | high; not executed | `Track.GetEnergyAsWritten`, `Track.LowerBoundRunsOffEnd`, `Track.LowerBoundExample` | `Track.GetEnergy`, `Track.GetEnergyInBounds`, `Track.BuiltTrackHasEnergy` |
| private/MuonGun/Track.cxx:79-81 | the continuous-loss rate subtracts the checkpoint energies in the wrong order, so the energy rises along a losing segment | a segment from energy 100 at 0 to 50 at 10 with no stochastic loss ends at 150 | the rate `(start - next - losses)/length`, ending at the next checkpoint's energy | medium; not executed | `Track.SegmentEnergyAsWrittenOvershoots`, `Track.SegmentEnergyAsWrittenExample` | `Track.SegmentEnergyHitsCheckpoints` |
| private/MuonGun/Track.cxx:26-41 | the entry, exit and daughter times are turned into distances as `(t - t0)/GetSpeed()`, while `GetTime` maps a distance `l` to `t0 + l/GetSpeed()`, so the two agree only at speed 1 | a daughter 20 ns after the vertex of a track at 0.5 m/ns is recorded 40 m down the track, where `GetTime` gives 80 ns | `(t - t0)*GetSpeed()`, giving 10 m, where `GetTime` gives back 20 ns | high; not executed | `Track.DistanceOfTimeAsWritten`, `Track.BuildFromTimesAsWritten`, `Track.BuildFromTimesAsWrittenMisplaces`, `Track.SecondaryPlacementExample` | `Track.DistanceOfTime`, `Track.BuildFromTimes`, `Track.DistanceOfTimeInvertsGetTime`, `Track.BuildFromTimesPlacesSecondaries` |
| private/MuonGun/Track.cxx:75-76 | the loss so far is read with `lower_bound`, from the first loss record at or beyond the query, so a loss still ahead of the query is already subtracted | a track of length 10 and energy 100 with no MMC crossing and one secondary of energy 10 at distance 5, queried at 0, gives 90 | the last record at or before the query (`upper_bound` minus one), or no loss when there is none, giving 100 | high; not executed | `Track.LossSoFarAsWritten`, `Track.ReadSegmentAsWritten`, `Track.LossLookupCountsLossAhead` | `Track.LossSoFar`, `Track.ReadSegment`, `Track.GetEnergyAtVertex` |
| python/extruded_polygon.py:170-180 | for one direction, `inner` has one entry per face and `self._areas[:,None]` is a column, so their product broadcasts to a square matrix and `.sum(axis=0)` returns one value per face instead of the projected area | the 10 by 10 square prism over z in [0, 100] seen along (1, 0, 0) gives `[0, 0, 0, 4200, 0, 0]` | the scalar projected area, 1000 | high; not executed | `Polygon.AreaAsWritten`, `Polygon.AreaAsWrittenIsScaledShadow`, `Scenarios.SquareAreaAsWritten` | `Polygon.Area`, `Polygon.AreaMatchesFaces`, `Scenarios.SquareAreaAlongX` |
| python/weighting.py:62-69 | `__add__` of two spectra of one type calls `__iadd__` only when they are compatible, and otherwise falls through and returns `None` | PowerLaw(-2) spectra on [1, 10] and [2, 10] give `None` | raise `ValueError` as `__iadd__` does | high; not executed | `Weighting.AddAsWritten`, `Weighting.AddAsWrittenLosesIncompatible` | `Weighting.Add`, `Weighting.AddAgreesWithIadd` |
