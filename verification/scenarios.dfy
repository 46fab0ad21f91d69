/** A concrete extruded polygon: the square [0,10] x [0,10] extruded over
    z in [0,100]. The lemmas below evaluate the model on it, including the
    inputs that separate the as-written queries from the corrected ones.

    The square is described by the predicate `IsSquare` rather than by a
    constant, so that the solver reasons about its sides one at a time. */
module Scenarios {
  import opened Wrappers
  import opened Vectors
  import Hull
  import opened Polygon
  import opened Intersection

  /** The layout the constructor builds for the square: closed, with the
      corners as side origins in counter-clockwise order. */
  predicate IsSquare(s: Surface) {
    |s.sides| == 4 && Closed(s) &&
    s.sides[0].origin == Vec2(0.0, 0.0) && s.sides[1].origin == Vec2(10.0, 0.0) &&
    s.sides[2].origin == Vec2(10.0, 10.0) && s.sides[3].origin == Vec2(0.0, 10.0) &&
    s.zMin == 0.0 && s.zMax == 100.0
  }

  /** Building from the counter-clockwise square gives that layout. */
  lemma SquareFromHull(h: seq<Vec2>)
    requires |h| == 4
    requires h[0] == Vec2(0.0, 0.0) && h[1] == Vec2(10.0, 0.0)
    requires h[2] == Vec2(10.0, 10.0) && h[3] == Vec2(0.0, 10.0)
    ensures IsSquare(FromHull(h, 0.0, 100.0))
  {
    FromHullIsClosed(h, 0.0, 100.0);
  }

  /** The four corners, sorted and deduplicated. */
  lemma SquareSorted(ps: seq<Vec2>)
    requires ps == [Vec2(10.0, 10.0), Vec2(0.0, 0.0), Vec2(0.0, 10.0), Vec2(10.0, 0.0)]
    ensures Hull.SortUnique(ps) == [Vec2(0.0, 0.0), Vec2(0.0, 10.0), Vec2(10.0, 0.0), Vec2(10.0, 10.0)]
  {
    var pts := [Vec2(0.0, 0.0), Vec2(0.0, 10.0), Vec2(10.0, 0.0), Vec2(10.0, 10.0)];
    assert Hull.Monotone(pts, true);
    Hull.AscendingIsUnique(Hull.SortUnique(ps), pts);
  }

  /** A monotone chain over four points that drops the second. */
  lemma ChainDropsSecond(pts: seq<Vec2>)
    requires |pts| == 4
    requires !Ccw(pts[0], pts[1], pts[2]) && Ccw(pts[0], pts[2], pts[3])
    ensures Hull.Curve(pts) == [pts[0], pts[2], pts[3]]
  {
    assert pts[..1][..0] == [];
    assert pts[..2][..1] == pts[..1];
    assert pts[..3][..2] == pts[..2];
    assert Hull.Curve(pts[..1]) == [pts[0]];
    assert Hull.Curve(pts[..2]) == [pts[0], pts[1]];
    assert Hull.Curve(pts[..3]) == [pts[0], pts[2]];
  }

  /** `convex_hull` of the four corners, given in any order, is the
      square counter-clockwise from the origin: the lower chain keeps
      (0,0), (10,0), (10,10) and the upper chain (10,10), (0,10), (0,0). */
  lemma SquareHull(ps: seq<Vec2>)
    requires ps == [Vec2(10.0, 10.0), Vec2(0.0, 0.0), Vec2(0.0, 10.0), Vec2(10.0, 0.0)]
    ensures Hull.ConvexHull(ps) == [Vec2(0.0, 0.0), Vec2(10.0, 0.0), Vec2(10.0, 10.0), Vec2(0.0, 10.0)]
  {
    SquareSorted(ps);
    var pts := Hull.SortUnique(ps);
    ChainDropsSecond(pts);
    var rev := Hull.Reverse(pts);
    assert rev == [pts[3], pts[2], pts[1], pts[0]];
    ChainDropsSecond(rev);
  }

  /** The Python constructor on the four corners over z in [0, 100] builds
      the square. */
  lemma SquareFromCorners(ps: seq<Vec2>)
    requires ps == [Vec2(10.0, 10.0), Vec2(0.0, 0.0), Vec2(0.0, 10.0), Vec2(10.0, 0.0)]
    ensures PyConstruct(ps, (0.0, 100.0)).Success?
    ensures IsSquare(PyConstruct(ps, (0.0, 100.0)).value) && PyConstruct(ps, (0.0, 100.0)).value.capArea == 100.0
  {
    var h := [Vec2(0.0, 0.0), Vec2(10.0, 0.0), Vec2(10.0, 10.0), Vec2(0.0, 10.0)];
    SquareHull(ps);
    assert PyConstruct(ps, (0.0, 100.0)) == Success(FromHull(h, 0.0, 100.0));
    SquareFromHull(h);
    SquareCapArea(h);
  }

  /** The shoelace sum of the square is twice its area, 100. */
  lemma SquareCapArea(h: seq<Vec2>)
    requires |h| == 4
    requires h[0] == Vec2(0.0, 0.0) && h[1] == Vec2(10.0, 0.0)
    requires h[2] == Vec2(10.0, 10.0) && h[3] == Vec2(0.0, 10.0)
    ensures FromHull(h, 0.0, 100.0).capArea == 100.0
  {
    assert ShoelaceTerm(h, 0) == 0.0;
    assert ShoelaceTerm(h, 1) == 100.0;
    assert ShoelaceTerm(h, 2) == 100.0;
    assert Next(4, 3) == 0;
    assert ShoelaceTerm(h, 3) == 0.0;
    assert ShoelacePrefix(h, 1) == 0.0;
    assert ShoelacePrefix(h, 2) == 100.0;
    assert ShoelacePrefix(h, 3) == 200.0;
    assert ShoelacePrefix(h, 4) == 200.0;
  }

  /** The face list of the square prism of height 100, with its true side
      lengths: four sides of area 1000 facing -y, +x, +y and -x, then the
      two caps. */
  lemma {:induction false} SquareFaces(s: Surface, lens: seq<real>)
    requires |s.sides| == 4 && lens == [10.0, 10.0, 10.0, 10.0]
    requires s.sides[0].vector == Vec2(10.0, 0.0) && s.sides[1].vector == Vec2(0.0, 10.0)
    requires s.sides[2].vector == Vec2(-10.0, 0.0) && s.sides[3].vector == Vec2(0.0, -10.0)
    requires Length(s) == 100.0 && s.capArea == 100.0
    ensures Faces(s, lens) == [
      Face(Vec3(0.0, -1.0, 0.0), 1000.0), Face(Vec3(1.0, 0.0, 0.0), 1000.0),
      Face(Vec3(0.0, 1.0, 0.0), 1000.0), Face(Vec3(-1.0, 0.0, 0.0), 1000.0),
      Face(Vec3(0.0, 0.0, 1.0), 100.0), Face(Vec3(0.0, 0.0, -1.0), 100.0)]
  {
    SideFace(s, lens, 0);
    SideFace(s, lens, 1);
    SideFace(s, lens, 2);
    SideFace(s, lens, 3);
  }

  /** Viewed along +x, the square prism shadows its left side, of area
      1000. `area` as written, given that one direction, returns a number
      per face instead: the total face area 4200 for the left side and 0
      for the others. */
  lemma {:induction false} SquareAreaAsWritten(s: Surface, lens: seq<real>, fs: seq<Face>)
    requires IsSquare(s) && s.capArea == 100.0 && lens == [10.0, 10.0, 10.0, 10.0]
    requires fs == Faces(s, lens)
    ensures AreaAsWritten(fs, Vec3(1.0, 0.0, 0.0)) == [0.0, 0.0, 0.0, 4200.0, 0.0, 0.0]
    ensures Area(s, Vec3(1.0, 0.0, 0.0)) == 1000.0
  {
    SquareSides(s);
    SquareFaces(s, lens);
    SquareFacesAsWritten(fs);
    SquareAreaAlongX(s);
  }

  lemma {:induction false} SquareFacesAsWritten(fs: seq<Face>)
    requires fs == [
      Face(Vec3(0.0, -1.0, 0.0), 1000.0), Face(Vec3(1.0, 0.0, 0.0), 1000.0),
      Face(Vec3(0.0, 1.0, 0.0), 1000.0), Face(Vec3(-1.0, 0.0, 0.0), 1000.0),
      Face(Vec3(0.0, 0.0, 1.0), 100.0), Face(Vec3(0.0, 0.0, -1.0), 100.0)]
    ensures AreaAsWritten(fs, Vec3(1.0, 0.0, 0.0)) == [0.0, 0.0, 0.0, 4200.0, 0.0, 0.0]
  {
    SquareTotalArea(fs);
    AsWrittenColumns(fs);
  }

  /** The square prism's faces add up to 4200. */
  lemma {:induction false} SquareTotalArea(fs: seq<Face>)
    requires fs == [
      Face(Vec3(0.0, -1.0, 0.0), 1000.0), Face(Vec3(1.0, 0.0, 0.0), 1000.0),
      Face(Vec3(0.0, 1.0, 0.0), 1000.0), Face(Vec3(-1.0, 0.0, 0.0), 1000.0),
      Face(Vec3(0.0, 0.0, 1.0), 100.0), Face(Vec3(0.0, 0.0, -1.0), 100.0)]
    ensures TotalArea(fs, 6) == 4200.0
  {
    assert TotalArea(fs, 1) == 1000.0;
    assert TotalArea(fs, 2) == 2000.0;
    assert TotalArea(fs, 3) == 3000.0;
    assert TotalArea(fs, 4) == 4000.0;
    assert TotalArea(fs, 5) == 4100.0;
  }

  /** Along +x a face's masked inner product is the x component of its
      normal, when that is negative. */
  lemma MaskedInnerAlongX(f: Face)
    ensures MaskedInner(f, Vec3(1.0, 0.0, 0.0)) == if f.normal.x < 0.0 then f.normal.x else 0.0
  {
  }

  /** The square-root-free area of the square prism along +x is its left
      side, 1000. */
  lemma {:induction false} SquareAreaAlongX(s: Surface)
    requires |s.sides| == 4
    requires s.sides[0].vector == Vec2(10.0, 0.0) && s.sides[1].vector == Vec2(0.0, 10.0)
    requires s.sides[2].vector == Vec2(-10.0, 0.0) && s.sides[3].vector == Vec2(0.0, -10.0)
    requires Length(s) == 100.0
    ensures Area(s, Vec3(1.0, 0.0, 0.0)) == 1000.0
  {
    var dir := Vec3(1.0, 0.0, 0.0);
    assert SideShadows(s, 1, dir) == 0.0;
    assert SideShadows(s, 2, dir) == 0.0;
    assert SideShadows(s, 3, dir) == 0.0;
    assert SideShadows(s, 4, dir) == 1000.0;
  }

  /** Six faces of which only the fourth faces the viewer head-on give, as
      written, the total area in the fourth entry and 0 elsewhere. */
  lemma {:induction false} AsWrittenColumns(fs: seq<Face>)
    requires |fs| == 6 && TotalArea(fs, 6) == 4200.0
    requires fs[0].normal.x == 0.0 && fs[1].normal.x == 1.0 && fs[2].normal.x == 0.0
    requires fs[3].normal.x == -1.0 && fs[4].normal.x == 0.0 && fs[5].normal.x == 0.0
    ensures AreaAsWritten(fs, Vec3(1.0, 0.0, 0.0)) == [0.0, 0.0, 0.0, 4200.0, 0.0, 0.0]
  {
    MaskedInnerAlongX(fs[0]);
    MaskedInnerAlongX(fs[1]);
    MaskedInnerAlongX(fs[2]);
    MaskedInnerAlongX(fs[3]);
    MaskedInnerAlongX(fs[4]);
    MaskedInnerAlongX(fs[5]);
    var r := AreaAsWritten(fs, Vec3(1.0, 0.0, 0.0));
    assert r[0] == 0.0 && r[1] == 0.0 && r[2] == 0.0 && r[3] == 4200.0 && r[4] == 0.0 && r[5] == 0.0;
  }

  /** The sides of the square alternate horizontal and vertical. */
  lemma SquareSides(s: Surface)
    requires IsSquare(s)
    ensures s.sides[0].vector == Vec2(10.0, 0.0) && s.sides[1].vector == Vec2(0.0, 10.0)
    ensures s.sides[2].vector == Vec2(-10.0, 0.0) && s.sides[3].vector == Vec2(0.0, -10.0)
  {
    assert Add(s.sides[0].origin, s.sides[0].vector) == s.sides[1].origin;
    assert Add(s.sides[1].origin, s.sides[1].vector) == s.sides[2].origin;
    assert Add(s.sides[2].origin, s.sides[2].vector) == s.sides[3].origin;
    assert Next(4, 3) == 0;
    assert Add(s.sides[3].origin, s.sides[3].vector) == s.sides[0].origin;
  }

  /** A vertical side crosses to the right of `pos` when it straddles
      `pos.y` and lies right of `pos.x`. */
  lemma VerticalSide(s: Surface, i: nat, pos: Vec2)
    requires Closed(s) && i < |s.sides|
    requires s.sides[i].vector.x == 0.0
    ensures CrossesRight(s, i, pos) <==>
      Straddles(s.sides[i].origin.y, s.sides[Next(|s.sides|, i)].origin.y, pos.y) &&
      pos.x < s.sides[i].origin.x
  {
  }

  /** A horizontal side never straddles. */
  lemma HorizontalSide(s: Surface, i: nat, pos: Vec2)
    requires Closed(s) && i < |s.sides|
    requires s.sides[i].vector.y == 0.0
    ensures !CrossesRight(s, i, pos)
  {
  }

  /** A closed four-sided box over y in [0, 10], with horizontal bottom
      and top and vertical sides at x == r (right) and x == l (left), is
      crossed at height 5 by its two vertical sides only. */
  lemma BoxCrossings(s: Surface, l: real, r: real, x: real)
    requires Closed(s) && |s.sides| == 4
    requires s.sides[0].vector.y == 0.0 && s.sides[2].vector.y == 0.0
    requires s.sides[1].vector.x == 0.0 && s.sides[3].vector.x == 0.0
    requires s.sides[1].origin == Vec2(r, 0.0) && s.sides[2].origin == Vec2(r, 10.0)
    requires s.sides[3].origin == Vec2(l, 10.0) && s.sides[0].origin == Vec2(l, 0.0)
    ensures Crossings(s, Vec2(x, 5.0), 4) == (if x < r then 1 else 0) + (if x < l then 1 else 0)
  {
    var pos := Vec2(x, 5.0);
    HorizontalSide(s, 0, pos);
    VerticalSide(s, 1, pos);
    HorizontalSide(s, 2, pos);
    VerticalSide(s, 3, pos);
    assert Crossings(s, pos, 1) == 0;
    assert Crossings(s, pos, 2) == (if x < r then 1 else 0);
    assert Crossings(s, pos, 3) == (if x < r then 1 else 0);
  }

  /** The half-open boundary rule: at height 5 exactly the points with
      0 <= x < 10 are inside, so the left edge is inside and the right
      edge is not. */
  lemma MidHeightMembership(s: Surface, x: real)
    requires IsSquare(s)
    ensures PointInHull(s, Vec2(x, 5.0)) <==> 0.0 <= x < 10.0
  {
    SquareSides(s);
    BoxCrossings(s, 0.0, 10.0, x);
    var n := Crossings(s, Vec2(x, 5.0), |s.sides|);
    if x < 0.0 {
      assert n == 2;
    } else if x < 10.0 {
      assert n == 1;
    } else {
      assert n == 0;
    }
  }

  // ---------------------------------------------------------------------
  // Rays that separate the as-written queries from the corrected ones

  /** The unit direction (2/3, -2/3, 1/3) has a horizontal component, yet
      the as-written guard `dir.x + dir.y == 0` rejects it; the corrected
      guard accepts it. */
  lemma DiagonalRayRejected(s: Surface, p: Vec3, sinZenith: real)
    requires Closed(s)
    requires sinZenith >= 0.0 && sinZenith * sinZenith == 8.0 / 9.0
    ensures IsUnit(Vec3(2.0 / 3.0, -2.0 / 3.0, 1.0 / 3.0))
    ensures GetIntersectionAsWritten(s, p, Vec3(2.0 / 3.0, -2.0 / 3.0, 1.0 / 3.0), sinZenith).Failure?
    ensures DistanceToHull(s, p, Vec3(2.0 / 3.0, -2.0 / 3.0, 1.0 / 3.0)).Success?
  {
  }

  /** A ray straight up from (5, 5, -10), below any closed surface over
      z in [0, 100] that contains (5, 5) (the square does, by
      `MidHeightMembership`): it enters the bottom cap after 10 and leaves
      through the top cap after 110. The as-written cap distance reports
      (-110, -10), and the point at -10 along the ray (z == -20) is on
      neither cap. */
  lemma UpwardRayCaps(s: Surface)
    requires Closed(s) && s.zMin == 0.0 && s.zMax == 100.0
    requires PointInHull(s, Vec2(5.0, 5.0))
    ensures GetIntersection(s, Vec3(5.0, 5.0, -10.0), Vec3(0.0, 0.0, 1.0)) == (Some(10.0), Some(110.0))
    ensures GetIntersectionAsWritten(s, Vec3(5.0, 5.0, -10.0), Vec3(0.0, 0.0, 1.0), 0.0)
      == Success((Some(-110.0), Some(-10.0)))
    ensures Along(Vec3(5.0, 5.0, -10.0), -10.0, Vec3(0.0, 0.0, 1.0)).z !in {s.zMin, s.zMax}
  {
    UpwardCapHit(s, s.zMin);
    UpwardCapHit(s, s.zMax);
  }

  /** The cap distances of the upward ray from (5, 5, -10) on any closed
      surface containing (5, 5): along the ray the plane `z == capZ` is
      `capZ + 10` away, while the as-written formula gives `-10 - capZ`. */
  lemma UpwardCapHit(s: Surface, capZ: real)
    requires Closed(s) && PointInHull(s, Vec2(5.0, 5.0))
    ensures CapHit(s, Vec3(5.0, 5.0, -10.0), Vec3(0.0, 0.0, 1.0), capZ) == Some(capZ + 10.0)
    ensures CapHitAsWritten(s, Vec3(5.0, 5.0, -10.0), Vec3(0.0, 0.0, 1.0), capZ) == Some(-10.0 - capZ)
  {
    var p := Vec3(5.0, 5.0, -10.0);
    var dir := Vec3(0.0, 0.0, 1.0);
    assert Along(p, capZ + 10.0, dir) == Vec3(5.0, 5.0, capZ);
    CapHitIsCrossing(s, p, dir, capZ, capZ + 10.0);
    assert (p.z - capZ) / dir.z == -10.0 - capZ;
    assert XY(Along(p, -10.0 - capZ, dir)) == Vec2(5.0, 5.0);
  }

  /** The hits of the ray from (5, 5, 50) along (0.6, 0, 0.8) on each
      side of the square: the horizontal sides are parallel to it, and it
      meets the right side 25/3 ahead and the left side 25/3 behind. Each
      is the full 3-D distance: the point 25/3 ahead is (10, 5, 170/3), on
      the right side. */
  lemma ObliqueHitBottom()
    ensures SideHit(Side(Vec2(0.0, 0.0), Vec2(10.0, 0.0)), Vec3(5.0, 5.0, 50.0), Vec3(0.6, 0.0, 0.8)) == None
  {
  }

  lemma ObliqueHitRight()
    ensures SideHit(Side(Vec2(10.0, 0.0), Vec2(0.0, 10.0)), Vec3(5.0, 5.0, 50.0), Vec3(0.6, 0.0, 0.8))
      == Some(25.0 / 3.0)
    ensures XY(Along(Vec3(5.0, 5.0, 50.0), 25.0 / 3.0, Vec3(0.6, 0.0, 0.8))) == Vec2(10.0, 5.0)
  {
    var side := Side(Vec2(10.0, 0.0), Vec2(0.0, 10.0));
    var p := Vec3(5.0, 5.0, 50.0);
    var dir := Vec3(0.6, 0.0, 0.8);
    assert Denom(side, dir) == -6.0;
    assert Alpha(side, p, dir) == 0.5;
  }

  lemma ObliqueHitTop()
    ensures SideHit(Side(Vec2(10.0, 10.0), Vec2(-10.0, 0.0)), Vec3(5.0, 5.0, 50.0), Vec3(0.6, 0.0, 0.8)) == None
  {
  }

  lemma ObliqueHitLeft()
    ensures SideHit(Side(Vec2(0.0, 10.0), Vec2(0.0, -10.0)), Vec3(5.0, 5.0, 50.0), Vec3(0.6, 0.0, 0.8))
      == Some(-25.0 / 3.0)
  {
    var side := Side(Vec2(0.0, 10.0), Vec2(0.0, -10.0));
    var p := Vec3(5.0, 5.0, 50.0);
    var dir := Vec3(0.6, 0.0, 0.8);
    assert Denom(side, dir) == 6.0;
    assert Alpha(side, p, dir) == 0.5;
  }

  /** Four known side hits make up the whole sequence of hits. */
  lemma FourSideHits(s: Surface, p: Vec3, dir: Vec3, h0: Distance, h1: Distance, h2: Distance, h3: Distance)
    requires |s.sides| == 4
    requires SideHit(s.sides[0], p, dir) == h0 && SideHit(s.sides[1], p, dir) == h1
    requires SideHit(s.sides[2], p, dir) == h2 && SideHit(s.sides[3], p, dir) == h3
    ensures SideHits(s, p, dir) == [h0, h1, h2, h3]
  {
  }

  /** All four side hits of that ray. */
  lemma ObliqueSideHits(s: Surface)
    requires IsSquare(s)
    ensures SideHits(s, Vec3(5.0, 5.0, 50.0), Vec3(0.6, 0.0, 0.8))
      == [None, Some(25.0 / 3.0), None, Some(-25.0 / 3.0)]
  {
    SquareSides(s);
    assert s.sides[0] == Side(Vec2(0.0, 0.0), Vec2(10.0, 0.0));
    assert s.sides[1] == Side(Vec2(10.0, 0.0), Vec2(0.0, 10.0));
    assert s.sides[2] == Side(Vec2(10.0, 10.0), Vec2(-10.0, 0.0));
    assert s.sides[3] == Side(Vec2(0.0, 10.0), Vec2(0.0, -10.0));
    ObliqueHitBottom();
    ObliqueHitRight();
    ObliqueHitTop();
    ObliqueHitLeft();
    FourSideHits(s, Vec3(5.0, 5.0, 50.0), Vec3(0.6, 0.0, 0.8), None, Some(25.0 / 3.0), None, Some(-25.0 / 3.0));
  }

  /** A cap of the oblique ray is missed, corrected and as written, when
      neither candidate point is inside the hull: the ray meets the plane
      `z == capZ` at x == 5 + 0.75*(capZ - 50), and the as-written formula
      tests the mirror point x == 5 - 0.75*(capZ - 50). */
  lemma ObliqueCapMiss(s: Surface, capZ: real)
    requires Closed(s)
    requires !PointInHull(s, Vec2(5.0 + 0.75 * (capZ - 50.0), 5.0))
    requires !PointInHull(s, Vec2(5.0 - 0.75 * (capZ - 50.0), 5.0))
    ensures CapHit(s, Vec3(5.0, 5.0, 50.0), Vec3(0.6, 0.0, 0.8), capZ) == None
    ensures CapHitAsWritten(s, Vec3(5.0, 5.0, 50.0), Vec3(0.6, 0.0, 0.8), capZ) == None
  {
    var p := Vec3(5.0, 5.0, 50.0);
    var dir := Vec3(0.6, 0.0, 0.8);
    assert XY(Along(p, (capZ - 50.0) / 0.8, dir)) == Vec2(5.0 + 0.75 * (capZ - 50.0), 5.0);
    assert XY(Along(p, (50.0 - capZ) / 0.8, dir)) == Vec2(5.0 - 0.75 * (capZ - 50.0), 5.0);
  }

  /** An oblique ray that misses both caps reports its side hits. */
  lemma ObliqueMissingCaps(s: Surface, p: Vec3, dir: Vec3, near: real, far: real)
    requires Closed(s) && IsUnit(dir) && Abs(dir.z) != 1.0 && dir.z != 0.0
    requires DistanceToHull(s, p, dir) == Success((Some(near), Some(far))) && near <= far
    requires CapHit(s, p, dir, s.zMin).None? && CapHit(s, p, dir, s.zMax).None?
    ensures GetIntersection(s, p, dir) == (Some(near), Some(far))
  {
    ObliqueIsTilted(dir);
    HorizontalOf(dir);
    TwoHitsAndTwoMisses(near, far);
  }

  /** As written, an oblique ray that misses both caps reports its side
      hits divided by `sinZenith`. */
  lemma ObliqueMissingCapsAsWritten(s: Surface, p: Vec3, dir: Vec3, sinZenith: real, near: real, far: real)
    requires Closed(s) && IsUnit(dir) && Abs(dir.z) != 1.0 && dir.z != 0.0
    requires sinZenith > 0.0 && sinZenith * sinZenith == 1.0 - dir.z * dir.z
    requires DistanceToHullAsWritten(s, p, dir) == Success((Some(near), Some(far))) && near <= far
    requires CapHitAsWritten(s, p, dir, s.zMin).None? && CapHitAsWritten(s, p, dir, s.zMax).None?
    ensures GetIntersectionAsWritten(s, p, dir, sinZenith) == Success((Some(near / sinZenith), Some(far / sinZenith)))
  {
    ObliqueIsTilted(dir);
    QuotientMonotone(near, far, sinZenith);
    TwoHitsAndTwoMisses(near / sinZenith, far / sinZenith);
  }

  /** `std::min_element` over two ordered hits followed by two NaNs. */
  lemma TwoHitsAndTwoMisses(near: real, far: real)
    requires near <= far
    ensures MinElement([Some(near), Some(far), None, None], NanLess, 4) == Some(near)
    ensures MinElement([Some(near), Some(far), None, None], NanGreater, 4) == Some(far)
  {
    var xs: seq<Distance> := [Some(near), Some(far), None, None];
    assert xs[..4] == xs;
    assert xs[0].Some? && xs[1].Some?;
    assert NanMin(xs).Some? && NanMax(xs).Some?;
    MinElementIsNanMin(xs, 4);
    MinElementIsNanMax(xs, 4);
    assert NanMin(xs).value <= xs[0].value && NanMax(xs).value >= xs[1].value;
  }

  lemma QuotientMonotone(a: real, b: real, c: real)
    requires a <= b && c > 0.0
    ensures a / c <= b / c
  {
  }

  /** The nearest and farthest of the oblique ray's side hits. */
  lemma ObliqueHitBounds()
    ensures NanMin([None, Some(25.0 / 3.0), None, Some(-25.0 / 3.0)]) == Some(-25.0 / 3.0)
    ensures NanMax([None, Some(25.0 / 3.0), None, Some(-25.0 / 3.0)]) == Some(25.0 / 3.0)
  {
    var hs: seq<Distance> := [None, Some(25.0 / 3.0), None, Some(-25.0 / 3.0)];
    assert hs[1].Some? && hs[3].Some?;
    var lo := NanMin(hs);
    var hi := NanMax(hs);
    assert lo.value <= hs[3].value && hi.value >= hs[1].value;
  }

  /** The side part of the oblique ray's query. */
  lemma ObliqueHullDistance(s: Surface)
    requires SideHits(s, Vec3(5.0, 5.0, 50.0), Vec3(0.6, 0.0, 0.8))
      == [None, Some(25.0 / 3.0), None, Some(-25.0 / 3.0)]
    ensures DistanceToHull(s, Vec3(5.0, 5.0, 50.0), Vec3(0.6, 0.0, 0.8)) == Success((Some(-25.0 / 3.0), Some(25.0 / 3.0)))
  {
    ObliqueHitBounds();
  }

  /** The ray from (5, 5, 50) along (0.6, 0, 0.8), with sin(zenith) == 0.6,
      on a closed surface over z in [0, 100] with the square's side hits
      and (-32.5, 5) and (42.5, 5) outside: it leaves through the sides at
      -25/3 and 25/3 and misses both caps. The as-written query divides
      the side hits by 0.6 and reports (-125/9, 125/9). */
  lemma ObliqueRay(s: Surface)
    requires Closed(s) && s.zMin == 0.0 && s.zMax == 100.0
    requires SideHits(s, Vec3(5.0, 5.0, 50.0), Vec3(0.6, 0.0, 0.8))
      == [None, Some(25.0 / 3.0), None, Some(-25.0 / 3.0)]
    requires !PointInHull(s, Vec2(-32.5, 5.0)) && !PointInHull(s, Vec2(42.5, 5.0))
    ensures GetIntersection(s, Vec3(5.0, 5.0, 50.0), Vec3(0.6, 0.0, 0.8)) == (Some(-25.0 / 3.0), Some(25.0 / 3.0))
    ensures GetIntersectionAsWritten(s, Vec3(5.0, 5.0, 50.0), Vec3(0.6, 0.0, 0.8), 0.6)
      == Success((Some(-125.0 / 9.0), Some(125.0 / 9.0)))
  {
    var p := Vec3(5.0, 5.0, 50.0);
    var dir := Vec3(0.6, 0.0, 0.8);
    ObliqueCapsMissed(s);
    ObliqueHullDistance(s);
    ObliqueMissingCaps(s, p, dir, -25.0 / 3.0, 25.0 / 3.0);
    ObliqueMissingCapsAsWritten(s, p, dir, 0.6, -25.0 / 3.0, 25.0 / 3.0);
  }

  /** Both caps are missed by the oblique ray, corrected and as written:
      the candidate points are (-32.5, 5) and (42.5, 5). */
  lemma ObliqueCapsMissed(s: Surface)
    requires Closed(s) && s.zMin == 0.0 && s.zMax == 100.0
    requires !PointInHull(s, Vec2(-32.5, 5.0)) && !PointInHull(s, Vec2(42.5, 5.0))
    ensures CapHit(s, Vec3(5.0, 5.0, 50.0), Vec3(0.6, 0.0, 0.8), s.zMin).None?
    ensures CapHit(s, Vec3(5.0, 5.0, 50.0), Vec3(0.6, 0.0, 0.8), s.zMax).None?
    ensures CapHitAsWritten(s, Vec3(5.0, 5.0, 50.0), Vec3(0.6, 0.0, 0.8), s.zMin).None?
    ensures CapHitAsWritten(s, Vec3(5.0, 5.0, 50.0), Vec3(0.6, 0.0, 0.8), s.zMax).None?
  {
    assert Vec2(5.0 + 0.75 * (0.0 - 50.0), 5.0) == Vec2(-32.5, 5.0);
    assert Vec2(5.0 - 0.75 * (0.0 - 50.0), 5.0) == Vec2(42.5, 5.0);
    assert Vec2(5.0 + 0.75 * (100.0 - 50.0), 5.0) == Vec2(42.5, 5.0);
    assert Vec2(5.0 - 0.75 * (100.0 - 50.0), 5.0) == Vec2(-32.5, 5.0);
    ObliqueCapMiss(s, 0.0);
    ObliqueCapMiss(s, 100.0);
  }

  /** The as-written far distance 125/9 does not even lead to the surface:
      the point there, x == 40/3, is outside the square. */
  lemma ObliqueAsWrittenPointOutside(s: Surface)
    requires IsSquare(s)
    ensures !PointInHull(s, XY(Along(Vec3(5.0, 5.0, 50.0), 125.0 / 9.0, Vec3(0.6, 0.0, 0.8))))
  {
    assert XY(Along(Vec3(5.0, 5.0, 50.0), 125.0 / 9.0, Vec3(0.6, 0.0, 0.8))) == Vec2(40.0 / 3.0, 5.0);
    MidHeightMembership(s, 40.0 / 3.0);
  }

  /** The square meets the hypotheses of `ObliqueRay`. */
  lemma SquareObliqueRay(s: Surface)
    requires IsSquare(s)
    ensures Closed(s) && s.zMin == 0.0 && s.zMax == 100.0
    ensures SideHits(s, Vec3(5.0, 5.0, 50.0), Vec3(0.6, 0.0, 0.8))
      == [None, Some(25.0 / 3.0), None, Some(-25.0 / 3.0)]
    ensures !PointInHull(s, Vec2(-32.5, 5.0)) && !PointInHull(s, Vec2(42.5, 5.0))
  {
    ObliqueSideHits(s);
    MidHeightMembership(s, -32.5);
    MidHeightMembership(s, 42.5);
  }
}
