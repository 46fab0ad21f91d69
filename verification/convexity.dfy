/** What makes `convex_hull` a convex hull, stated on the closed polygon:
    every input point lies on or left of every edge, the closing edge
    included; every three consecutive vertices turn strictly
    counter-clockwise, also across the two joins of the chains; and so the
    shoelace area of the hull, the cap area of the surface, is positive. */
module Convexity {
  import opened Wrappers
  import opened Vectors
  import opened Hull
  import opened Polygon

  /** The edges of two joined chains, closed into a polygon, are the edges
      of the lower chain followed by those of the upper chain. */
  lemma JoinedEdges(h: seq<Vec2>, lower: seq<Vec2>, upper: seq<Vec2>) returns (m: nat)
    requires JoinedChains(h, lower, upper)
    ensures m == |lower| - 1 && |h| == m + |upper| - 1
    ensures forall i :: 0 <= i < m ==> h[i] == lower[i] && h[Next(|h|, i)] == lower[i + 1]
    ensures forall i :: m <= i < |h| ==> h[i] == upper[i - m] && h[Next(|h|, i)] == upper[i - m + 1]
  {
    SplitAtJoin(lower, upper);
    m := |lower| - 1;
    assert h[..m + 1] == lower && h[m..] + [h[0]] == upper;
    forall i | 0 <= i < m
      ensures h[i] == lower[i] && h[Next(|h|, i)] == lower[i + 1]
    {
      assert h[i] == h[..m + 1][i] && h[i + 1] == h[..m + 1][i + 1];
    }
    forall i | m <= i < |h|
      ensures h[i] == upper[i - m] && h[Next(|h|, i)] == upper[i - m + 1]
    {
      assert h[i] == (h[m..] + [h[0]])[i - m];
      assert h[Next(|h|, i)] == (h[m..] + [h[0]])[i - m + 1];
    }
  }

  /** The closed hull's edges, as chain edges, with every input point on or
      left of each. */
  lemma HullEdges(ps: seq<Vec2>) returns (lower: seq<Vec2>, upper: seq<Vec2>, m: nat)
    requires |SortUnique(ps)| >= 2
    ensures JoinedChains(ConvexHull(ps), lower, upper)
    ensures forall q :: q in ps ==> LeftOfChain(lower, q) && LeftOfChain(upper, q)
    ensures var h := ConvexHull(ps);
      && m == |lower| - 1 && |h| == m + |upper| - 1
      && (forall i :: 0 <= i < m ==> h[i] == lower[i] && h[Next(|h|, i)] == lower[i + 1])
      && (forall i :: m <= i < |h| ==> h[i] == upper[i - m] && h[Next(|h|, i)] == upper[i - m + 1])
  {
    lower, upper := HullAsChains(ps);
    m := JoinedEdges(ConvexHull(ps), lower, upper);
  }

  /** `convex_hull` contains its input: every input point lies on or left of
      every edge of the closed counter-clockwise hull. */
  lemma HullContainsInput(ps: seq<Vec2>)
    ensures var h := ConvexHull(ps);
      forall q, i :: q in ps && 0 <= i < |h| ==> Cross(h[i], h[Next(|h|, i)], q) >= 0.0
  {
    var h := ConvexHull(ps);
    if |SortUnique(ps)| >= 2 {
      var lower, upper, m := HullEdges(ps);
      forall q, i | q in ps && 0 <= i < |h|
        ensures Cross(h[i], h[Next(|h|, i)], q) >= 0.0
      {
        if i < m {
          assert LeftOfChain(lower, q);
        } else {
          assert LeftOfChain(upper, q);
        }
      }
    }
  }

  /** Two joined chains, with the points of each on or left of the other's
      edges, turn strictly counter-clockwise at every vertex of the closed
      polygon, the two joins included. */
  lemma JoinedChainsTurnLeft(h: seq<Vec2>, lower: seq<Vec2>, upper: seq<Vec2>)
    requires JoinedChains(h, lower, upper) && Distinct(h) && |h| >= 3
    requires forall q :: q in h ==> LeftOfChain(lower, q) && LeftOfChain(upper, q)
    ensures var n := |h|;
      forall i :: 0 <= i < n ==> Ccw(h[i], h[Next(n, i)], h[Next(n, Next(n, i))])
  {
    var n := |h|;
    var m := JoinedEdges(h, lower, upper);
    forall i | 0 <= i < n
      ensures Ccw(h[i], h[Next(n, i)], h[Next(n, Next(n, i))])
    {
      if i + 1 < m {
        assert Ccw(lower[i], lower[i + 1], lower[i + 2]);
      } else if i + 1 == m {
        assert h[m - 1] == lower[|lower| - 2] && h[Next(n, m)] == upper[1];
        assert m - 1 != Next(n, m);
        assert h[m - 1] in h && h[Next(n, m)] in h;
        JoinTurnsLeft(lower, upper, true);
      } else if i + 1 < n {
        assert Ccw(upper[i - m], upper[i - m + 1], upper[i - m + 2]);
      } else {
        assert h[n - 1] == upper[|upper| - 2] && h[0] == upper[|upper| - 1];
        assert h[1] == lower[1];
        assert h[n - 1] in h && h[1] in h;
        JoinTurnsLeft(upper, lower, false);
      }
    }
  }

  /** The hull turns strictly counter-clockwise at every vertex, the two
      joins of the chains included. */
  lemma HullCyclicCcw(ps: seq<Vec2>)
    requires |ConvexHull(ps)| >= 3
    ensures var h := ConvexHull(ps); var n := |h|;
      forall i :: 0 <= i < n ==> Ccw(h[i], h[Next(n, i)], h[Next(n, Next(n, i))])
  {
    var h := ConvexHull(ps);
    var lower, upper, m := HullEdges(ps);
    HullVerticesDistinct(ps);
    assert forall q :: q in h ==> q in ps;
    JoinedChainsTurnLeft(h, lower, upper);
  }

  // ---------------------------------------------------------------------
  // The sign of the cap area

  /** `Cross(o, a, b)` is the shoelace sum of the triangle `o, a, b`. */
  lemma CrossIsTriangleShoelace(o: Vec2, a: Vec2, b: Vec2)
    ensures Cross(o, a, b) == CrossV(o, a) + CrossV(a, b) + CrossV(b, o)
  {
  }

  lemma ShoelaceTermIsCross(hull: seq<Vec2>, i: nat)
    requires i < |hull|
    ensures ShoelaceTerm(hull, i) == CrossV(hull[i], hull[Next(|hull|, i)])
  {
  }

  /** The fan of triangles from the first vertex: `h[0], h[i], h[i+1]` for
      `1 <= i < k`, each counted by its cross product. */
  function FanArea(h: seq<Vec2>, k: nat): real
    requires 1 <= k < |h|
  {
    if k == 1 then 0.0 else FanArea(h, k - 1) + Cross(h[0], h[k - 1], h[k])
  }

  /** The shoelace sum up to vertex `k`, closed back to `h[0]`, is the fan
      of triangles up to `k`. */
  lemma {:induction false} ShoelaceIsFan(h: seq<Vec2>, k: nat)
    requires 1 <= k < |h|
    ensures ShoelacePrefix(h, k) + CrossV(h[k], h[0]) == FanArea(h, k)
  {
    var a, b, c := h[0], h[k - 1], h[k];
    ShoelaceTermIsCross(h, k - 1);
    assert Next(|h|, k - 1) == k;
    assert ShoelacePrefix(h, k) == ShoelacePrefix(h, k - 1) + CrossV(b, c);
    if k > 1 {
      ShoelaceIsFan(h, k - 1);
      CrossIsTriangleShoelace(a, b, c);
      assert CrossV(b, a) == -CrossV(a, b);
      assert FanArea(h, k) == FanArea(h, k - 1) + Cross(a, b, c);
    } else {
      assert CrossV(c, a) == -CrossV(a, c);
    }
  }

  lemma {:induction false} FanNonNegative(h: seq<Vec2>, k: nat)
    requires 1 <= k < |h|
    requires forall i :: 1 <= i < k ==> Cross(h[0], h[i], h[i + 1]) >= 0.0
    ensures FanArea(h, k) >= 0.0
    ensures k >= 2 && Cross(h[0], h[1], h[2]) > 0.0 ==> FanArea(h, k) > 0.0
  {
    if k > 1 {
      FanNonNegative(h, k - 1);
    }
  }

  /** The closed shoelace sum of a polygon is its fan of triangles from the
      first vertex. */
  lemma SignedAreaIsFan(h: seq<Vec2>)
    requires |h| >= 2
    ensures SignedArea(h) == FanArea(h, |h| - 1) / 2.0
  {
    ShoelaceIsFan(h, |h| - 1);
    ShoelaceTermIsCross(h, |h| - 1);
  }

  /** `signed_area` of the hull is positive: counter-clockwise, as its
      documentation says, and strictly so once there are three vertices. With
      fewer vertices it is zero. */
  lemma HullAreaPositive(ps: seq<Vec2>)
    ensures SignedArea(ConvexHull(ps)) >= 0.0
    ensures |ConvexHull(ps)| >= 3 ==> SignedArea(ConvexHull(ps)) > 0.0
    ensures |ConvexHull(ps)| < 3 ==> SignedArea(ConvexHull(ps)) == 0.0
  {
    var h := ConvexHull(ps);
    var n := |h|;
    if n >= 3 {
      HullContainsInput(ps);
      HullCyclicCcw(ps);
      assert h[0] in ps;
      forall i | 1 <= i < n - 1
        ensures Cross(h[0], h[i], h[i + 1]) >= 0.0
      {
        assert Next(n, i) == i + 1;
        CrossRotate(h[0], h[i], h[i + 1]);
      }
      assert Ccw(h[0], h[Next(n, 0)], h[Next(n, Next(n, 0))]);
      FanNonNegative(h, n - 1);
      SignedAreaIsFan(h);
    } else if n == 2 {
      SignedAreaIsFan(h);
    } else if n == 1 {
      assert ShoelacePrefix(h, 1) == ShoelaceTerm(h, 0) == 0.0;
    } else {
      assert ShoelacePrefix(h, 0) == 0.0;
    }
  }

  /** The Python constructor's surface, for an ordered z range, projects a
      non-negative area in every direction; its cap area is positive once the
      hull has three vertices. */
  lemma PyConstructAreaNonNegative(xy: seq<Vec2>, zRange: (real, real), dir: Vec3)
    requires PyConstruct(xy, zRange).Success? && zRange.0 <= zRange.1
    ensures Area(PyConstruct(xy, zRange).value, dir) >= 0.0
    ensures |ConvexHull(xy)| >= 3 ==> PyConstruct(xy, zRange).value.capArea > 0.0
  {
    HullAreaPositive(xy);
    AreaNonNegative(PyConstruct(xy, zRange).value, dir);
  }

  /** Without padding, the C++ constructor's surface projects a non-negative
      area in every direction: its z range spans the positions, and its cap is
      the counter-clockwise hull of their footprint. */
  lemma ConstructAreaNonNegative(points: seq<Vec3>, hypot: Hypot, dir: Vec3)
    requires Construct(points, 0.0, hypot).Success?
    ensures Area(Construct(points, 0.0, hypot).value, dir) >= 0.0
  {
    var s := Construct(points, 0.0, hypot).value;
    assert s.zMin <= points[0].z <= s.zMax;
    HullAreaPositive(Footprint(points));
    AreaNonNegative(s, dir);
  }
}
