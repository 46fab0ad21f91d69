/** The ray-casting test of `PointInHull` on a surface built from a convex
    hull: a point strictly inside the hull sees exactly one side cross the
    horizontal ray to its right, so the test reports it inside. */
module Inside {
  import opened Vectors
  import opened Hull
  import opened Polygon
  import opened Intersection
  import opened Convexity

  /** Edge `i` of the closed polygon `h` rises through height `y`, with the
      half-open convention of the ray caster: from at or below `y` to above. */
  predicate Rises(h: seq<Vec2>, i: nat, y: real)
    requires i < |h|
  {
    h[i].y <= y < h[Next(|h|, i)].y
  }

  // ---------------------------------------------------------------------
  // A side with the point on its left crosses to the right iff it rises

  lemma ProductOrder(k: real, x: real, y: real)
    requires k * x < k * y
    ensures k > 0.0 ==> x < y
    ensures k < 0.0 ==> y < x
  {
    assert k * (y - x) > 0.0;
  }

  /** A side that has `pos` strictly on its left crosses the ray to the right
      of `pos` exactly when it rises through `pos.y`; a falling side crosses
      the line to the left of `pos`. */
  lemma SideCrossesRightIffRises(s: Surface, i: nat, pos: Vec2)
    requires Closed(s) && i < |s.sides|
    requires Cross(s.sides[i].origin, s.sides[Next(|s.sides|, i)].origin, pos) > 0.0
    ensures CrossesRight(s, i, pos) <==> Rises(Vertices(s), i, pos.y)
  {
    var a := s.sides[i].origin;
    var v := s.sides[i].vector;
    var b := s.sides[Next(|s.sides|, i)].origin;
    assert b == Add(a, v);
    if Straddles(a.y, b.y, pos.y) {
      var t := (pos.y - a.y) * v.x / v.y;
      assert t * v.y == (pos.y - a.y) * v.x;
      assert Cross(a, b, pos) == v.x * (pos.y - a.y) - v.y * (pos.x - a.x);
      ProductOrder(v.y, pos.x - a.x, t);
    }
  }

  /** The crossing count when exactly one side crosses. */
  lemma {:induction false} CrossingsOfOnlyCrossing(s: Surface, pos: Vec2, k: nat, j: nat)
    requires Closed(s) && k <= |s.sides| && j < |s.sides|
    requires CrossesRight(s, j, pos)
    requires forall i :: 0 <= i < |s.sides| && CrossesRight(s, i, pos) ==> i == j
    ensures Crossings(s, pos, k) == if j < k then 1 else 0
  {
    if k > 0 {
      CrossingsOfOnlyCrossing(s, pos, k - 1, j);
    }
  }

  // ---------------------------------------------------------------------
  // At most one edge of the hull rises through any height

  /** Two forward edges turning left: in the lower chain a level or rising
      edge is followed by a rising one, in the upper chain a level or falling
      edge by a falling one. */
  lemma TurnKeepsClimb(u: Vec2, v: Vec2, up: bool)
    requires Forward(u, up) && Forward(v, up) && CrossV(u, v) > 0.0
    ensures up && u.y >= 0.0 ==> v.y > 0.0
    ensures !up && u.y <= 0.0 ==> v.y < 0.0
    decreases if up then 0 else 1
  {
    if !up {
      assert CrossV(Neg(u), Neg(v)) == CrossV(u, v);
      TurnKeepsClimb(Neg(u), Neg(v), true);
    } else if u.y >= 0.0 {
      if u.x != 0.0 {
        assert u.y * v.x >= 0.0;
        assert u.x * v.y > 0.0;
      }
    }
  }

  lemma ChainTurn(c: seq<Vec2>, up: bool, j: nat)
    requires Monotone(c, up) && StrictlyCcw(c) && j + 2 < |c|
    ensures up && c[j].y <= c[j + 1].y ==> c[j + 1].y < c[j + 2].y
    ensures !up && c[j + 1].y <= c[j].y ==> c[j + 2].y < c[j + 1].y
  {
    assert Before(c[j], c[j + 1], up) && Before(c[j + 1], c[j + 2], up);
    BeforeIsForward(c[j], c[j + 1], up);
    BeforeIsForward(c[j + 1], c[j + 2], up);
    CrossIsEdgeCross(c[j], c[j + 1], c[j + 2]);
    assert Ccw(c[j], c[j + 1], c[j + 2]);
    TurnKeepsClimb(Sub(c[j + 1], c[j]), Sub(c[j + 2], c[j + 1]), up);
  }

  /** Once the lower chain stops falling it keeps rising. */
  lemma {:induction false} LowerKeepsRising(c: seq<Vec2>, i: nat, j: nat)
    requires Monotone(c, true) && StrictlyCcw(c)
    requires i < j < |c| && c[i].y <= c[i + 1].y
    ensures c[j - 1].y <= c[j].y && c[i + 1].y <= c[j].y
  {
    if j > i + 1 {
      LowerKeepsRising(c, i, j - 1);
      ChainTurn(c, true, j - 2);
    }
  }

  /** Before a rising edge the upper chain has only risen. */
  lemma {:induction false} UpperRoseBefore(c: seq<Vec2>, k: nat, j: nat)
    requires Monotone(c, false) && StrictlyCcw(c)
    requires k <= j && j + 1 < |c| && c[j].y < c[j + 1].y
    ensures c[k].y < c[k + 1].y && c[k].y <= c[j].y
    decreases j - k
  {
    if k < j {
      UpperRoseBefore(c, k + 1, j);
      ChainTurn(c, false, k);
    }
  }

  /** No two edges of two joined chains rise through the same height. */
  lemma OneRisingEdge(h: seq<Vec2>, lower: seq<Vec2>, upper: seq<Vec2>, y: real, i: nat, j: nat)
    requires JoinedChains(h, lower, upper)
    requires i < j < |h|
    ensures !(Rises(h, i, y) && Rises(h, j, y))
  {
    var m := JoinedEdges(h, lower, upper);
    if Rises(h, i, y) && Rises(h, j, y) {
      if j < m {
        LowerKeepsRising(lower, i, j);
      } else if m <= i {
        UpperRoseBefore(upper, i - m + 1, j - m);
      } else {
        LowerKeepsRising(lower, i, |lower| - 1);
        UpperRoseBefore(upper, 0, j - m);
      }
    }
  }

  // ---------------------------------------------------------------------
  // A point strictly inside has some edge rising through its height

  lemma LowestVertex(h: seq<Vec2>) returns (k: nat)
    requires |h| > 0
    ensures k < |h| && forall i :: 0 <= i < |h| ==> h[k].y <= h[i].y
  {
    k := 0;
    var j := 1;
    while j < |h|
      invariant 1 <= j <= |h| && k < j
      invariant forall i :: 0 <= i < j ==> h[k].y <= h[i].y
    {
      if h[j].y < h[k].y {
        k := j;
      }
      j := j + 1;
    }
  }

  lemma HighestVertex(h: seq<Vec2>) returns (k: nat)
    requires |h| > 0
    ensures k < |h| && forall i :: 0 <= i < |h| ==> h[i].y <= h[k].y
  {
    k := 0;
    var j := 1;
    while j < |h|
      invariant 1 <= j <= |h| && k < j
      invariant forall i :: 0 <= i < j ==> h[i].y <= h[k].y
    {
      if h[j].y > h[k].y {
        k := j;
      }
      j := j + 1;
    }
  }

  /** At a strictly convex vertex no lower than its neighbours, a point
      strictly left of both its edges lies strictly below the vertex. */
  lemma BelowPeak(a: Vec2, t: Vec2, b: Vec2, p: Vec2)
    requires Ccw(a, t, b) && Cross(a, t, p) > 0.0 && Cross(t, b, p) > 0.0
    requires a.y <= t.y && b.y <= t.y
    ensures p.y < t.y
  {
    var i, o, w := Sub(t, a), Sub(b, t), Sub(p, t);
    assert Cross(a, t, p) == CrossV(i, w);
    assert Cross(t, b, p) == CrossV(o, w);
    assert Cross(a, t, b) == CrossV(i, o);
    // cross(i,o) w == cross(w,o) i + cross(i,w) o, y component
    assert CrossV(i, o) * w.y == CrossV(w, o) * i.y + CrossV(i, w) * o.y;
    assert i.y != 0.0 || o.y != 0.0;
    WedgeSign(CrossV(i, o), w.y, CrossV(w, o), i.y, CrossV(i, w), o.y);
  }

  /** The sign argument of `BelowPeak` on plain numbers. */
  lemma WedgeSign(c: real, wy: real, a: real, iy: real, b: real, oy: real)
    requires c > 0.0 && c * wy == a * iy + b * oy
    requires a < 0.0 && b > 0.0 && iy >= 0.0 && oy <= 0.0 && (iy > 0.0 || oy < 0.0)
    ensures wy < 0.0
  {
    assert a * iy <= 0.0 && b * oy <= 0.0;
    assert a * iy < 0.0 || b * oy < 0.0;
    assert c * wy < 0.0;
  }

  lemma NegCross(o: Vec2, a: Vec2, b: Vec2)
    ensures Cross(Neg(o), Neg(a), Neg(b)) == Cross(o, a, b)
  {
  }

  /** At a strictly convex vertex no higher than its neighbours, a point
      strictly left of both its edges lies strictly above the vertex. */
  lemma AboveValley(a: Vec2, t: Vec2, b: Vec2, p: Vec2)
    requires Ccw(a, t, b) && Cross(a, t, p) > 0.0 && Cross(t, b, p) > 0.0
    requires t.y <= a.y && t.y <= b.y
    ensures t.y < p.y
  {
    NegCross(a, t, b);
    NegCross(a, t, p);
    NegCross(t, b, p);
    BelowPeak(Neg(a), Neg(t), Neg(b), Neg(p));
  }

  lemma {:induction false} WalkRises(h: seq<Vec2>, y: real, a: nat, b: nat) returns (i: nat)
    requires a < b < |h| && h[a].y <= y < h[b].y
    ensures a <= i < b && Rises(h, i, y)
    decreases b - a
  {
    if h[a + 1].y > y {
      i := a;
    } else {
      i := WalkRises(h, y, a + 1, b);
    }
  }

  /** Going round a closed polygon from a vertex at or below `y` to one above
      it, some edge rises through `y`. */
  lemma SomeEdgeRises(h: seq<Vec2>, y: real, a: nat, b: nat) returns (i: nat)
    requires a < |h| && b < |h| && h[a].y <= y < h[b].y
    ensures i < |h| && Rises(h, i, y)
  {
    var n := |h|;
    if a < b {
      i := WalkRises(h, y, a, b);
    } else if h[n - 1].y > y {
      i := WalkRises(h, y, a, n - 1);
    } else if h[0].y > y {
      i := n - 1;
    } else {
      i := WalkRises(h, y, 0, b);
    }
  }

  /** A point strictly left of every edge of a polygon that turns strictly
      counter-clockwise at every vertex lies strictly between its lowest and
      highest vertex, so some edge rises through its height. */
  lemma InsideSomeEdgeRises(h: seq<Vec2>, p: Vec2) returns (i: nat)
    requires |h| >= 3
    requires forall i :: 0 <= i < |h| ==> Ccw(h[i], h[Next(|h|, i)], h[Next(|h|, Next(|h|, i))])
    requires forall i :: 0 <= i < |h| ==> Cross(h[i], h[Next(|h|, i)], p) > 0.0
    ensures i < |h| && Rises(h, i, p.y)
  {
    var n := |h|;
    var lo := LowestVertex(h);
    var hi := HighestVertex(h);
    var l := Prev(n, lo);
    assert Next(n, l) == lo;
    AboveValley(h[l], h[lo], h[Next(n, lo)], p);
    var k := Prev(n, hi);
    assert Next(n, k) == hi;
    BelowPeak(h[k], h[hi], h[Next(n, hi)], p);
    i := SomeEdgeRises(h, p.y, lo, hi);
  }

  // ---------------------------------------------------------------------
  // The ray caster on the hull

  /** Exactly one side of the surface built from two joined chains crosses
      the ray to the right of a point strictly inside. */
  lemma StrictlyInsideCrossesOnce(h: seq<Vec2>, lower: seq<Vec2>, upper: seq<Vec2>, zMin: real, zMax: real, p: Vec2)
    requires JoinedChains(h, lower, upper) && |h| >= 3
    requires forall i :: 0 <= i < |h| ==> Ccw(h[i], h[Next(|h|, i)], h[Next(|h|, Next(|h|, i))])
    requires forall i :: 0 <= i < |h| ==> Cross(h[i], h[Next(|h|, i)], p) > 0.0
    ensures var s := FromHull(h, zMin, zMax); Closed(s) && Crossings(s, p, |s.sides|) == 1
  {
    var s := FromHull(h, zMin, zMax);
    FromHullIsClosed(h, zMin, zMax);
    VerticesOfFromHull(h, zMin, zMax);
    var j := InsideSomeEdgeRises(h, p);
    forall i | 0 <= i < |h|
      ensures CrossesRight(s, i, p) <==> Rises(h, i, p.y)
    {
      SideCrossesRightIffRises(s, i, p);
    }
    forall i | 0 <= i < |h| && CrossesRight(s, i, p)
      ensures i == j
    {
      if i < j {
        OneRisingEdge(h, lower, upper, p.y, i, j);
      } else if j < i {
        OneRisingEdge(h, lower, upper, p.y, j, i);
      }
    }
    CrossingsOfOnlyCrossing(s, p, |h|, j);
  }

  /** `PointInHull` reports a point strictly left of every edge of the hull
      as inside: exactly one side crosses the ray to its right. */
  lemma StrictlyInsideIsInHull(ps: seq<Vec2>, zMin: real, zMax: real, p: Vec2)
    requires |ConvexHull(ps)| >= 3
    requires var h := ConvexHull(ps);
      forall i :: 0 <= i < |h| ==> Cross(h[i], h[Next(|h|, i)], p) > 0.0
    ensures var s := FromHull(ConvexHull(ps), zMin, zMax);
      Closed(s) && Crossings(s, p, |s.sides|) == 1 && PointInHull(s, p)
  {
    var lower, upper, m := HullEdges(ps);
    HullCyclicCcw(ps);
    StrictlyInsideCrossesOnce(ConvexHull(ps), lower, upper, zMin, zMax, p);
  }
}
