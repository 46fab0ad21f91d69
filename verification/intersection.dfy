/** Ray queries on the extruded polygon: the ray-casting point-in-hull
    test, the distances along a ray to the sides and to the caps, the
    NaN-aware ordering helpers and `GetIntersection`.

    A double that may be NaN is a `Distance`, with `None` for NaN. */
module Intersection {
  import opened Wrappers
  import opened Vectors
  import opened Polygon

  type Distance = Option<real>

  datatype Error = NoHorizontalComponent   // "Direction must have a horizontal component"

  function Abs(x: real): real {
    if x < 0.0 then -x else x
  }

  /** Each side ends where the next one starts: the layout the constructor
      builds and every query relies on. */
  predicate Closed(s: Surface) {
    forall i :: 0 <= i < |s.sides| ==>
      Add(s.sides[i].origin, s.sides[i].vector) == s.sides[Next(|s.sides|, i)].origin
  }

  lemma FromHullIsClosed(hull: seq<Vec2>, zMin: real, zMax: real)
    ensures Closed(FromHull(hull, zMin, zMax))
  {
  }

  // ---------------------------------------------------------------------
  // Point in hull

  /** The half-open test of the ray caster: one end strictly above `y`,
      the other at or below it. */
  predicate Straddles(a: real, b: real, y: real) {
    (a > y && b <= y) || (a <= y && b > y)
  }

  /** Does side `i` cross the horizontal line through `pos` strictly to
      the right of `pos`? */
  predicate CrossesRight(s: Surface, i: nat, pos: Vec2)
    requires Closed(s) && i < |s.sides|
  {
    var p := s.sides[i];
    var np := s.sides[Next(|s.sides|, i)];
    Straddles(p.origin.y, np.origin.y, pos.y) &&
      (assert Add(p.origin, p.vector) == np.origin;
       pos.x < p.origin.x + (pos.y - p.origin.y) * p.vector.x / p.vector.y)
  }

  function Crossings(s: Surface, pos: Vec2, k: nat): (n: nat)
    requires Closed(s) && k <= |s.sides|
    ensures n <= k
  {
    if k == 0 then 0
    else Crossings(s, pos, k - 1) + (if CrossesRight(s, k - 1, pos) then 1 else 0)
  }

  /** `PointInHull`: an odd number of crossings to the right. */
  predicate PointInHull(s: Surface, pos: Vec2)
    requires Closed(s)
  {
    Crossings(s, pos, |s.sides|) % 2 == 1
  }

  lemma {:induction false} NoStraddleNoCrossings(s: Surface, pos: Vec2, k: nat)
    requires Closed(s) && k <= |s.sides|
    requires forall i :: 0 <= i < k ==>
      !Straddles(s.sides[i].origin.y, s.sides[Next(|s.sides|, i)].origin.y, pos.y)
    ensures Crossings(s, pos, k) == 0
  {
    if k > 0 { NoStraddleNoCrossings(s, pos, k - 1); }
  }

  /** A point above every vertex, or at or below every vertex, is outside. */
  lemma PointOutsideYRangeIsOutside(s: Surface, pos: Vec2)
    requires Closed(s)
    requires (forall i :: 0 <= i < |s.sides| ==> s.sides[i].origin.y > pos.y) ||
             (forall i :: 0 <= i < |s.sides| ==> s.sides[i].origin.y <= pos.y)
    ensures !PointInHull(s, pos)
  {
    NoStraddleNoCrossings(s, pos, |s.sides|);
  }

  /** Where a straddling segment from height `a` to `b` meets height `y`,
      its x lies between the end points' x. */
  lemma CrossingBetweenEnds(ox: real, oy: real, nx: real, ny: real, y: real, bound: real)
    requires Straddles(oy, ny, y)
    requires ox <= bound && nx <= bound
    ensures ox + (y - oy) * (nx - ox) / (ny - oy) <= bound
  {
    RatioInUnit(y - oy, ny - oy);
    assert (y - oy) * (nx - ox) / (ny - oy) == ((y - oy) / (ny - oy)) * (nx - ox);
    BetweenBelow(ox, nx, (y - oy) / (ny - oy), bound);
  }

  lemma RatioInUnit(n: real, d: real)
    requires (0.0 <= n <= d && d > 0.0) || (d <= n <= 0.0 && d < 0.0)
    ensures 0.0 <= n / d <= 1.0
  {
  }

  lemma NonPositiveProduct(t: real, d: real)
    requires t >= 0.0 && d <= 0.0
    ensures t * d <= 0.0
  {
  }

  lemma FractionBelow(a: real, b: real, t: real)
    requires 0.0 <= t <= 1.0 && a <= b
    ensures a + t * (b - a) <= b
  {
    assert t * (b - a) <= b - a;
  }

  /** A point between two values at or below `bound` is at or below it. */
  lemma BetweenBelow(a: real, b: real, t: real, bound: real)
    requires 0.0 <= t <= 1.0 && a <= bound && b <= bound
    ensures a + t * (b - a) <= bound
  {
    if b >= a {
      FractionBelow(a, b, t);
    } else {
      NonPositiveProduct(t, b - a);
    }
  }

  /** No side whose two ends are at or left of `pos` crosses to its right. */
  lemma NoCrossingRightOfEnds(s: Surface, i: nat, pos: Vec2)
    requires Closed(s) && i < |s.sides|
    requires s.sides[i].origin.x <= pos.x && s.sides[Next(|s.sides|, i)].origin.x <= pos.x
    ensures !CrossesRight(s, i, pos)
  {
    var p := s.sides[i];
    var np := s.sides[Next(|s.sides|, i)];
    if Straddles(p.origin.y, np.origin.y, pos.y) {
      assert Add(p.origin, p.vector) == np.origin;
      assert p.vector.x == np.origin.x - p.origin.x && p.vector.y == np.origin.y - p.origin.y;
      CrossingBetweenEnds(p.origin.x, p.origin.y, np.origin.x, np.origin.y, pos.y, pos.x);
    }
  }

  lemma {:induction false} RightOfVerticesNoCrossings(s: Surface, pos: Vec2, k: nat)
    requires Closed(s) && k <= |s.sides|
    requires forall i :: 0 <= i < |s.sides| ==> s.sides[i].origin.x <= pos.x
    ensures Crossings(s, pos, k) == 0
  {
    if k > 0 {
      RightOfVerticesNoCrossings(s, pos, k - 1);
      NoCrossingRightOfEnds(s, k - 1, pos);
    }
  }

  /** A point at or right of every vertex is outside: no side crosses to
      its right. */
  lemma PointRightOfHullIsOutside(s: Surface, pos: Vec2)
    requires Closed(s)
    requires forall i :: 0 <= i < |s.sides| ==> s.sides[i].origin.x <= pos.x
    ensures !PointInHull(s, pos)
  {
    RightOfVerticesNoCrossings(s, pos, |s.sides|);
  }

  // ---------------------------------------------------------------------
  // Distance to the sides

  /** `dir.y*v.x - dir.x*v.y`: zero exactly when the ray runs parallel to
      the side, where the source's `alpha` is infinite or NaN. */
  function Denom(side: Side, dir: Vec3): real {
    dir.y * side.vector.x - dir.x * side.vector.y
  }

  /** The source's `alpha`: where along the side the ray's line meets it. */
  function Alpha(side: Side, pos: Vec3, dir: Vec3): real
    requires Denom(side, dir) != 0.0
  {
    var x := side.origin.x - pos.x;
    var y := side.origin.y - pos.y;
    (dir.x * y - dir.y * x) / Denom(side, dir)
  }

  /** The source's `beta` for one side, or `None` when the side is not hit:
      parallel to the ray, or met outside `0 <= alpha < 1`. */
  function SideHit(side: Side, pos: Vec3, dir: Vec3): (r: Distance)
    ensures r.Some? ==> Denom(side, dir) != 0.0 && 0.0 <= Alpha(side, pos, dir) < 1.0
  {
    if Denom(side, dir) == 0.0 then None
    else
      var alpha := Alpha(side, pos, dir);
      if 0.0 <= alpha < 1.0 then
        var x := side.origin.x - pos.x;
        var y := side.origin.y - pos.y;
        if dir.x != 0.0 then Some((x + alpha * side.vector.x) / dir.x)
        else Some((y + alpha * side.vector.y) / dir.y)
      else None
  }

  /** Two unknowns `t` (along the ray) and `a` (along the side) solving the
      2x2 system `t*d - a*v == w` when its determinant is non-zero. */
  lemma SolveRaySide(wx: real, wy: real, vx: real, vy: real, dx: real, dy: real, t: real, a: real)
    requires dy * vx - dx * vy != 0.0
    requires a * (dy * vx - dx * vy) == dx * wy - dy * wx
    requires (dx != 0.0 && t * dx == wx + a * vx) || (dx == 0.0 && t * dy == wy + a * vy)
    ensures t * dx == wx + a * vx && t * dy == wy + a * vy
  {
    if dx != 0.0 {
      assert (t * dy) * dx == (wx + a * vx) * dy;
      assert (wx + a * vx) * dy == (wy + a * vy) * dx;
      assert (t * dy - (wy + a * vy)) * dx == 0.0;
    }
  }

  lemma DivTimes(n: real, d: real)
    requires d != 0.0
    ensures (n / d) * d == n
  {
  }

  lemma TimesDiv(a: real, n: real, d: real)
    requires d != 0.0 && a * d == n
    ensures a == n / d
  {
  }

  /** A side hit is a crossing: the ray at distance `beta` is the point of
      the side at fraction `alpha`. */
  lemma SideHitIsCrossing(side: Side, pos: Vec3, dir: Vec3)
    requires SideHit(side, pos, dir).Some?
    ensures XY(Along(pos, SideHit(side, pos, dir).value, dir)) ==
      Along2(side.origin, Alpha(side, pos, dir), side.vector)
  {
    var v := side.vector;
    var wx := side.origin.x - pos.x;
    var wy := side.origin.y - pos.y;
    var a := Alpha(side, pos, dir);
    var t := SideHit(side, pos, dir).value;
    DivTimes(dir.x * wy - dir.y * wx, Denom(side, dir));
    SideHitSolvesOneRow(side, pos, dir);
    SolveRaySide(wx, wy, v.x, v.y, dir.x, dir.y, t, a);
  }

  /** The row of the ray/side system that `SideHit` divides by. */
  lemma SideHitSolvesOneRow(side: Side, pos: Vec3, dir: Vec3)
    requires SideHit(side, pos, dir).Some?
    ensures var t := SideHit(side, pos, dir).value;
      var a := Alpha(side, pos, dir);
      || (dir.x != 0.0 && t * dir.x == side.origin.x - pos.x + a * side.vector.x)
      || (dir.x == 0.0 && t * dir.y == side.origin.y - pos.y + a * side.vector.y)
  {
    var a := Alpha(side, pos, dir);
    var hit := SideHit(side, pos, dir);
    if dir.x != 0.0 {
      assert hit.value == (side.origin.x - pos.x + a * side.vector.x) / dir.x;
      DivTimes(side.origin.x - pos.x + a * side.vector.x, dir.x);
    } else {
      assert hit.value == (side.origin.y - pos.y + a * side.vector.y) / dir.y;
      DivTimes(side.origin.y - pos.y + a * side.vector.y, dir.y);
    }
  }

  /** Every crossing of a non-parallel side is found: if the ray at `t`
      meets the side's line at fraction `a`, then `a` is `alpha`, and the
      side reports `t` exactly when `0 <= a < 1`. */
  lemma CrossingIsSideHit(side: Side, pos: Vec3, dir: Vec3, t: real, a: real)
    requires Denom(side, dir) != 0.0
    requires XY(Along(pos, t, dir)) == Along2(side.origin, a, side.vector)
    ensures a == Alpha(side, pos, dir)
    ensures SideHit(side, pos, dir) == Some(t) <==> 0.0 <= a < 1.0
  {
    var v := side.vector;
    var wx := side.origin.x - pos.x;
    var wy := side.origin.y - pos.y;
    assert t * dir.x - a * v.x == wx && t * dir.y - a * v.y == wy;
    SystemDeterminesAlong(wx, wy, v.x, v.y, dir.x, dir.y, t, a);
    TimesDiv(a, dir.x * wy - dir.y * wx, Denom(side, dir));
    assert Alpha(side, pos, dir) == a;
    if 0.0 <= a < 1.0 {
      assert t * dir.x == wx + a * v.x && t * dir.y == wy + a * v.y;
      HitFromSolution(side, pos, dir, t);
    }
  }

  /** A solution `t` of the ray/side system at an in-range fraction is the
      distance `SideHit` reports. */
  lemma HitFromSolution(side: Side, pos: Vec3, dir: Vec3, t: real)
    requires Denom(side, dir) != 0.0 && 0.0 <= Alpha(side, pos, dir) < 1.0
    requires t * dir.x == side.origin.x - pos.x + Alpha(side, pos, dir) * side.vector.x
    requires t * dir.y == side.origin.y - pos.y + Alpha(side, pos, dir) * side.vector.y
    ensures SideHit(side, pos, dir) == Some(t)
  {
    var a := Alpha(side, pos, dir);
    if dir.x != 0.0 {
      TimesDiv(t, side.origin.x - pos.x + a * side.vector.x, dir.x);
      var hit := SideHit(side, pos, dir);
      assert hit.Some?;
      assert hit.value == (side.origin.x - pos.x + a * side.vector.x) / dir.x;
    } else {
      TimesDiv(t, side.origin.y - pos.y + a * side.vector.y, dir.y);
      var hit := SideHit(side, pos, dir);
      assert hit.Some?;
      assert hit.value == (side.origin.y - pos.y + a * side.vector.y) / dir.y;
    }
  }

  /** Cramer's rule for the fraction along the side. */
  lemma SystemDeterminesAlong(wx: real, wy: real, vx: real, vy: real, dx: real, dy: real, t: real, a: real)
    requires t * dx - a * vx == wx && t * dy - a * vy == wy
    ensures a * (dy * vx - dx * vy) == dx * wy - dy * wx
    ensures dx == 0.0 && dy * vx - dx * vy != 0.0 ==> dy != 0.0
  {
    assert dx * wy - dy * wx == dx * (t * dy - a * vy) - dy * (t * dx - a * vx);
  }

  /** The hit distance of every side, in side order. */
  function SideHits(s: Surface, pos: Vec3, dir: Vec3): (hs: seq<Distance>)
    ensures |hs| == |s.sides|
    ensures forall i :: 0 <= i < |hs| ==> hs[i] == SideHit(s.sides[i], pos, dir)
  {
    seq(|s.sides|, i requires 0 <= i < |s.sides| => SideHit(s.sides[i], pos, dir))
  }

  /** One step of the side loop: `!(beta >= first)` and `!(beta <= second)`
      are true when the running bound is still NaN. */
  function Widen(acc: (Distance, Distance), beta: real): (Distance, Distance) {
    (if !(acc.0.Some? && beta >= acc.0.value) then Some(beta) else acc.0,
     if !(acc.1.Some? && beta <= acc.1.value) then Some(beta) else acc.1)
  }

  /** The side loop over the first `k` sides, starting from (NaN, NaN). */
  function HullScan(s: Surface, pos: Vec3, dir: Vec3, k: nat): (Distance, Distance)
    requires k <= |s.sides|
  {
    if k == 0 then (None, None)
    else
      var acc := HullScan(s, pos, dir, k - 1);
      match SideHit(s.sides[k - 1], pos, dir)
      case None => acc
      case Some(beta) => Widen(acc, beta)
  }

  // ---------------------------------------------------------------------
  // NaN-aware minimum and maximum

  function Min2(a: Distance, b: Distance): Distance {
    if a.None? then b else if b.None? then a
    else Some(if b.value < a.value then b.value else a.value)
  }

  function Max2(a: Distance, b: Distance): Distance {
    if a.None? then b else if b.None? then a
    else Some(if b.value > a.value then b.value else a.value)
  }

  /** `numpy.nanmin`: the least non-NaN value, NaN when there is none. */
  function NanMin(xs: seq<Distance>): (r: Distance)
    ensures r.None? <==> forall i :: 0 <= i < |xs| ==> xs[i].None?
    ensures r.Some? ==> r in xs && forall i :: 0 <= i < |xs| && xs[i].Some? ==> r.value <= xs[i].value
  {
    if |xs| == 0 then None
    else
      var init := xs[..|xs| - 1];
      assert forall i :: 0 <= i < |init| ==> init[i] == xs[i];
      Min2(NanMin(init), xs[|xs| - 1])
  }

  /** `numpy.nanmax`: the greatest non-NaN value, NaN when there is none. */
  function NanMax(xs: seq<Distance>): (r: Distance)
    ensures r.None? <==> forall i :: 0 <= i < |xs| ==> xs[i].None?
    ensures r.Some? ==> r in xs && forall i :: 0 <= i < |xs| && xs[i].Some? ==> r.value >= xs[i].value
  {
    if |xs| == 0 then None
    else
      var init := xs[..|xs| - 1];
      assert forall i :: 0 <= i < |init| ==> init[i] == xs[i];
      Max2(NanMax(init), xs[|xs| - 1])
  }

  lemma Min2Associative(a: Distance, b: Distance, c: Distance)
    ensures Min2(Min2(a, b), c) == Min2(a, Min2(b, c))
  {
  }

  lemma Max2Associative(a: Distance, b: Distance, c: Distance)
    ensures Max2(Max2(a, b), c) == Max2(a, Max2(b, c))
  {
  }

  /** The NaN-aware minimum of a concatenation is the minimum of the
      parts' minima. */
  lemma {:induction false} NanMinAppend(xs: seq<Distance>, ys: seq<Distance>)
    ensures NanMin(xs + ys) == Min2(NanMin(xs), NanMin(ys))
  {
    if |ys| == 0 {
      assert xs + ys == xs;
    } else {
      var init := ys[..|ys| - 1];
      NanMinAppend(xs, init);
      assert (xs + ys)[..|xs + ys| - 1] == xs + init;
      Min2Associative(NanMin(xs), NanMin(init), ys[|ys| - 1]);
    }
  }

  lemma {:induction false} NanMaxAppend(xs: seq<Distance>, ys: seq<Distance>)
    ensures NanMax(xs + ys) == Max2(NanMax(xs), NanMax(ys))
  {
    if |ys| == 0 {
      assert xs + ys == xs;
    } else {
      var init := ys[..|ys| - 1];
      NanMaxAppend(xs, init);
      assert (xs + ys)[..|xs + ys| - 1] == xs + init;
      Max2Associative(NanMax(xs), NanMax(init), ys[|ys| - 1]);
    }
  }

  /** The side loop computes the NaN-aware minimum and maximum of the hits. */
  lemma {:induction false} HullScanIsMinMax(s: Surface, pos: Vec3, dir: Vec3, k: nat)
    requires k <= |s.sides|
    ensures HullScan(s, pos, dir, k) == (NanMin(SideHits(s, pos, dir)[..k]), NanMax(SideHits(s, pos, dir)[..k]))
  {
    if k > 0 {
      HullScanIsMinMax(s, pos, dir, k - 1);
      var hs := SideHits(s, pos, dir);
      assert hs[..k] == hs[..k - 1] + [hs[k - 1]];
      NanMinAppend(hs[..k - 1], [hs[k - 1]]);
      NanMaxAppend(hs[..k - 1], [hs[k - 1]]);
    }
  }

  /** `GetDistanceToHull` with the guard it evidently means: a direction
      with no horizontal component is rejected. */
  function DistanceToHull(s: Surface, pos: Vec3, dir: Vec3): (r: Result<(Distance, Distance), Error>)
    ensures r.Failure? <==> dir.x == 0.0 && dir.y == 0.0
    ensures r.Success? ==> r.value == (NanMin(SideHits(s, pos, dir)), NanMax(SideHits(s, pos, dir)))
  {
    if dir.x == 0.0 && dir.y == 0.0 then Failure(NoHorizontalComponent)
    else
      HullScanIsMinMax(s, pos, dir, |s.sides|);
      assert SideHits(s, pos, dir)[..|s.sides|] == SideHits(s, pos, dir);
      Success(HullScan(s, pos, dir, |s.sides|))
  }

  /** `GetDistanceToHull` as written: the guard tests `dir.x + dir.y == 0`,
      which also rejects every direction with `dir.x == -dir.y`. */
  function DistanceToHullAsWritten(s: Surface, pos: Vec3, dir: Vec3): (r: Result<(Distance, Distance), Error>)
    ensures r.Failure? <==> dir.x + dir.y == 0.0
    ensures r.Success? ==> r == DistanceToHull(s, pos, dir)
  {
    if dir.x + dir.y == 0.0 then Failure(NoHorizontalComponent)
    else
      HullScanIsMinMax(s, pos, dir, |s.sides|);
      assert SideHits(s, pos, dir)[..|s.sides|] == SideHits(s, pos, dir);
      Success(HullScan(s, pos, dir, |s.sides|))
  }

  // ---------------------------------------------------------------------
  // Distance to the caps

  /** `GetDistanceToCap` with the distance measured along the ray: the
      parameter where the ray meets the plane `z == capZ`, if that point is
      inside the hull. */
  function CapHit(s: Surface, p: Vec3, dir: Vec3, capZ: real): (r: Distance)
    requires Closed(s) && dir.z != 0.0
    ensures r.Some? ==> Along(p, r.value, dir).z == capZ
  {
    var d := (capZ - p.z) / dir.z;
    DivTimes(capZ - p.z, dir.z);
    if PointInHull(s, XY(Along(p, d, dir))) then Some(d) else None
  }

  /** A cap hit is found exactly where the ray meets the cap plane inside
      the hull. */
  lemma CapHitIsCrossing(s: Surface, p: Vec3, dir: Vec3, capZ: real, t: real)
    requires Closed(s) && dir.z != 0.0
    requires Along(p, t, dir).z == capZ
    ensures CapHit(s, p, dir, capZ) == Some(t) <==> PointInHull(s, XY(Along(p, t, dir)))
  {
    TimesDiv(t, capZ - p.z, dir.z);
  }

  /** `GetDistanceToCap` as written: `d = (p.z - capZ)/dir.z`, and the
      point tested is `p + d*dir`. A reported distance is the negated
      distance to the cap plane. */
  function CapHitAsWritten(s: Surface, p: Vec3, dir: Vec3, capZ: real): (r: Distance)
    requires Closed(s) && dir.z != 0.0
    ensures r.Some? ==> Along(p, -r.value, dir).z == capZ
  {
    var d := (p.z - capZ) / dir.z;
    DivTimes(p.z - capZ, dir.z);
    if PointInHull(s, XY(Along(p, d, dir))) then Some(d) else None
  }

  /** As written, the cap is reported at `-t` when the ray reaches its plane
      at `t`, and exactly when the reflected point `p - t*dir` lies in the
      hull, not the point where the ray meets the plane. */
  lemma CapHitAsWrittenIsReflected(s: Surface, p: Vec3, dir: Vec3, capZ: real, t: real)
    requires Closed(s) && dir.z != 0.0
    requires Along(p, t, dir).z == capZ
    ensures CapHitAsWritten(s, p, dir, capZ) == Some(-t) <==> PointInHull(s, XY(Along(p, -t, dir)))
    ensures CapHitAsWritten(s, p, dir, capZ).None? <==> !PointInHull(s, XY(Along(p, -t, dir)))
  {
    TimesDiv(-t, p.z - capZ, dir.z);
  }

  /** `make_ordered_pair`: swap exactly when `a > b`, which is false as
      soon as either is NaN. */
  function MakeOrderedPair(a: Distance, b: Distance): (r: (Distance, Distance))
    ensures r == (a, b) || r == (b, a)
    ensures a.Some? && b.Some? ==> r.0.value <= r.1.value
    ensures a.None? || b.None? ==> r == (a, b)
  {
    if !(a.Some? && b.Some? && a.value > b.value) then (a, b) else (b, a)
  }

  /** Python's `sorted` on two values swaps them only when `b < a`. */
  function SortedPair(a: Distance, b: Distance): (Distance, Distance) {
    if a.Some? && b.Some? && b.value < a.value then (b, a) else (a, b)
  }

  lemma SortedPairIsOrderedPair(a: Distance, b: Distance)
    ensures SortedPair(a, b) == MakeOrderedPair(a, b)
  {
  }

  /** The two cap hits, ascending: each reported distance takes the ray to
      one of the two cap planes. */
  function DistanceToCaps(s: Surface, p: Vec3, dir: Vec3): (r: (Distance, Distance))
    requires Closed(s) && dir.z != 0.0
    ensures r.0.Some? ==> Along(p, r.0.value, dir).z in {s.zMin, s.zMax}
    ensures r.1.Some? ==> Along(p, r.1.value, dir).z in {s.zMin, s.zMax}
    ensures r.0.Some? && r.1.Some? ==> r.0.value <= r.1.value
  {
    MakeOrderedPair(CapHit(s, p, dir, s.zMin), CapHit(s, p, dir, s.zMax))
  }

  /** The two as-written cap hits, ascending: each reported distance is the
      negated distance to one of the two cap planes. */
  function DistanceToCapsAsWritten(s: Surface, p: Vec3, dir: Vec3): (r: (Distance, Distance))
    requires Closed(s) && dir.z != 0.0
    ensures r.0.Some? ==> Along(p, -r.0.value, dir).z in {s.zMin, s.zMax}
    ensures r.1.Some? ==> Along(p, -r.1.value, dir).z in {s.zMin, s.zMax}
    ensures r.0.Some? && r.1.Some? ==> r.0.value <= r.1.value
  {
    MakeOrderedPair(CapHitAsWritten(s, p, dir, s.zMin), CapHitAsWritten(s, p, dir, s.zMax))
  }

  // ---------------------------------------------------------------------
  // std::min_element with the NaN orderings

  /** `nan_less`: NaN sorts after everything, so it is never chosen as a
      minimum while a number is available. */
  predicate NanLess(a: Distance, b: Distance) {
    if b.None? then true else if a.None? then false else a.value < b.value
  }

  predicate NanGreater(a: Distance, b: Distance) {
    if b.None? then true else if a.None? then false else a.value > b.value
  }

  /** `std::min_element` on the first `k` elements: scan from the front and
      move to an element when it is `less` than the current choice. */
  function MinElement(xs: seq<Distance>, less: (Distance, Distance) -> bool, k: nat): (r: Distance)
    requires 1 <= k <= |xs|
    ensures r in xs[..k]
  {
    if k == 1 then xs[0]
    else
      var best := MinElement(xs, less, k - 1);
      if less(xs[k - 1], best) then xs[k - 1] else best
  }

  /** With `nan_less`, `std::min_element` is `numpy.nanmin`. */
  lemma {:induction false} MinElementIsNanMin(xs: seq<Distance>, k: nat)
    requires 1 <= k <= |xs|
    ensures MinElement(xs, NanLess, k) == NanMin(xs[..k])
  {
    if k > 1 {
      MinElementIsNanMin(xs, k - 1);
      assert xs[..k] == xs[..k - 1] + [xs[k - 1]];
      NanMinAppend(xs[..k - 1], [xs[k - 1]]);
    } else {
      assert xs[..1] == [] + [xs[0]];
      NanMinAppend([], [xs[0]]);
    }
  }

  /** With `nan_greater`, `std::min_element` is `numpy.nanmax`. */
  lemma {:induction false} MinElementIsNanMax(xs: seq<Distance>, k: nat)
    requires 1 <= k <= |xs|
    ensures MinElement(xs, NanGreater, k) == NanMax(xs[..k])
  {
    if k > 1 {
      MinElementIsNanMax(xs, k - 1);
      assert xs[..k] == xs[..k - 1] + [xs[k - 1]];
      NanMaxAppend(xs[..k - 1], [xs[k - 1]]);
    } else {
      assert xs[..1] == [] + [xs[0]];
      NanMaxAppend([], [xs[0]]);
    }
  }

  // ---------------------------------------------------------------------
  // GetIntersection

  /** Every distance at which the ray crosses the boundary: the hits of the
      sides and, for a ray that is not horizontal, of the two caps. */
  function Candidates(s: Surface, p: Vec3, dir: Vec3): (cs: seq<Distance>)
    requires Closed(s)
    ensures |cs| == |s.sides| + (if dir.z != 0.0 then 2 else 0)
    ensures forall i :: 0 <= i < |s.sides| ==> cs[i] == SideHit(s.sides[i], p, dir)
    ensures forall i :: |s.sides| <= i < |cs| ==>
      cs[i].Some? ==> Along(p, cs[i].value, dir).z in {s.zMin, s.zMax}
  {
    SideHits(s, p, dir) +
      (if dir.z != 0.0 then [CapHit(s, p, dir, s.zMin), CapHit(s, p, dir, s.zMax)] else [])
  }

  /** `GetIntersection` with both corrections: cap distances measured along
      the ray, and side distances left as the 3-D distances they are. */
  function GetIntersection(s: Surface, p: Vec3, dir: Vec3): (Distance, Distance)
    requires Closed(s) && IsUnit(dir)
  {
    if Abs(dir.z) == 1.0 then DistanceToCaps(s, p, dir)
    else if dir.z == 0.0 then
      assert dir.x * dir.x + dir.y * dir.y == 1.0;
      HorizontalOf(dir);
      DistanceToHull(s, p, dir).value
    else
      ObliqueIsTilted(dir);
      HorizontalOf(dir);
      var sides := DistanceToHull(s, p, dir).value;
      var caps := DistanceToCaps(s, p, dir);
      var combo := [sides.0, sides.1, caps.0, caps.1];
      (MinElement(combo, NanLess, 4), MinElement(combo, NanGreater, 4))
  }

  lemma HorizontalOf(dir: Vec3)
    requires dir.x * dir.x + dir.y * dir.y > 0.0
    ensures dir.x != 0.0 || dir.y != 0.0
  {
  }

  lemma SumOfSquaresNonNegative(a: real, b: real)
    ensures a * a + b * b >= 0.0
  {
  }

  lemma SelfQuotient(a: real)
    ensures a != 0.0 ==> a == (a * a) / a
  {
  }

  lemma ZeroSquare(a: real)
    requires a * a == 0.0
    ensures a == 0.0
  {
    SelfQuotient(a);
  }

  lemma NonZeroProduct(a: real, b: real)
    requires a != 0.0 && b != 0.0
    ensures a * b != 0.0
  {
  }

  lemma SquaresZero(a: real, b: real)
    requires a * a + b * b == 0.0
    ensures a == 0.0 && b == 0.0
  {
    assert a * a >= 0.0 && b * b >= 0.0;
    ZeroSquare(a);
    ZeroSquare(b);
  }

  lemma SquareNotOne(z: real)
    requires z != 1.0 && z != -1.0
    ensures z * z != 1.0
  {
    assert (z - 1.0) * (z + 1.0) == z * z - 1.0;
    NonZeroProduct(z - 1.0, z + 1.0);
  }

  /** A unit direction that is neither vertical nor horizontal-free has a
      horizontal component and `dir.z^2 < 1`. */
  lemma ObliqueIsTilted(dir: Vec3)
    requires IsUnit(dir) && Abs(dir.z) != 1.0
    ensures dir.x * dir.x + dir.y * dir.y > 0.0
    ensures dir.z * dir.z < 1.0
  {
    SumOfSquaresNonNegative(dir.x, dir.y);
    SquareNotOne(dir.z);
  }

  /** A vertical unit direction has no horizontal component. */
  lemma VerticalHasNoHorizontal(dir: Vec3)
    requires IsUnit(dir) && Abs(dir.z) == 1.0
    ensures dir.x == 0.0 && dir.y == 0.0
  {
    assert dir.z * dir.z == 1.0;
    SquaresZero(dir.x, dir.y);
  }

  lemma NoSideHitsWhenVertical(s: Surface, p: Vec3, dir: Vec3)
    requires dir.x == 0.0 && dir.y == 0.0
    ensures NanMin(SideHits(s, p, dir)) == None && NanMax(SideHits(s, p, dir)) == None
  {
  }

  lemma MinOfOrderedPair(a: Distance, b: Distance)
    ensures NanMin([MakeOrderedPair(a, b).0, MakeOrderedPair(a, b).1]) == NanMin([a, b])
    ensures NanMax([MakeOrderedPair(a, b).0, MakeOrderedPair(a, b).1]) == NanMax([a, b])
    ensures MakeOrderedPair(a, b) == (NanMin([a, b]), NanMax([a, b])) || a.None? || b.None?
  {
    NanMinAppend([a], [b]);
    NanMaxAppend([a], [b]);
    NanMinAppend([b], [a]);
    NanMaxAppend([b], [a]);
    assert [a] + [b] == [a, b];
    assert [b] + [a] == [b, a];
  }

  lemma VerticalIntersection(s: Surface, p: Vec3, dir: Vec3)
    requires Closed(s) && IsUnit(dir) && Abs(dir.z) == 1.0
    ensures GetIntersection(s, p, dir) == (NanMin(Candidates(s, p, dir)), NanMax(Candidates(s, p, dir)))
  {
    var hs := SideHits(s, p, dir);
    VerticalHasNoHorizontal(dir);
    NoSideHitsWhenVertical(s, p, dir);
    var c0, c1 := CapHit(s, p, dir, s.zMin), CapHit(s, p, dir, s.zMax);
    assert Candidates(s, p, dir) == hs + [c0, c1];
    NanMinAppend(hs, [c0, c1]);
    NanMaxAppend(hs, [c0, c1]);
    MinOfOrderedPair(c0, c1);
    NanMinAppend([c0], [c1]);
    NanMaxAppend([c0], [c1]);
    assert [c0] + [c1] == [c0, c1];
  }

  lemma BoundsOfBounds(hs: seq<Distance>)
    ensures NanMin([NanMin(hs), NanMax(hs)]) == NanMin(hs)
    ensures NanMax([NanMin(hs), NanMax(hs)]) == NanMax(hs)
  {
    var lo, hi := NanMin(hs), NanMax(hs);
    NanMinAppend([lo], [hi]);
    NanMaxAppend([lo], [hi]);
    assert [lo] + [hi] == [lo, hi];
  }

  /** The oblique merge: the side bounds and the ordered cap pair, scanned
      by `std::min_element` with `nan_less`, give the least hit of all. */
  lemma MergeOfFourMin(hs: seq<Distance>, c0: Distance, c1: Distance)
    ensures var caps := MakeOrderedPair(c0, c1);
      MinElement([NanMin(hs), NanMax(hs), caps.0, caps.1], NanLess, 4) == NanMin(hs + [c0, c1])
  {
    var caps := MakeOrderedPair(c0, c1);
    var combo := [NanMin(hs), NanMax(hs), caps.0, caps.1];
    MinElementIsNanMin(combo, 4);
    assert combo[..4] == [NanMin(hs), NanMax(hs)] + [caps.0, caps.1];
    NanMinAppend([NanMin(hs), NanMax(hs)], [caps.0, caps.1]);
    BoundsOfBounds(hs);
    MinOfOrderedPair(c0, c1);
    NanMinAppend(hs, [c0, c1]);
  }

  /** The same merge with `nan_greater` gives the greatest hit of all. */
  lemma MergeOfFourMax(hs: seq<Distance>, c0: Distance, c1: Distance)
    ensures var caps := MakeOrderedPair(c0, c1);
      MinElement([NanMin(hs), NanMax(hs), caps.0, caps.1], NanGreater, 4) == NanMax(hs + [c0, c1])
  {
    var caps := MakeOrderedPair(c0, c1);
    var combo := [NanMin(hs), NanMax(hs), caps.0, caps.1];
    MinElementIsNanMax(combo, 4);
    assert combo[..4] == [NanMin(hs), NanMax(hs)] + [caps.0, caps.1];
    NanMaxAppend([NanMin(hs), NanMax(hs)], [caps.0, caps.1]);
    BoundsOfBounds(hs);
    MinOfOrderedPair(c0, c1);
    NanMaxAppend(hs, [c0, c1]);
  }

  lemma ObliqueIntersection(s: Surface, p: Vec3, dir: Vec3)
    requires Closed(s) && IsUnit(dir) && Abs(dir.z) != 1.0 && dir.z != 0.0
    ensures GetIntersection(s, p, dir) == (NanMin(Candidates(s, p, dir)), NanMax(Candidates(s, p, dir)))
  {
    ObliqueIsTilted(dir);
    HorizontalOf(dir);
    var c0, c1 := CapHit(s, p, dir, s.zMin), CapHit(s, p, dir, s.zMax);
    MergeOfFourMin(SideHits(s, p, dir), c0, c1);
    MergeOfFourMax(SideHits(s, p, dir), c0, c1);
    assert Candidates(s, p, dir) == SideHits(s, p, dir) + [c0, c1];
  }

  /** `GetIntersection` returns the nearest and the farthest crossing of the
      ray with the boundary, NaN where there is none. Vertical rays reach
      no side and horizontal rays no cap, so each branch agrees with the
      merge over all candidates. */
  lemma GetIntersectionIsNearestAndFarthest(s: Surface, p: Vec3, dir: Vec3)
    requires Closed(s) && IsUnit(dir)
    ensures GetIntersection(s, p, dir) == (NanMin(Candidates(s, p, dir)), NanMax(Candidates(s, p, dir)))
  {
    if Abs(dir.z) == 1.0 {
      VerticalIntersection(s, p, dir);
    } else if dir.z == 0.0 {
      assert Candidates(s, p, dir) == SideHits(s, p, dir);
    } else {
      ObliqueIntersection(s, p, dir);
    }
  }

  /** `sides.first/sin_zenith`, NaN staying NaN. */
  function Scale(d: Distance, factor: real): Distance
    requires factor != 0.0
  {
    if d.None? then None else Some(d.value / factor)
  }

  /** `GetIntersection` as written, with `sinZenith` the value of
      `sqrt(1 - dir.z^2)`: the side distances of an oblique ray are divided
      by it, and the caps use the as-written distance. */
  function GetIntersectionAsWritten(s: Surface, p: Vec3, dir: Vec3, sinZenith: real): (r: Result<(Distance, Distance), Error>)
    requires Closed(s) && IsUnit(dir)
    requires sinZenith >= 0.0 && sinZenith * sinZenith == 1.0 - dir.z * dir.z
    ensures r.Failure? <==> Abs(dir.z) != 1.0 && dir.x + dir.y == 0.0
    ensures dir.z == 0.0 && r.Success? ==> r.value == GetIntersection(s, p, dir)
    ensures Abs(dir.z) == 1.0 ==> r == Success(DistanceToCapsAsWritten(s, p, dir))
    ensures Abs(dir.z) != 1.0 && dir.z != 0.0 && dir.x + dir.y != 0.0 ==>
      (ObliqueIsTilted(dir);
       var sides := DistanceToHull(s, p, dir).value;
       var caps := DistanceToCapsAsWritten(s, p, dir);
       var combo := [Scale(sides.0, sinZenith), Scale(sides.1, sinZenith), caps.0, caps.1];
       r == Success((NanMin(combo), NanMax(combo))))
  {
    if Abs(dir.z) == 1.0 then Success(DistanceToCapsAsWritten(s, p, dir))
    else if dir.z == 0.0 then DistanceToHullAsWritten(s, p, dir)
    else
      var sides :- DistanceToHullAsWritten(s, p, dir);
      var caps := DistanceToCapsAsWritten(s, p, dir);
      ObliqueIsTilted(dir);
      var combo := [Scale(sides.0, sinZenith), Scale(sides.1, sinZenith), caps.0, caps.1];
      MinElementIsNanMin(combo, 4);
      MinElementIsNanMax(combo, 4);
      assert combo[..4] == combo;
      Success((MinElement(combo, NanLess, 4), MinElement(combo, NanGreater, 4)))
  }
}
