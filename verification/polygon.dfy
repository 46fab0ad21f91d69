/** The extruded-polygon surface: a convex hull in the x-y plane swept
    between two z planes, its faces, its projected area, the vertex offset
    of `expand`/`expand_polygon`, and surface equality.

    `std::hypot` and `numpy.sqrt` are represented by a function parameter
    `hypot`; the properties that need its value are stated under
    `IsHypotOf`, which says it returns the positive root. */
module Polygon {
  import opened Wrappers
  import opened Vectors
  import Hull

  datatype Error =
    | TooFewPoints      // the Python constructor's "at least 3 points" assertion
    | ParallelEdges     // "Edges can't be [anti]parallel"
    | NanVertex         // a zero-length edge makes the normalised direction NaN
    | EmptyFootprint    // no positions at all: the z range stays (+inf, -inf)

  /** One side of the prism: a hull vertex and the vector to the next one. */
  datatype Side = Side(origin: Vec2, vector: Vec2)

  /** A constructed surface; `capArea` is the shoelace area of the hull. */
  datatype Surface = Surface(sides: seq<Side>, zMin: real, zMax: real, capArea: real)

  /** One face for the projected-area sum: outward normal and face area. */
  datatype Face = Face(normal: Vec3, area: real)

  type Hypot = (real, real) -> real

  /** `h` returns the length of the vector (x, y), which is non-zero. */
  ghost predicate IsHypotOf(h: Hypot, v: Vec2) {
    h(v.x, v.y) > 0.0 && h(v.x, v.y) * h(v.x, v.y) == v.x * v.x + v.y * v.y
  }

  function Next(n: nat, i: nat): nat
    requires i < n
  {
    if i + 1 == n then 0 else i + 1
  }

  function Prev(n: nat, i: nat): nat
    requires i < n
  {
    if i == 0 then n - 1 else i - 1
  }

  function Length(s: Surface): real {
    s.zMax - s.zMin
  }

  // ---------------------------------------------------------------------
  // Construction from a hull

  /** The sides of a closed polygon: one per vertex, wrapping to the first. */
  function SidesOf(hull: seq<Vec2>): (sides: seq<Side>)
    ensures |sides| == |hull|
    ensures forall i :: 0 <= i < |hull| ==> sides[i].origin == hull[i]
    ensures forall i :: 0 <= i < |hull| ==>
      Add(sides[i].origin, sides[i].vector) == hull[Next(|hull|, i)]
  {
    seq(|hull|, i requires 0 <= i < |hull| => Side(hull[i], Sub(hull[Next(|hull|, i)], hull[i])))
  }

  /** `x_i*y_{i+1} - x_{i+1}*y_i`, the shoelace term of side `i`. */
  function ShoelaceTerm(hull: seq<Vec2>, i: nat): real
    requires i < |hull|
  {
    var p := hull[i];
    var q := hull[Next(|hull|, i)];
    p.x * q.y - q.x * p.y
  }

  /** The sum of the first `k` shoelace terms. */
  function ShoelacePrefix(hull: seq<Vec2>, k: nat): real
    requires k <= |hull|
  {
    if k == 0 then 0.0 else ShoelacePrefix(hull, k - 1) + ShoelaceTerm(hull, k - 1)
  }

  /** `signed_area`: the closed shoelace sum over the polygon, halved. */
  function SignedArea(hull: seq<Vec2>): real {
    ShoelacePrefix(hull, |hull|) / 2.0
  }

  /** The constructor's work once the hull and the z range are known. */
  function FromHull(hull: seq<Vec2>, zMin: real, zMax: real): (s: Surface)
    ensures |s.sides| == |hull|
    ensures forall i :: 0 <= i < |hull| ==> s.sides[i].origin == hull[i]
    ensures s.zMin == zMin && s.zMax == zMax
    ensures s.capArea == SignedArea(hull)
  {
    Surface(SidesOf(hull), zMin, zMax, SignedArea(hull))
  }

  /** The hull vertices a surface was built from, in order. */
  function Vertices(s: Surface): (vs: seq<Vec2>)
    ensures |vs| == |s.sides|
    ensures forall i :: 0 <= i < |vs| ==> vs[i] == s.sides[i].origin
  {
    seq(|s.sides|, i requires 0 <= i < |s.sides| => s.sides[i].origin)
  }

  lemma VerticesOfFromHull(hull: seq<Vec2>, zMin: real, zMax: real)
    ensures Vertices(FromHull(hull, zMin, zMax)) == hull
  {
  }

  /** `z_range` of the C++ constructor: (min z, max z) of the positions, or
      `None` for the (+inf, -inf) it keeps when there are none. */
  function ZRange(points: seq<Vec3>): (r: Option<(real, real)>)
    ensures r.None? <==> |points| == 0
    ensures r.Some? ==> exists i :: 0 <= i < |points| && points[i].z == r.value.0
    ensures r.Some? ==> exists i :: 0 <= i < |points| && points[i].z == r.value.1
    ensures r.Some? ==> forall i :: 0 <= i < |points| ==> r.value.0 <= points[i].z <= r.value.1
  {
    if |points| == 0 then None
    else
      var z := points[|points| - 1].z;
      match ZRange(points[..|points| - 1])
      case None => Some((z, z))
      case Some((lo, hi)) =>
        assert forall i :: 0 <= i < |points| - 1 ==> points[..|points| - 1][i] == points[i];
        Some((if z < lo then z else lo, if z > hi then z else hi))
  }

  function Footprint(points: seq<Vec3>): (xy: seq<Vec2>)
    ensures |xy| == |points|
    ensures forall i :: 0 <= i < |points| ==> xy[i] == XY(points[i])
  {
    seq(|points|, i requires 0 <= i < |points| => XY(points[i]))
  }

  /** The C++ constructor: z range of the positions, convex hull of their
      footprint and, for a non-zero padding, the offset hull and a z range
      widened by `padding` at both ends; then one side per hull vertex. */
  function Construct(points: seq<Vec3>, padding: real, hypot: Hypot): (r: Result<Surface, Error>)
    ensures |points| == 0 ==> r == Failure(EmptyFootprint)
    ensures r.Success? && padding == 0.0 ==>
      Vertices(r.value) == Hull.ConvexHull(Footprint(points))
    ensures r.Success? ==> exists i :: 0 <= i < |points| && points[i].z - padding == r.value.zMin
    ensures r.Success? ==> exists i :: 0 <= i < |points| && points[i].z + padding == r.value.zMax
    ensures r.Success? ==> forall i :: 0 <= i < |points| ==>
      r.value.zMin + padding <= points[i].z <= r.value.zMax - padding
    ensures r.Success? && padding != 0.0 ==>
      var expanded := ExpandPolygon(Hull.ConvexHull(Footprint(points)), padding, hypot);
      expanded.Success? && Vertices(r.value) == expanded.value
    ensures |points| > 0 && padding != 0.0 ==>
      (r.Failure? <==> ExpandPolygon(Hull.ConvexHull(Footprint(points)), padding, hypot).Failure?)
    ensures r.Success? ==> r.value.capArea == SignedArea(Vertices(r.value))
  {
    match ZRange(points)
    case None => Failure(EmptyFootprint)
    case Some((lo, hi)) => Extrude(Hull.ConvexHull(Footprint(points)), lo, hi, padding, hypot)
  }

  /** The second half of the C++ constructor, from the hull and the z range
      on: the offset for a non-zero padding, then one side per vertex and
      the shoelace cap area. */
  function Extrude(hull: seq<Vec2>, lo: real, hi: real, padding: real, hypot: Hypot): (r: Result<Surface, Error>)
    ensures padding == 0.0 ==> r.Success? && Vertices(r.value) == hull
    ensures padding != 0.0 ==> (r.Failure? <==> ExpandPolygon(hull, padding, hypot).Failure?)
    ensures r.Success? && padding != 0.0 ==>
      ExpandPolygon(hull, padding, hypot).Success? && Vertices(r.value) == ExpandPolygon(hull, padding, hypot).value
    ensures r.Success? ==> r.value.zMin == lo - padding && r.value.zMax == hi + padding
    ensures r.Success? ==> r.value.capArea == SignedArea(Vertices(r.value))
  {
    if padding != 0.0 then
      var expanded :- ExpandPolygon(hull, padding, hypot);
      VerticesOfFromHull(expanded, lo - padding, hi + padding);
      Success(FromHull(expanded, lo - padding, hi + padding))
    else
      VerticesOfFromHull(hull, lo, hi);
      Success(FromHull(hull, lo, hi))
  }

  /** The Python constructor: the "at least 3 points" assertion on the
      input, then the hull of the points and the given z range. */
  function PyConstruct(xy: seq<Vec2>, zRange: (real, real)): (r: Result<Surface, Error>)
    ensures r.Failure? <==> |xy| < 3
    ensures r.Success? ==> Vertices(r.value) == Hull.ConvexHull(xy)
    ensures r.Success? ==> r.value.zMin == zRange.0 && r.value.zMax == zRange.1
    ensures r.Success? ==> r.value.capArea == SignedArea(Hull.ConvexHull(xy))
  {
    if |xy| < 3 then Failure(TooFewPoints)
    else
      VerticesOfFromHull(Hull.ConvexHull(xy), zRange.0, zRange.1);
      Success(FromHull(Hull.ConvexHull(xy), zRange.0, zRange.1))
  }

  // ---------------------------------------------------------------------
  // Faces and projected area

  /** The face list of the Python constructor, given the side lengths
      `lens`: the N sides (normal `(dy, -dx, 0)/|d|`, area `|d|*length`)
      followed by the top and the bottom cap. */
  function Faces(s: Surface, lens: seq<real>): (fs: seq<Face>)
    requires |lens| == |s.sides|
    requires forall i :: 0 <= i < |lens| ==> lens[i] > 0.0
    ensures |fs| == |s.sides| + 2
    ensures forall i :: 0 <= i < |s.sides| ==> fs[i].normal.z == 0.0
    ensures forall i :: 0 <= i < |s.sides| ==> fs[i].normal.x * s.sides[i].vector.x + fs[i].normal.y * s.sides[i].vector.y == 0.0
    ensures fs[|s.sides|] == Face(Vec3(0.0, 0.0, 1.0), s.capArea)
    ensures fs[|s.sides| + 1] == Face(Vec3(0.0, 0.0, -1.0), s.capArea)
  {
    var n := |s.sides|;
    var sides := seq(n, i requires 0 <= i < n =>
      var v := s.sides[i].vector;
      Face(Vec3(v.y / lens[i], -v.x / lens[i], 0.0), lens[i] * Length(s)));
    assert forall i :: 0 <= i < n ==>
      sides[i].normal.x * s.sides[i].vector.x + sides[i].normal.y * s.sides[i].vector.y == 0.0 by {
      forall i | 0 <= i < n
        ensures sides[i].normal.x * s.sides[i].vector.x + sides[i].normal.y * s.sides[i].vector.y == 0.0
      {
        var v := s.sides[i].vector;
        var l := lens[i];
        assert sides[i].normal.x * v.x + sides[i].normal.y * v.y == (v.y * v.x - v.x * v.y) / l;
      }
    }
    sides + [Face(Vec3(0.0, 0.0, 1.0), s.capArea), Face(Vec3(0.0, 0.0, -1.0), s.capArea)]
  }

  /** Side face `i`: normal `(dy, -dx, 0)/len`, area `len * length`. */
  lemma SideFace(s: Surface, lens: seq<real>, i: nat)
    requires |lens| == |s.sides| && i < |lens|
    requires forall k :: 0 <= k < |lens| ==> lens[k] > 0.0
    ensures var v := s.sides[i].vector;
      Faces(s, lens)[i] == Face(Vec3(v.y / lens[i], -v.x / lens[i], 0.0), lens[i] * Length(s))
  {
  }

  /** The side normals are unit vectors when the lengths are the edge lengths. */
  lemma SideNormalsAreUnit(s: Surface, lens: seq<real>, i: nat)
    requires |lens| == |s.sides| && i < |lens|
    requires forall k :: 0 <= k < |lens| ==> lens[k] > 0.0
    requires lens[i] * lens[i] == s.sides[i].vector.x * s.sides[i].vector.x + s.sides[i].vector.y * s.sides[i].vector.y
    ensures var n := Faces(s, lens)[i].normal; n.x * n.x + n.y * n.y + n.z * n.z == 1.0
  {
    var v := s.sides[i].vector;
    var l := lens[i];
    assert Faces(s, lens)[i].normal == Vec3(v.y / l, -v.x / l, 0.0);
    assert lens[i] > 0.0;
    ScaledUnit(v.x, v.y, l);
  }

  lemma ScaledUnit(x: real, y: real, l: real)
    requires l > 0.0 && l * l == x * x + y * y
    ensures (y / l) * (y / l) + (-x / l) * (-x / l) + 0.0 * 0.0 == 1.0
  {
    assert (y / l) * l == y;
    assert (-x / l) * l == -x;
    calc {
      ((y / l) * (y / l) + (-x / l) * (-x / l)) * (l * l);
      ((y / l) * l) * ((y / l) * l) + ((-x / l) * l) * ((-x / l) * l);
      y * y + (-x) * (-x);
      l * l;
    }
    UnitFactor(l, (y / l) * (y / l) + (-x / l) * (-x / l));
  }

  lemma PositiveProduct(a: real, b: real)
    requires a > 0.0 && b > 0.0
    ensures a * b > 0.0
  {
  }

  lemma UnitFactor(l: real, m: real)
    requires l > 0.0
    requires m * (l * l) == l * l
    ensures m == 1.0
  {
    PositiveProduct(l, l);
    assert (m - 1.0) * (l * l) == 0.0;
  }

  /** The projected-area sum of the Python `area`: faces whose normal has a
      negative inner product with `dir` contribute `-(n . dir) * A`. */
  function FaceSum(fs: seq<Face>, dir: Vec3): real {
    if |fs| == 0 then 0.0 else FaceSum(fs[..|fs| - 1], dir) + FaceShadow(fs[|fs| - 1], dir)
  }

  function FaceShadow(f: Face, dir: Vec3): real {
    var inner := Dot3(f.normal, dir);
    if inner < 0.0 then -inner * f.area else 0.0
  }

  lemma FaceSumStep(fs: seq<Face>, k: nat, dir: Vec3)
    requires 0 < k <= |fs|
    ensures FaceSum(fs[..k], dir) == FaceSum(fs[..k - 1], dir) + FaceShadow(fs[k - 1], dir)
  {
    assert fs[..k][..k - 1] == fs[..k - 1];
  }

  /** Contribution of side `i` with the edge length cancelled out: the
      normal `(dy, -dx)/|d|` times the area `|d|*length`. */
  function SideShadow(s: Surface, i: nat, dir: Vec3): real
    requires i < |s.sides|
  {
    var v := s.sides[i].vector;
    var w := v.x * dir.y - v.y * dir.x;
    if w > 0.0 then w * Length(s) else 0.0
  }

  function SideShadows(s: Surface, k: nat, dir: Vec3): real
    requires k <= |s.sides|
  {
    if k == 0 then 0.0 else SideShadows(s, k - 1, dir) + SideShadow(s, k - 1, dir)
  }

  /** `area(dir)` stated without square roots. */
  function Area(s: Surface, dir: Vec3): real {
    SideShadows(s, |s.sides|, dir) + (if dir.z < 0.0 then -dir.z else dir.z) * s.capArea
  }

  lemma {:induction false} SideShadowsMatchFaces(s: Surface, lens: seq<real>, k: nat, dir: Vec3)
    requires |lens| == |s.sides| && k <= |s.sides|
    requires forall i :: 0 <= i < |lens| ==> lens[i] > 0.0
    ensures FaceSum(Faces(s, lens)[..k], dir) == SideShadows(s, k, dir)
  {
    if k > 0 {
      FaceSumStep(Faces(s, lens), k, dir);
      SideShadowsMatchFaces(s, lens, k - 1, dir);
      SideFaceShadowAt(s, lens, k - 1, dir);
    }
  }

  lemma SideFaceShadowAt(s: Surface, lens: seq<real>, i: nat, dir: Vec3)
    requires |lens| == |s.sides| && i < |s.sides|
    requires forall i :: 0 <= i < |lens| ==> lens[i] > 0.0
    ensures FaceShadow(Faces(s, lens)[i], dir) == SideShadow(s, i, dir)
  {
    var v := s.sides[i].vector;
    assert Faces(s, lens)[i] == Face(Vec3(v.y / lens[i], -v.x / lens[i], 0.0), lens[i] * Length(s));
    SideFaceShadow(v, lens[i], Length(s), dir);
  }

  /** One side face's projected area: the length `l` of the side cancels
      between the unit normal and the face area. */
  lemma SideFaceShadow(v: Vec2, l: real, len: real, dir: Vec3)
    requires l > 0.0
    ensures var w := v.x * dir.y - v.y * dir.x;
      FaceShadow(Face(Vec3(v.y / l, -v.x / l, 0.0), l * len), dir) == (if w > 0.0 then w * len else 0.0)
  {
    var inner := Dot3(Vec3(v.y / l, -v.x / l, 0.0), dir);
    var nx, ny := v.y / l, -v.x / l;
    assert nx * l == v.y && ny * l == -v.x;
    assert inner == nx * dir.x + ny * dir.y;
    assert inner * l == (nx * l) * dir.x + (ny * l) * dir.y;
    assert inner * l == v.y * dir.x - v.x * dir.y;
    assert inner < 0.0 <==> inner * l < 0.0;
    assert -inner * (l * len) == -(inner * l) * len;
  }

  /** The square-root-free `Area` is the face sum of the Python `area`, for
      any positive side lengths: the length divides out of every side term. */
  lemma AreaMatchesFaces(s: Surface, lens: seq<real>, dir: Vec3)
    requires |lens| == |s.sides|
    requires forall i :: 0 <= i < |lens| ==> lens[i] > 0.0
    ensures FaceSum(Faces(s, lens), dir) == Area(s, dir)
  {
    var fs := Faces(s, lens);
    var n := |s.sides|;
    SideShadowsMatchFaces(s, lens, n, dir);
    CapShadows(fs, n, s.capArea, dir);
  }

  /** The two caps closing a face list together shadow `|dir.z|` times the
      cap area. */
  lemma CapShadows(fs: seq<Face>, n: nat, a: real, dir: Vec3)
    requires |fs| == n + 2
    requires fs[n] == Face(Vec3(0.0, 0.0, 1.0), a) && fs[n + 1] == Face(Vec3(0.0, 0.0, -1.0), a)
    ensures FaceSum(fs, dir) == FaceSum(fs[..n], dir) + (if dir.z < 0.0 then -dir.z else dir.z) * a
  {
    FaceSumStep(fs, n + 2, dir);
    FaceSumStep(fs, n + 1, dir);
    assert fs[..n + 2] == fs;
  }

  /** The total area of the first `k` faces; with `k == |fs|` it is
      `self._areas.sum()`. */
  function TotalArea(fs: seq<Face>, k: nat): real
    requires k <= |fs|
  {
    if k == 0 then 0.0 else TotalArea(fs, k - 1) + fs[k - 1].area
  }

  /** `inner * mask` for one face: its inner product with `dir` when that
      is negative, and 0 otherwise. */
  function MaskedInner(f: Face, dir: Vec3): real {
    var inner := Dot3(f.normal, dir);
    if inner < 0.0 then inner else 0.0
  }

  /** Column `j` of the broadcast product `inner * areas[:,None] * mask`,
      whose row `i` holds `inner[j] * areas[i] * mask[j]`, summed over rows
      `0..k`: face `j`'s masked inner product times the area of the first
      `k` faces. */
  function ColumnSum(fs: seq<Face>, j: nat, k: nat, dir: Vec3): (r: real)
    requires j < |fs| && k <= |fs|
    ensures r == MaskedInner(fs[j], dir) * TotalArea(fs, k)
  {
    if k == 0 then 0.0 else ColumnSum(fs, j, k - 1, dir) + MaskedInner(fs[j], dir) * fs[k - 1].area
  }

  /** `area` as written, called with one direction: `inner` is a vector,
      `self._areas[:,None]` a column, and their product a square matrix, so
      `sum(axis=0)` returns one number per face: the face's masked inner
      product times the area of every face, not the projected area. */
  function AreaAsWritten(fs: seq<Face>, dir: Vec3): (r: seq<real>)
    ensures |r| == |fs|
    ensures forall j :: 0 <= j < |fs| ==> r[j] == -MaskedInner(fs[j], dir) * TotalArea(fs, |fs|)
  {
    seq(|fs|, j requires 0 <= j < |fs| => -ColumnSum(fs, j, |fs|, dir))
  }

  /** Face `j` of the as-written result, scaled by that face's own area, is
      its shadow scaled by the total area; the projected area is the sum of
      the shadows. */
  lemma {:induction false} AreaAsWrittenIsScaledShadow(fs: seq<Face>, dir: Vec3, j: nat)
    requires j < |fs|
    ensures AreaAsWritten(fs, dir)[j] * fs[j].area == FaceShadow(fs[j], dir) * TotalArea(fs, |fs|)
  {
    FaceShadowIsMasked(fs[j], dir);
    SwapFactors(AreaAsWritten(fs, dir)[j], FaceShadow(fs[j], dir), -MaskedInner(fs[j], dir),
                fs[j].area, TotalArea(fs, |fs|));
  }

  lemma FaceShadowIsMasked(f: Face, dir: Vec3)
    ensures FaceShadow(f, dir) == -MaskedInner(f, dir) * f.area
  {
  }

  lemma SwapFactors(r: real, s: real, x: real, y: real, z: real)
    requires r == x * z && s == x * y
    ensures r * y == s * z
  {
  }

  lemma {:induction false} SideShadowsNonNegative(s: Surface, k: nat, dir: Vec3)
    requires k <= |s.sides| && Length(s) >= 0.0
    ensures SideShadows(s, k, dir) >= 0.0
  {
    if k > 0 {
      SideShadowsNonNegative(s, k - 1, dir);
      var v := s.sides[k - 1].vector;
      var w := v.x * dir.y - v.y * dir.x;
      if w > 0.0 { assert w * Length(s) >= 0.0; }
    }
  }

  /** The projected area is never negative for a surface of non-negative
      height and cap area. */
  lemma AreaNonNegative(s: Surface, dir: Vec3)
    requires Length(s) >= 0.0 && s.capArea >= 0.0
    ensures Area(s, dir) >= 0.0
  {
    SideShadowsNonNegative(s, |s.sides|, dir);
  }

  lemma {:induction false} SideShadowsVertical(s: Surface, k: nat, dz: real)
    requires k <= |s.sides|
    ensures SideShadows(s, k, Vec3(0.0, 0.0, dz)) == 0.0
  {
    if k > 0 { SideShadowsVertical(s, k - 1, dz); }
  }

  /** Seen straight down or straight up only one cap shows. */
  lemma AreaFromAboveIsCapArea(s: Surface)
    ensures Area(s, Vec3(0.0, 0.0, 1.0)) == s.capArea
    ensures Area(s, Vec3(0.0, 0.0, -1.0)) == s.capArea
  {
    SideShadowsVertical(s, |s.sides|, 1.0);
    SideShadowsVertical(s, |s.sides|, -1.0);
  }

  // ---------------------------------------------------------------------
  // Offsetting the polygon

  /** `vec2::normalized`, or `None` where the length is zero and the result
      would be NaN. With a true length the result is a unit vector, and it
      is `v` scaled down by that length. */
  function Normalized(v: Vec2, hypot: Hypot): (r: Option<Vec2>)
    ensures IsHypotOf(hypot, v) ==> r.Some? && r.value.x * r.value.x + r.value.y * r.value.y == 1.0
    ensures r.Some? ==> r.value.x * hypot(v.x, v.y) == v.x && r.value.y * hypot(v.x, v.y) == v.y
  {
    var l := hypot(v.x, v.y);
    if l == 0.0 then None
    else
      assert IsHypotOf(hypot, v) ==> (v.x / l) * (v.x / l) + (v.y / l) * (v.y / l) == 1.0 by {
        if IsHypotOf(hypot, v) {
          ScaledUnit(-v.y, v.x, l);
        }
      }
      Some(Vec2(v.x / l, v.y / l))
  }

  /** Unit direction of the edge leaving vertex `i`. */
  function EdgeDir(hull: seq<Vec2>, i: nat, hypot: Hypot): Option<Vec2>
    requires i < |hull|
  {
    Normalized(Sub(hull[Next(|hull|, i)], hull[i]), hypot)
  }

  function Det(a: Vec2, b: Vec2): real {
    a.x * b.y - a.y * b.x
  }

  /** One vertex of `expand_polygon`: moved by `(padding/det)*(prev_d - d)`. */
  function OffsetVertex(hull: seq<Vec2>, i: nat, padding: real, hypot: Hypot): Result<Vec2, Error>
    requires i < |hull|
  {
    var n := |hull|;
    match (EdgeDir(hull, i, hypot), EdgeDir(hull, Prev(n, i), hypot))
    case (Some(d), Some(pd)) =>
      var det := Det(pd, d);
      if det == 0.0 then Failure(ParallelEdges)
      else
        var t := padding / det;
        Success(Vec2(hull[i].x + (pd.x - d.x) * t, hull[i].y + (pd.y - d.y) * t))
    case _ => Failure(NanVertex)
  }

  /** The vertices `0 .. k-1` of `expand_polygon`, stopping at the first
      vertex whose adjacent edges are parallel. */
  function OffsetPrefix(hull: seq<Vec2>, k: nat, padding: real, hypot: Hypot): (r: Result<seq<Vec2>, Error>)
    requires k <= |hull|
    ensures r.Success? <==> forall i :: 0 <= i < k ==> OffsetVertex(hull, i, padding, hypot).Success?
    ensures r.Success? ==> (|r.value| == k
      && forall i :: 0 <= i < k ==> r.value[i] == OffsetVertex(hull, i, padding, hypot).value)
  {
    if k == 0 then Success([])
    else
      var init :- OffsetPrefix(hull, k - 1, padding, hypot);
      var p :- OffsetVertex(hull, k - 1, padding, hypot);
      Success(init + [p])
  }

  /** `expand_polygon` (and the vertex offset inside the Python `expand`). */
  function ExpandPolygon(hull: seq<Vec2>, padding: real, hypot: Hypot): (r: Result<seq<Vec2>, Error>)
    ensures r.Success? ==> |r.value| == |hull|
    ensures r.Success? <==> forall i :: 0 <= i < |hull| ==> OffsetVertex(hull, i, padding, hypot).Success?
  {
    OffsetPrefix(hull, |hull|, padding, hypot)
  }

  /** With non-degenerate edges, `expand_polygon` fails exactly at a vertex
      whose incoming and outgoing edges are parallel or antiparallel. */
  lemma ExpandFailsOnParallelEdges(hull: seq<Vec2>, padding: real, hypot: Hypot)
    requires forall i :: 0 <= i < |hull| ==> IsHypotOf(hypot, Sub(hull[Next(|hull|, i)], hull[i]))
    ensures ExpandPolygon(hull, padding, hypot).Failure? <==>
      exists i :: 0 <= i < |hull| &&
        Det(Sub(hull[i], hull[Prev(|hull|, i)]), Sub(hull[Next(|hull|, i)], hull[i])) == 0.0
  {
    var n := |hull|;
    forall i | 0 <= i < n
      ensures OffsetVertex(hull, i, padding, hypot).Failure? <==>
        Det(Sub(hull[i], hull[Prev(n, i)]), Sub(hull[Next(n, i)], hull[i])) == 0.0
    {
      var e := Sub(hull[Next(n, i)], hull[i]);
      var pe := Sub(hull[i], hull[Prev(n, i)]);
      assert Next(n, Prev(n, i)) == i;
      assert IsHypotOf(hypot, pe);
      var l := hypot(e.x, e.y);
      var pl := hypot(pe.x, pe.y);
      var d := Vec2(e.x / l, e.y / l);
      var pd := Vec2(pe.x / pl, pe.y / pl);
      assert Det(pd, d) == Det(pe, e) / (pl * l);
    }
  }

  /** Outward distance of `w` from the line through the origin along the
      unit direction `d` of a counter-clockwise edge: `(d.y, -d.x) . w`. */
  function Outward(d: Vec2, w: Vec2): real {
    d.y * w.x - d.x * w.y
  }

  /** An offset vertex lies at outward distance `padding` from the lines
      of both edges that meet at the old vertex. */
  lemma OffsetVertexOnBothLines(hull: seq<Vec2>, i: nat, padding: real, hypot: Hypot)
    requires i < |hull|
    requires OffsetVertex(hull, i, padding, hypot).Success?
    ensures EdgeDir(hull, i, hypot).Some? && EdgeDir(hull, Prev(|hull|, i), hypot).Some?
    ensures var w := Sub(OffsetVertex(hull, i, padding, hypot).value, hull[i]);
      && Outward(EdgeDir(hull, i, hypot).value, w) == padding
      && Outward(EdgeDir(hull, Prev(|hull|, i), hypot).value, w) == padding
  {
    var d := EdgeDir(hull, i, hypot).value;
    var pd := EdgeDir(hull, Prev(|hull|, i), hypot).value;
    var det := Det(pd, d);
    var t := padding / det;
    var w := Sub(OffsetVertex(hull, i, padding, hypot).value, hull[i]);
    assert w == Vec2((pd.x - d.x) * t, (pd.y - d.y) * t);
    assert Outward(d, w) == t * det;
    assert Outward(pd, w) == t * det;
  }

  /** `expand` moves every edge out by `padding`: each new vertex lies at
      outward distance `padding` from the lines of both edges that meet at
      the old vertex. */
  lemma ExpandMovesEdgesOut(hull: seq<Vec2>, padding: real, hypot: Hypot, i: nat)
    requires i < |hull|
    requires ExpandPolygon(hull, padding, hypot).Success?
    ensures EdgeDir(hull, i, hypot).Some? && EdgeDir(hull, Prev(|hull|, i), hypot).Some?
    ensures var w := Sub(ExpandPolygon(hull, padding, hypot).value[i], hull[i]);
      && Outward(EdgeDir(hull, i, hypot).value, w) == padding
      && Outward(EdgeDir(hull, Prev(|hull|, i), hypot).value, w) == padding
  {
    assert OffsetVertex(hull, i, padding, hypot).Success?;
    OffsetVertexOnBothLines(hull, i, padding, hypot);
  }

  /** The next vertex of the offset polygon is also at outward distance
      `padding` from the line of edge `i`, when `d` is the edge's true unit
      direction. */
  lemma ExpandedEdgeParallel(hull: seq<Vec2>, padding: real, hypot: Hypot, i: nat)
    requires i < |hull|
    requires ExpandPolygon(hull, padding, hypot).Success?
    requires IsHypotOf(hypot, Sub(hull[Next(|hull|, i)], hull[i]))
    ensures EdgeDir(hull, i, hypot).Some?
    ensures var q := ExpandPolygon(hull, padding, hypot).value;
      Outward(EdgeDir(hull, i, hypot).value, Sub(q[Next(|hull|, i)], hull[i])) == padding
  {
    var n := |hull|;
    var j := Next(n, i);
    assert Prev(n, j) == i;
    ExpandMovesEdgesOut(hull, padding, hypot, j);
    var q := ExpandPolygon(hull, padding, hypot).value;
    var d := EdgeDir(hull, i, hypot).value;
    var e := Sub(hull[j], hull[i]);
    var w := Sub(q[j], hull[j]);
    assert Sub(q[j], hull[i]) == Add(w, e);
    OutwardAdd(d, w, e);
    OutwardAlongItself(e, hypot(e.x, e.y));
  }

  lemma OutwardAdd(d: Vec2, a: Vec2, b: Vec2)
    ensures Outward(d, Add(a, b)) == Outward(d, a) + Outward(d, b)
  {
  }

  /** A vector has no outward component relative to its own direction. */
  lemma OutwardAlongItself(v: Vec2, l: real)
    requires l != 0.0
    ensures Outward(Vec2(v.x / l, v.y / l), v) == 0.0
  {
    assert (v.y / l) * v.x == (v.x / l) * v.y;
  }

  /** The Python `expand`: offset the hull vertices, widen the z range by
      `padding` at both ends and build a new surface from the offset points
      (which runs the hull builder and the 3-point assertion again). */
  function PyExpand(s: Surface, padding: real, hypot: Hypot): (r: Result<Surface, Error>)
    ensures r.Success? ==> r.value.zMin == s.zMin - padding && r.value.zMax == s.zMax + padding
    ensures r.Success? <==> ExpandPolygon(Vertices(s), padding, hypot).Success? && |Vertices(s)| >= 3
    ensures r.Success? ==> Vertices(r.value) == Hull.ConvexHull(ExpandPolygon(Vertices(s), padding, hypot).value)
  {
    var points :- ExpandPolygon(Vertices(s), padding, hypot);
    PyConstruct(points, (s.zMin - padding, s.zMax + padding))
  }

  // ---------------------------------------------------------------------
  // Equality and accessors

  /** The surfaces a `Surface::operator==` can be handed. */
  datatype SamplingSurface =
    | ExtrudedPolygon(polygon: Surface)
    | Cylinder(length: real, radius: real, center: Vec3)

  function GetX(s: Surface): (xs: seq<real>)
    ensures |xs| == |s.sides|
    ensures forall i :: 0 <= i < |xs| ==> xs[i] == s.sides[i].origin.x
  {
    seq(|s.sides|, i requires 0 <= i < |s.sides| => s.sides[i].origin.x)
  }

  function GetY(s: Surface): (ys: seq<real>)
    ensures |ys| == |s.sides|
    ensures forall i :: 0 <= i < |ys| ==> ys[i] == s.sides[i].origin.y
  {
    seq(|s.sides|, i requires 0 <= i < |s.sides| => s.sides[i].origin.y)
  }

  function GetZ(s: Surface): (zs: seq<real>)
    ensures |zs| == 2 && zs[1] - zs[0] == Length(s)
    ensures zs[0] == s.zMin && zs[1] == s.zMax
  {
    [s.zMin, s.zMax]
  }

  /** The side loop of `operator==`: origins compared pairwise. */
  function SameOrigins(a: seq<Side>, b: seq<Side>): bool
    requires |a| == |b|
  {
    |a| == 0 || (a[0].origin.x == b[0].origin.x && a[0].origin.y == b[0].origin.y
                 && SameOrigins(a[1..], b[1..]))
  }

  /** `ExtrudedPolygon::operator==`. */
  function Equals(a: Surface, other: SamplingSurface): bool {
    match other
    case Cylinder(_, _, _) => false
    case ExtrudedPolygon(b) =>
      if (a.zMin, a.zMax) != (b.zMin, b.zMax) || |a.sides| != |b.sides| then false
      else SameOrigins(a.sides, b.sides)
  }

  lemma {:induction false} SameOriginsMeansEqualVertices(a: seq<Side>, b: seq<Side>)
    requires |a| == |b|
    ensures SameOrigins(a, b) <==> forall i :: 0 <= i < |a| ==> a[i].origin == b[i].origin
  {
    if |a| > 0 {
      SameOriginsMeansEqualVertices(a[1..], b[1..]);
      if forall i :: 0 <= i < |a| ==> a[i].origin == b[i].origin {
        assert forall i :: 0 <= i < |a| - 1 ==> a[1..][i].origin == b[1..][i].origin by {
          forall i | 0 <= i < |a| - 1
            ensures a[1..][i].origin == b[1..][i].origin
          {
            assert a[1..][i] == a[i + 1] && b[1..][i] == b[i + 1];
          }
        }
      }
      if SameOrigins(a, b) {
        forall i | 0 <= i < |a|
          ensures a[i].origin == b[i].origin
        {
          if i > 0 { assert a[1..][i - 1] == a[i] && b[1..][i - 1] == b[i]; }
        }
      }
    }
  }

  /** Two extruded polygons compare equal exactly when their accessors
      agree: same `GetX`, `GetY` and `GetZ`; nothing else compares equal. */
  lemma EqualsIffSameAccessors(a: Surface, other: SamplingSurface)
    ensures Equals(a, other) <==>
      other.ExtrudedPolygon? && GetX(a) == GetX(other.polygon) &&
      GetY(a) == GetY(other.polygon) && GetZ(a) == GetZ(other.polygon)
  {
    if other.ExtrudedPolygon? {
      var b := other.polygon;
      if |a.sides| == |b.sides| {
        SameOriginsMeansEqualVertices(a.sides, b.sides);
        if GetX(a) == GetX(b) && GetY(a) == GetY(b) {
          forall i | 0 <= i < |a.sides|
            ensures a.sides[i].origin == b.sides[i].origin
          {
            assert GetX(a)[i] == GetX(b)[i] && GetY(a)[i] == GetY(b)[i];
          }
        }
        if forall i :: 0 <= i < |a.sides| ==> a.sides[i].origin == b.sides[i].origin {
          assert GetX(a) == GetX(b);
          assert GetY(a) == GetY(b);
        }
      } else {
        assert |GetX(a)| != |GetX(b)|;
      }
      if GetZ(a) == GetZ(b) {
        assert GetZ(a)[0] == GetZ(b)[0] && GetZ(a)[1] == GetZ(b)[1];
      }
    }
  }

  /** For surfaces built from hulls, `operator==` is equality of the whole
      derived geometry: equal origins imply equal sides and cap area. */
  lemma EqualsIffSameSurface(h1: seq<Vec2>, lo1: real, hi1: real, h2: seq<Vec2>, lo2: real, hi2: real)
    ensures Equals(FromHull(h1, lo1, hi1), ExtrudedPolygon(FromHull(h2, lo2, hi2))) <==>
      FromHull(h1, lo1, hi1) == FromHull(h2, lo2, hi2)
  {
    var a := FromHull(h1, lo1, hi1);
    var b := FromHull(h2, lo2, hi2);
    EqualsIffSameAccessors(a, ExtrudedPolygon(b));
    if Equals(a, ExtrudedPolygon(b)) {
      VerticesOfFromHull(h1, lo1, hi1);
      VerticesOfFromHull(h2, lo2, hi2);
      assert Vertices(a) == Vertices(b) by {
        forall i | 0 <= i < |a.sides|
          ensures Vertices(a)[i] == Vertices(b)[i]
        {
          assert GetX(a)[i] == GetX(b)[i] && GetY(a)[i] == GetY(b)[i];
        }
      }
      assert h1 == h2;
      assert GetZ(a)[0] == GetZ(b)[0] && GetZ(a)[1] == GetZ(b)[1];
    }
  }
}
