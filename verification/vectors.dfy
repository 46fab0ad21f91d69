/** Plane and space vectors of the extruded-polygon surface (`vec2`,
    `I3Position`, `I3Direction`), with exact real coordinates. */
module Vectors {

  datatype Vec2 = Vec2(x: real, y: real)

  datatype Vec3 = Vec3(x: real, y: real, z: real)

  function Sub(a: Vec2, b: Vec2): Vec2 {
    Vec2(a.x - b.x, a.y - b.y)
  }

  function Add(a: Vec2, b: Vec2): Vec2 {
    Vec2(a.x + b.x, a.y + b.y)
  }

  /** `o + a*v` in the plane. */
  function Along2(o: Vec2, a: real, v: Vec2): Vec2 {
    Vec2(o.x + a * v.x, o.y + a * v.y)
  }

  function XY(p: Vec3): Vec2 {
    Vec2(p.x, p.y)
  }

  function Dot3(a: Vec3, b: Vec3): real {
    a.x * b.x + a.y * b.y + a.z * b.z
  }

  /** `p + t*d` */
  function Along(p: Vec3, t: real, d: Vec3): Vec3 {
    Vec3(p.x + t * d.x, p.y + t * d.y, p.z + t * d.z)
  }

  /** z-component of the cross product of OA and OB: positive when O, A, B
      turn counter-clockwise, negative when clockwise, zero when collinear. */
  function Cross(o: Vec2, a: Vec2, b: Vec2): real {
    (a.x - o.x) * (b.y - o.y) - (a.y - o.y) * (b.x - o.x)
  }

  /** The `ccw` test of the hull builder: a strictly counter-clockwise turn. */
  predicate Ccw(o: Vec2, a: Vec2, b: Vec2) {
    Cross(o, a, b) > 0.0
  }

  /** `operator<` on `vec2`, written as the chain of comparisons of the source. */
  predicate LexLess(a: Vec2, b: Vec2) {
    if a.x < b.x then true
    else if a.x > b.x then false
    else if a.y < b.y then true
    else false
  }

  /** `operator<` is the strict lexicographic order on (x, y): irreflexive,
      transitive and total on distinct points, and two points that neither
      precedes are equal, which is what lets a `std::set` drop duplicates. */
  lemma LexLessIsStrictTotalOrder(a: Vec2, b: Vec2, c: Vec2)
    ensures LexLess(a, b) <==> (a.x < b.x || (a.x == b.x && a.y < b.y))
    ensures !LexLess(a, a)
    ensures LexLess(a, b) && LexLess(b, c) ==> LexLess(a, c)
    ensures a != b <==> (LexLess(a, b) || LexLess(b, a))
    ensures !(LexLess(a, b) && LexLess(b, a))
  {
  }

  predicate IsUnit(d: Vec3) {
    d.x * d.x + d.y * d.y + d.z * d.z == 1.0
  }
}
