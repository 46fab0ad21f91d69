/** Andrew's monotone-chain convex hull (`convex_hull` and `ccw_curve`). */
module Hull {
  import opened Vectors

  /** `a` comes before `b` in the scan direction: ascending `operator<`
      when `up`, descending otherwise. */
  predicate Before(a: Vec2, b: Vec2, up: bool) {
    if up then LexLess(a, b) else LexLess(b, a)
  }

  /** Every point strictly precedes every later one in the scan direction. */
  predicate Monotone(s: seq<Vec2>, up: bool) {
    forall i, j :: 0 <= i < j < |s| ==> Before(s[i], s[j], up)
  }

  /** Every consecutive triple of the chain turns strictly counter-clockwise. */
  predicate StrictlyCcw(c: seq<Vec2>) {
    forall i :: 0 <= i && i + 2 < |c| ==> Ccw(c[i], c[i + 1], c[i + 2])
  }

  /** No point is listed twice. */
  predicate Distinct(s: seq<Vec2>) {
    forall i, j :: 0 <= i < j < |s| ==> s[i] != s[j]
  }

  predicate IsLexMin(p: Vec2, ps: seq<Vec2>) {
    p in ps && forall q :: q in ps ==> q == p || LexLess(p, q)
  }

  function Reverse(s: seq<Vec2>): (r: seq<Vec2>)
    ensures |r| == |s|
    ensures forall i :: 0 <= i < |s| ==> r[i] == s[|s| - 1 - i]
  {
    seq(|s|, i requires 0 <= i < |s| => s[|s| - 1 - i])
  }

  // ---------------------------------------------------------------------
  // Sorting with duplicate removal: `sorted(set(points))`, `std::set<vec2>`

  /** Inserts `p` into an ascending duplicate-free sequence. */
  function Insert(s: seq<Vec2>, p: Vec2): (r: seq<Vec2>)
    requires Monotone(s, true)
    ensures Monotone(r, true)
    ensures forall q :: q in r <==> q in s || q == p
    ensures |r| <= |s| + 1
  {
    if |s| == 0 then [p]
    else if LexLess(p, s[0]) then [p] + s
    else if p == s[0] then s
    else
      var t := Insert(s[1..], p);
      assert forall q :: q in t ==> LexLess(s[0], q);
      [s[0]] + t
  }

  /** The distinct input points in ascending lexicographic order. */
  function SortUnique(ps: seq<Vec2>): (r: seq<Vec2>)
    ensures Monotone(r, true)
    ensures forall q :: q in r <==> q in ps
    ensures |r| <= |ps|
  {
    if |ps| == 0 then []
    else Insert(SortUnique(ps[..|ps| - 1]), ps[|ps| - 1])
  }

  /** Two ascending duplicate-free sequences with the same points are equal. */
  lemma {:induction false} AscendingIsUnique(a: seq<Vec2>, b: seq<Vec2>)
    requires Monotone(a, true) && Monotone(b, true)
    requires forall q :: q in a <==> q in b
    ensures a == b
  {
    assert |a| > 0 ==> a[0] in b;
    assert |b| > 0 ==> b[0] in a;
    if |a| > 0 && |b| > 0 {
      assert a[0] == b[0] by {
        assert a[0] in b && b[0] in a;
        LexLessIsStrictTotalOrder(a[0], b[0], a[0]);
      }
      forall q
        ensures q in a[1..] <==> q in b[1..]
      {
        if q in a[1..] {
          assert LexLess(a[0], q);
          assert q in b;
        }
        if q in b[1..] {
          assert LexLess(b[0], q);
          assert q in a;
        }
      }
      AscendingIsUnique(a[1..], b[1..]);
      assert a == [a[0]] + a[1..] && b == [b[0]] + b[1..];
    }
  }

  /** Duplicates and input order do not matter: the sorted point list depends
      only on the set of input points. */
  lemma SortUniqueDependsOnlyOnPointSet(ps: seq<Vec2>, qs: seq<Vec2>)
    requires forall q :: q in ps <==> q in qs
    ensures SortUnique(ps) == SortUnique(qs)
  {
    AscendingIsUnique(SortUnique(ps), SortUnique(qs));
  }

  // ---------------------------------------------------------------------
  // `ccw_curve`: the stack of a monotone chain

  /** `ccw_curve::operator()`: pop while the last two points and `p` do not
      turn strictly counter-clockwise, then push `p`. */
  function Push(chain: seq<Vec2>, p: Vec2): (r: seq<Vec2>)
    ensures 1 <= |r| <= |chain| + 1
    ensures r[|r| - 1] == p
    ensures forall i :: 0 <= i < |r| - 1 ==> r[i] == chain[i]
    ensures forall q :: q in r ==> q == p || q in chain
    ensures |chain| >= 1 ==> |r| >= 2 && r[0] == chain[0]
    decreases |chain|
  {
    if |chain| >= 2 && !Ccw(chain[|chain| - 2], chain[|chain| - 1], p) then
      Push(chain[..|chain| - 1], p)
    else
      chain + [p]
  }

  /** Pushing keeps a strictly counter-clockwise chain strictly
      counter-clockwise: `p` is only appended once the last two points and
      `p` turn strictly left. */
  lemma {:induction false} PushKeepsCcw(chain: seq<Vec2>, p: Vec2)
    requires StrictlyCcw(chain)
    ensures StrictlyCcw(Push(chain, p))
    decreases |chain|
  {
    if |chain| >= 2 && !Ccw(chain[|chain| - 2], chain[|chain| - 1], p) {
      PushKeepsCcw(chain[..|chain| - 1], p);
    } else {
      var r := chain + [p];
      forall i | 0 <= i && i + 2 < |r|
        ensures Ccw(r[i], r[i + 1], r[i + 2])
      {
        if i + 2 < |chain| {
          assert r[i] == chain[i] && r[i + 1] == chain[i + 1] && r[i + 2] == chain[i + 2];
        }
      }
    }
  }

  /** The chain obtained by pushing the points of `pts` in order. */
  function Curve(pts: seq<Vec2>): (c: seq<Vec2>)
    ensures |c| <= |pts|
    ensures |pts| > 0 ==> |c| > 0 && c[0] == pts[0] && c[|c| - 1] == pts[|pts| - 1]
    ensures forall q :: q in c ==> q in pts
  {
    if |pts| == 0 then []
    else
      var init := pts[..|pts| - 1];
      var prev := Curve(init);
      assert forall q :: q in init ==> q in pts;
      assert |init| > 0 ==> prev[0] == pts[0];
      Push(prev, pts[|pts| - 1])
  }

  /** Every chain the hull builder produces turns strictly counter-clockwise
      at each interior point. */
  lemma {:induction false} CurveStrictlyCcw(pts: seq<Vec2>)
    ensures StrictlyCcw(Curve(pts))
  {
    if |pts| > 0 {
      CurveStrictlyCcw(pts[..|pts| - 1]);
      PushKeepsCcw(Curve(pts[..|pts| - 1]), pts[|pts| - 1]);
    }
  }

  /** A chain built over points that are monotone in the scan direction is
      itself monotone: it keeps a subset of the points in scan order. */
  lemma {:induction false} CurveMonotone(pts: seq<Vec2>, up: bool)
    requires Monotone(pts, up)
    ensures Monotone(Curve(pts), up)
  {
    if |pts| > 0 {
      var init := pts[..|pts| - 1];
      var p := pts[|pts| - 1];
      assert Monotone(init, up);
      CurveMonotone(init, up);
      var prev := Curve(init);
      var r := Push(prev, p);
      forall q | q in prev
        ensures Before(q, p, up)
      {
        var k :| 0 <= k < |init| && init[k] == q;
      }
      var n := |r| - 1;
      forall i, j | 0 <= i < j < |r|
        ensures Before(r[i], r[j], up)
      {
        assert r[i] == prev[i] && prev[i] in prev;
        if j < n {
          assert r[j] == prev[j];
        }
      }
    }
  }

  /** The stack loop of `ccw_curve`, as the source runs it. */
  method CcwCurve(pts: seq<Vec2>) returns (chain: seq<Vec2>)
    ensures chain == Curve(pts)
    ensures StrictlyCcw(chain)
    ensures |pts| > 0 ==> |chain| > 0 && chain[0] == pts[0] && chain[|chain| - 1] == pts[|pts| - 1]
    ensures forall q :: q in chain ==> q in pts
  {
    chain := [];
    var i := 0;
    while i < |pts|
      invariant 0 <= i <= |pts|
      invariant chain == Curve(pts[..i])
    {
      assert pts[..i + 1][..i] == pts[..i];
      chain := PopAndPush(chain, pts[i]);
      i := i + 1;
    }
    assert pts[..i] == pts;
    CurveStrictlyCcw(pts);
  }

  /** One step of `ccw_curve`: pop while the top two points and `p` do not
      turn counter-clockwise, then push `p`. */
  method PopAndPush(chain: seq<Vec2>, p: Vec2) returns (r: seq<Vec2>)
    ensures r == Push(chain, p)
  {
    r := chain;
    while |r| >= 2 && !Ccw(r[|r| - 2], r[|r| - 1], p)
      invariant Push(r, p) == Push(chain, p)
      decreases |r|
    {
      r := r[..|r| - 1];
    }
    r := r + [p];
  }

  // ---------------------------------------------------------------------
  // The hull

  /** `convex_hull`: with at most one distinct point the sorted points are
      returned as they are; otherwise the lower chain (ascending scan) and the
      upper chain (descending scan), each without its last point. */
  function ConvexHull(ps: seq<Vec2>): (h: seq<Vec2>)
    ensures forall q :: q in h ==> q in ps
    ensures |SortUnique(ps)| <= 1 ==> h == SortUnique(ps)
    ensures |SortUnique(ps)| >= 2 ==> |h| >= 2 && IsLexMin(h[0], ps)
  {
    var pts := SortUnique(ps);
    if |pts| <= 1 then pts
    else
      HullParts(ps, pts, Curve(pts), Curve(Reverse(pts)));
      JoinChains(pts)
  }

  /** The lower chain and then the upper chain of the sorted points, each
      without its last point, which the other chain starts with. */
  function JoinChains(pts: seq<Vec2>): seq<Vec2>
    requires |pts| > 0
  {
    var lower := Curve(pts);
    var upper := Curve(Reverse(pts));
    lower[..|lower| - 1] + upper[..|upper| - 1]
  }

  /** The facts `ConvexHull` promises, for two chains of at least two
      sorted points: the lower one from the first point to the last, the
      upper one over the same points. */
  lemma HullParts(ps: seq<Vec2>, pts: seq<Vec2>, lower: seq<Vec2>, upper: seq<Vec2>)
    requires Monotone(pts, true) && (forall q :: q in pts <==> q in ps) && |pts| >= 2
    requires |lower| > 0 && lower[0] == pts[0] && lower[|lower| - 1] == pts[|pts| - 1]
    requires forall q :: q in lower ==> q in pts
    requires |upper| > 0 && upper[0] == pts[|pts| - 1] && upper[|upper| - 1] == pts[0]
    requires forall q :: q in upper ==> q in Reverse(pts)
    ensures var h := lower[..|lower| - 1] + upper[..|upper| - 1];
      |h| >= 2 && IsLexMin(h[0], ps) && forall q :: q in h ==> q in ps
  {
    assert IsLexMin(pts[0], ps) by {
      forall q | q in ps
        ensures q == pts[0] || LexLess(pts[0], q)
      {
        var k :| 0 <= k < |pts| && pts[k] == q;
        if k > 0 { assert Before(pts[0], pts[k], true); }
      }
    }
    assert Before(pts[0], pts[|pts| - 1], true);
    assert |lower| >= 2 && |upper| >= 2;
    var h := lower[..|lower| - 1] + upper[..|upper| - 1];
    assert h[0] == pts[0];
    ReverseMembers(pts);
    forall q | q in h
      ensures q in ps
    {
      if q in lower[..|lower| - 1] {
        DropLastMember(lower, q);
      } else {
        assert q in upper[..|upper| - 1];
        DropLastMember(upper, q);
        assert q in Reverse(pts);
      }
    }
  }

  /** A point of a chain without its last point is a point of the chain. */
  lemma DropLastMember(c: seq<Vec2>, q: Vec2)
    requires |c| >= 1 && q in c[..|c| - 1]
    ensures q in c
  {
    var k :| 0 <= k < |c| - 1 && c[..|c| - 1][k] == q;
    assert c[k] == q;
  }

  /** Reversing keeps the points. */
  lemma ReverseMembers(s: seq<Vec2>)
    ensures forall q :: q in Reverse(s) <==> q in s
  {
    forall q
      ensures q in Reverse(s) <==> q in s
    {
      if q in s {
        var k :| 0 <= k < |s| && s[k] == q;
        assert Reverse(s)[|s| - 1 - k] == q;
      }
      if q in Reverse(s) {
        var k :| 0 <= k < |s| && Reverse(s)[k] == q;
      }
    }
  }

  /** What both hull lemmas start from: for at least two ascending points,
      the lower chain runs from the least point to the greatest and the
      upper chain back, each monotone and strictly counter-clockwise. */
  lemma ChainFacts(pts: seq<Vec2>) returns (lower: seq<Vec2>, upper: seq<Vec2>)
    requires Monotone(pts, true) && |pts| >= 2
    ensures lower == Curve(pts) && upper == Curve(Reverse(pts))
    ensures |lower| >= 2 && |upper| >= 2
    ensures Monotone(lower, true) && StrictlyCcw(lower)
    ensures Monotone(upper, false) && StrictlyCcw(upper)
    ensures lower[0] == upper[|upper| - 1] && lower[|lower| - 1] == upper[0]
    ensures LexLess(lower[0], upper[0])
    ensures lower[0] == pts[0] && upper[0] == pts[|pts| - 1]
    ensures forall q :: q in lower || q in upper ==> q in pts
    ensures forall q :: q in pts ==> LeftOfChain(lower, q) && LeftOfChain(upper, q)
    ensures forall q :: q in pts ==> q == upper[0] || LexLess(q, upper[0])
  {
    lower := Curve(pts);
    upper := Curve(Reverse(pts));
    CurveMonotone(pts, true);
    assert Monotone(Reverse(pts), false);
    CurveMonotone(Reverse(pts), false);
    CurveStrictlyCcw(pts);
    CurveStrictlyCcw(Reverse(pts));
    assert Before(pts[0], pts[|pts| - 1], true);
    CurveLeft(pts, true);
    CurveLeft(Reverse(pts), false);
    forall q | q in pts
      ensures q == upper[0] || LexLess(q, upper[0])
    {
      var k :| 0 <= k < |pts| && pts[k] == q;
      if k < |pts| - 1 { assert Before(pts[k], pts[|pts| - 1], true); }
    }
    assert forall q :: q in Reverse(pts) <==> q in pts by {
      forall q
        ensures q in Reverse(pts) <==> q in pts
      {
        if q in pts {
          var k :| 0 <= k < |pts| && pts[k] == q;
          assert Reverse(pts)[|pts| - 1 - k] == q;
        }
      }
    }
  }

  /** With at least two distinct points the hull is each chain without its
      last point. */
  lemma HullIsChains(ps: seq<Vec2>)
    requires |SortUnique(ps)| >= 2
    ensures ConvexHull(ps) == JoinChains(SortUnique(ps))
  {
  }

  /** Joining two chains that share their ends, each without its last
      point, and splitting again at the join gives the chains back. */
  lemma SplitAtJoin(lower: seq<Vec2>, upper: seq<Vec2>)
    requires |lower| >= 2 && |upper| >= 2
    requires lower[|lower| - 1] == upper[0] && upper[|upper| - 1] == lower[0]
    ensures var h := lower[..|lower| - 1] + upper[..|upper| - 1];
      var m := |lower| - 1;
      && h[..m + 1] == lower && h[m..] + [h[0]] == upper
  {
    var h := lower[..|lower| - 1] + upper[..|upper| - 1];
    var m := |lower| - 1;
    assert h[..m + 1] == lower by {
      forall i | 0 <= i <= m
        ensures h[i] == lower[i]
      {
        if i < m { assert h[i] == lower[..m][i]; }
      }
    }
    assert h[m..] == upper[..|upper| - 1];
  }

  /** The hull is the lower chain followed by the upper chain: it splits at
      the lexicographically largest point `h[m]`; `h[..m+1]` ascends and
      `h[m..] + [h[0]]` descends, and both turn strictly counter-clockwise at
      every interior point. */
  lemma HullChains(ps: seq<Vec2>) returns (m: nat)
    requires |SortUnique(ps)| >= 2
    ensures 0 < m < |ConvexHull(ps)|
    ensures var h := ConvexHull(ps);
      && Monotone(h[..m + 1], true) && StrictlyCcw(h[..m + 1])
      && Monotone(h[m..] + [h[0]], false) && StrictlyCcw(h[m..] + [h[0]])
  {
    var lower, upper := HullAsChains(ps);
    SplitAtJoin(lower, upper);
    m := |lower| - 1;
    var h := ConvexHull(ps);
    assert h[..m + 1] == lower;
    assert h[m..] + [h[0]] == upper;
  }

  // ---------------------------------------------------------------------
  // Geometry of a chain: interior points lie strictly right of the chord

  function CrossV(u: Vec2, v: Vec2): real {
    u.x * v.y - u.y * v.x
  }

  /** Edge `i` of a chain. */
  function Edge(c: seq<Vec2>, i: nat): Vec2
    requires i + 1 < |c|
  {
    Sub(c[i + 1], c[i])
  }

  lemma CrossIsEdgeCross(o: Vec2, a: Vec2, b: Vec2)
    ensures Cross(o, a, b) == CrossV(Sub(a, o), Sub(b, a))
    ensures Cross(o, a, b) == CrossV(Sub(a, o), Sub(b, o))
    ensures Cross(a, o, b) == -Cross(o, a, b)
  {
  }

  lemma CrossLinearRight(u: Vec2, a: Vec2, b: Vec2)
    ensures CrossV(u, Add(a, b)) == CrossV(u, a) + CrossV(u, b)
    ensures CrossV(Add(a, b), u) == CrossV(a, u) + CrossV(b, u)
  {
  }

  /** Counter-clockwise order of directions is transitive inside a half plane
      of directions that all point forward in the scan direction. */
  function Neg(u: Vec2): Vec2 {
    Vec2(-u.x, -u.y)
  }

  lemma CcwTransitive(u: Vec2, v: Vec2, w: Vec2, up: bool)
    requires Before(Vec2(0.0, 0.0), u, up) && Before(Vec2(0.0, 0.0), v, up)
    requires Before(Vec2(0.0, 0.0), w, up)
    requires CrossV(u, v) > 0.0 && CrossV(v, w) > 0.0
    ensures CrossV(u, w) > 0.0
    decreases if up then 0 else 1
  {
    if !up {
      CcwTransitive(Neg(u), Neg(v), Neg(w), true);
    } else {
      // the middle direction cannot be vertical, nor can the first
      assert v.x == 0.0 ==> v.y * w.x >= 0.0;
      assert v.x > 0.0;
      assert u.x == 0.0 ==> u.y * v.x > 0.0;
      assert u.x > 0.0;
      // cross(u,v) w + cross(v,w) u + cross(w,u) v == 0, x component
      assert CrossV(u, v) * w.x + CrossV(v, w) * u.x + CrossV(w, u) * v.x == 0.0;
      assert CrossV(u, v) * w.x >= 0.0;
      assert CrossV(v, w) * u.x > 0.0;
      assert CrossV(w, u) * v.x < 0.0;
    }
  }

  /** In a monotone strictly counter-clockwise chain every edge turns
      counter-clockwise from every earlier edge. */
  lemma {:induction false} EdgesTurnLeft(c: seq<Vec2>, up: bool, l: nat, j: nat)
    requires Monotone(c, up) && StrictlyCcw(c)
    requires l < j && j + 1 < |c|
    ensures CrossV(Edge(c, l), Edge(c, j)) > 0.0
  {
    assert Before(c[j - 1], c[j], up) && Before(c[j], c[j + 1], up);
    CrossIsEdgeCross(c[j - 1], c[j], c[j + 1]);
    assert Ccw(c[j - 1], c[j], c[j + 1]);
    if l < j - 1 {
      EdgesTurnLeft(c, up, l, j - 1);
      assert Before(c[l], c[l + 1], up);
      CcwTransitive(Edge(c, l), Edge(c, j - 1), Edge(c, j), up);
    }
  }

  /** A later edge sees every point `c[i]` (i >= 1) on its right when looking
      from `c[0]`. */
  lemma {:induction false} EdgeAgainstPrefix(c: seq<Vec2>, up: bool, i: nat, j: nat)
    requires Monotone(c, up) && StrictlyCcw(c)
    requires 1 <= i <= j && j + 1 < |c|
    ensures CrossV(Edge(c, j), Sub(c[i], c[0])) < 0.0
  {
    if i == 1 {
      if j > 0 { EdgesTurnLeft(c, up, 0, j); }
    } else {
      EdgeAgainstPrefix(c, up, i - 1, j);
      EdgesTurnLeft(c, up, i - 1, j);
      assert Sub(c[i], c[0]) == Add(Sub(c[i - 1], c[0]), Edge(c, i - 1));
      CrossLinearRight(Edge(c, j), Sub(c[i - 1], c[0]), Edge(c, i - 1));
    }
  }

  /** Every interior point of a monotone strictly counter-clockwise chain lies
      strictly right of the chord from `c[0]` to `c[k]`. */
  lemma {:induction false} InteriorRightOfChord(c: seq<Vec2>, up: bool, i: nat, k: nat)
    requires Monotone(c, up) && StrictlyCcw(c)
    requires 1 <= i < k < |c|
    ensures Cross(c[0], c[k], c[i]) < 0.0
  {
    CrossIsEdgeCross(c[0], c[k], c[i]);
    assert Sub(c[k], c[0]) == Add(Sub(c[k - 1], c[0]), Edge(c, k - 1));
    CrossLinearRight(Sub(c[i], c[0]), Sub(c[k - 1], c[0]), Edge(c, k - 1));
    EdgeAgainstPrefix(c, up, i, k - 1);
    if k - 1 > i {
      InteriorRightOfChord(c, up, i, k - 1);
      CrossIsEdgeCross(c[0], c[k - 1], c[i]);
    }
  }

  /** A point of the lower chain other than its last and a point of the
      upper chain other than its last are different: the two chains share
      only their ends, and interior points lie on opposite sides of the
      chord between the ends. */
  lemma ChainsMeetOnlyAtEnds(lower: seq<Vec2>, upper: seq<Vec2>, i: nat, k: nat)
    requires |lower| >= 2 && |upper| >= 2
    requires Monotone(lower, true) && StrictlyCcw(lower)
    requires Monotone(upper, false) && StrictlyCcw(upper)
    requires lower[0] == upper[|upper| - 1] && lower[|lower| - 1] == upper[0]
    requires LexLess(lower[0], upper[0])
    requires i < |lower| - 1 && k < |upper| - 1
    ensures lower[i] != upper[k]
  {
    var nl := |lower|;
    var nu := |upper|;
    if i == 0 {
      if k > 0 {
        assert Before(upper[k], upper[nu - 1], false);
      }
    } else if k == 0 {
      assert Before(lower[i], lower[nl - 1], true);
    } else {
      InteriorRightOfChord(lower, true, i, nl - 1);
      InteriorRightOfChord(upper, false, k, nu - 1);
      CrossIsEdgeCross(lower[0], upper[0], upper[k]);
    }
  }

  /** Two chains that share only their ends, joined without their last
      points, list no point twice. */
  lemma JoinedChainsDistinct(lower: seq<Vec2>, upper: seq<Vec2>)
    requires |lower| >= 2 && |upper| >= 2
    requires Monotone(lower, true) && StrictlyCcw(lower)
    requires Monotone(upper, false) && StrictlyCcw(upper)
    requires lower[0] == upper[|upper| - 1] && lower[|lower| - 1] == upper[0]
    requires LexLess(lower[0], upper[0])
    ensures Distinct(lower[..|lower| - 1] + upper[..|upper| - 1])
  {
    var h := lower[..|lower| - 1] + upper[..|upper| - 1];
    var nl := |lower|;
    forall i, j | 0 <= i < j < |h|
      ensures h[i] != h[j]
    {
      if j < nl - 1 {
        assert h[i] == lower[i] && h[j] == lower[j];
        assert Before(lower[i], lower[j], true);
      } else if i >= nl - 1 {
        assert h[i] == upper[i - (nl - 1)] && h[j] == upper[j - (nl - 1)];
        assert Before(upper[i - (nl - 1)], upper[j - (nl - 1)], false);
      } else {
        assert h[i] == lower[i] && h[j] == upper[j - (nl - 1)];
        ChainsMeetOnlyAtEnds(lower, upper, i, j - (nl - 1));
      }
    }
  }

  /** With at least two distinct points the hull is the lower chain
      followed by the upper chain, each without its last point, and the
      chains keep the facts that make their points distinct. */
  lemma HullAsChains(ps: seq<Vec2>) returns (lower: seq<Vec2>, upper: seq<Vec2>)
    requires |SortUnique(ps)| >= 2
    ensures |lower| >= 2 && |upper| >= 2
    ensures Monotone(lower, true) && StrictlyCcw(lower)
    ensures Monotone(upper, false) && StrictlyCcw(upper)
    ensures lower[0] == upper[|upper| - 1] && lower[|lower| - 1] == upper[0]
    ensures LexLess(lower[0], upper[0])
    ensures ConvexHull(ps) == lower[..|lower| - 1] + upper[..|upper| - 1]
    ensures forall q :: q in ps ==> LeftOfChain(lower, q) && LeftOfChain(upper, q)
    ensures forall q :: q in ps ==> q == upper[0] || LexLess(q, upper[0])
  {
    var pts := SortUnique(ps);
    HullIsChains(ps);
    lower, upper := ChainFacts(pts);
  }


  /** The hull lists every vertex once. */
  lemma HullVerticesDistinct(ps: seq<Vec2>)
    ensures Distinct(ConvexHull(ps))
  {
    if |SortUnique(ps)| >= 2 {
      var lower, upper := HullAsChains(ps);
      JoinedChainsDistinct(lower, upper);
    }
  }

  // ---------------------------------------------------------------------
  // Every input point lies on or left of every chain edge

  /** `q` lies on or left of every edge of the chain `c`. */
  predicate LeftOfChain(c: seq<Vec2>, q: Vec2) {
    forall i :: 0 <= i && i + 1 < |c| ==> Cross(c[i], c[i + 1], q) >= 0.0
  }

  /** A direction that points forward in the scan direction. */
  predicate Forward(u: Vec2, up: bool) {
    Before(Vec2(0.0, 0.0), u, up)
  }

  /** Counter-clockwise order of forward directions is transitive, also when
      some of the turns are only weak. */
  lemma CrossOrder(u: Vec2, v: Vec2, w: Vec2, up: bool)
    requires Forward(u, up) && Forward(v, up) && Forward(w, up)
    ensures CrossV(u, v) >= 0.0 && CrossV(v, w) >= 0.0 ==> CrossV(u, w) >= 0.0
    ensures CrossV(u, v) >= 0.0 && CrossV(v, w) > 0.0 ==> CrossV(u, w) > 0.0
    ensures CrossV(u, v) > 0.0 && CrossV(v, w) >= 0.0 ==> CrossV(u, w) > 0.0
    decreases if up then 0 else 1
  {
    if !up {
      CrossOrder(Neg(u), Neg(v), Neg(w), true);
    } else if v.x == 0.0 {
      // v points straight up: a weak left turn from v keeps w vertical
      assert CrossV(v, w) == -(v.y * w.x);
      assert CrossV(u, v) == u.x * v.y;
      assert CrossV(v, w) >= 0.0 ==> w.x == 0.0;
    } else {
      // v points forward and to the right, and the x component of
      // cross(u,v) w + cross(v,w) u + cross(w,u) v vanishes
      assert v.x > 0.0;
      CrossIdentity(u, v, w);
      if CrossV(u, v) >= 0.0 {
        // a weak left turn onto a rightward v cannot start straight up
        assert u.x == 0.0 ==> CrossV(u, v) == -(u.y * v.x);
        SignOfSum(CrossV(u, v), w.x, CrossV(v, w), u.x, v.x, CrossV(u, w));
        if CrossV(u, v) > 0.0 && w.x == 0.0 {
          assert CrossV(v, w) == v.x * w.y && CrossV(u, w) == u.x * w.y;
        }
      }
    }
  }

  /** The x component of `cross(u,v) w + cross(v,w) u + cross(w,u) v`
      vanishes. */
  lemma CrossIdentity(u: Vec2, v: Vec2, w: Vec2)
    ensures CrossV(u, w) * v.x == CrossV(u, v) * w.x + CrossV(v, w) * u.x
  {
  }

  /** The sign of `a*x + b*y`, for non-negative `x` and `y`, read off through
      a positive factor `z`. */
  lemma SignOfSum(a: real, x: real, b: real, y: real, z: real, c: real)
    requires a >= 0.0 && x >= 0.0 && y > 0.0 && z > 0.0
    requires c * z == a * x + b * y
    ensures b >= 0.0 ==> c >= 0.0
    ensures b > 0.0 ==> c > 0.0
    ensures a > 0.0 && x > 0.0 && b >= 0.0 ==> c > 0.0
  {
    assert a * x >= 0.0;
    if b >= 0.0 {
      assert b * y >= 0.0;
      assert c * z >= 0.0;
    }
    if b > 0.0 {
      assert b * y > 0.0;
    }
    if a > 0.0 && x > 0.0 && b >= 0.0 {
      assert a * x > 0.0;
    }
  }

  lemma CrossRotate(o: Vec2, a: Vec2, b: Vec2)
    ensures Cross(o, a, b) == Cross(a, b, o)
    ensures Cross(o, a, b) == -Cross(o, b, a)
  {
  }

  lemma BeforeIsForward(a: Vec2, b: Vec2, up: bool)
    ensures Before(a, b, up) <==> Forward(Sub(b, a), up)
    ensures Before(a, b, up) <==> Before(b, a, !up)
    ensures !(Before(a, b, up) && Before(b, a, up))
    ensures a != b ==> Before(a, b, up) || Before(b, a, up)
  {
    LexLessIsStrictTotalOrder(a, b, a);
  }

  /** Popping `b` (the turn `a, b, p` is not counter-clockwise) keeps every
      point after `a` on or left of the new last edge `a -> p`. */
  lemma PopKeepsPending(a: Vec2, b: Vec2, p: Vec2, q: Vec2, up: bool)
    requires Before(a, b, up) && Before(a, p, up) && Before(a, q, up) && Before(q, p, up)
    requires Cross(a, b, p) <= 0.0
    requires q == b || Before(q, b, up) ==> Cross(a, b, q) >= 0.0
    requires Before(b, q, up) ==> Cross(b, p, q) >= 0.0
    ensures Cross(a, p, q) >= 0.0
  {
    BeforeIsForward(a, b, up);
    BeforeIsForward(a, p, up);
    BeforeIsForward(a, q, up);
    BeforeIsForward(q, p, up);
    BeforeIsForward(q, b, up);
    CrossRotate(a, b, p);
    if q == b {
    } else if Before(q, b, up) {
      CrossIsEdgeCross(a, p, b);
      CrossIsEdgeCross(a, b, q);
      CrossIsEdgeCross(a, p, q);
      CrossOrder(Sub(p, a), Sub(b, a), Sub(q, a), up);
    } else {
      BeforeIsForward(b, p, up);
      BeforeIsForward(p, a, !up);
      BeforeIsForward(p, b, !up);
      BeforeIsForward(p, q, !up);
      CrossRotate(b, p, q);
      CrossRotate(a, p, q);
      CrossRotate(a, p, b);
      CrossIsEdgeCross(p, q, b);
      CrossIsEdgeCross(p, b, a);
      CrossIsEdgeCross(p, q, a);
      CrossOrder(Sub(q, p), Sub(b, p), Sub(a, p), !up);
    }
  }

  /** Pushing `p` after a strict left turn `a, l, p` keeps a point before
      `l` that is on or left of the edge `a -> l` on or left of `l -> p`. */
  lemma PushKeepsLeft(a: Vec2, l: Vec2, p: Vec2, q: Vec2, up: bool)
    requires Before(a, l, up) && Before(l, p, up) && Before(q, l, up)
    requires Ccw(a, l, p) && Cross(a, l, q) >= 0.0
    ensures Cross(l, p, q) > 0.0
  {
    BeforeIsForward(a, l, up);
    BeforeIsForward(l, p, up);
    BeforeIsForward(q, l, up);
    CrossIsEdgeCross(a, l, p);
    CrossIsEdgeCross(a, l, q);
    CrossIsEdgeCross(l, p, q);
    assert Cross(a, l, q) == CrossV(Sub(l, q), Sub(l, a));
    assert Cross(l, p, q) == CrossV(Sub(l, q), Sub(p, l));
    CrossOrder(Sub(l, q), Sub(l, a), Sub(p, l), up);
  }

  /** In a monotone strictly counter-clockwise chain every vertex past the
      end of an edge lies strictly left of it. */
  lemma {:induction false} LaterVertexLeft(c: seq<Vec2>, up: bool, i: nat, k: nat)
    requires Monotone(c, up) && StrictlyCcw(c)
    requires i + 2 <= k < |c|
    ensures Cross(c[i], c[i + 1], c[k]) > 0.0
  {
    if k > i + 2 {
      LaterVertexLeft(c, up, i, k - 1);
      EdgesTurnLeft(c, up, i, k - 1);
      CrossIsEdgeCross(c[i], c[i + 1], c[k]);
      CrossIsEdgeCross(c[i], c[i + 1], c[k - 1]);
      assert Sub(c[k], c[i + 1]) == Add(Sub(c[k - 1], c[i + 1]), Edge(c, k - 1));
      CrossLinearRight(Edge(c, i), Sub(c[k - 1], c[i + 1]), Edge(c, k - 1));
    }
  }

  /** The hypotheses of `PushLeft`: a monotone strictly counter-clockwise
      chain over the points `P` seen so far, all before `p`, all on or left
      of every edge, none before the chain's first point; and what earlier
      pops leave behind: the points after the chain's last point are on or
      left of the edge from it to `p`. */
  predicate PushReady(chain: seq<Vec2>, P: seq<Vec2>, p: Vec2, up: bool) {
    && |chain| >= 1 && Monotone(chain, up) && StrictlyCcw(chain)
    && (forall q :: q in chain ==> q in P)
    && (forall q :: q in P ==> Before(q, p, up))
    && (forall q :: q in P ==> LeftOfChain(chain, q))
    && (forall q :: q in P ==> q == chain[0] || Before(chain[0], q, up))
    && (forall q :: q in P && Before(chain[|chain| - 1], q, up) ==>
          Cross(chain[|chain| - 1], p, q) >= 0.0)
  }

  /** A pop keeps the hypotheses: the point popped and those after it are on
      or left of the new last edge to `p`. */
  lemma PopKeepsReady(chain: seq<Vec2>, P: seq<Vec2>, p: Vec2, up: bool)
    requires PushReady(chain, P, p, up)
    requires |chain| >= 2 && !Ccw(chain[|chain| - 2], chain[|chain| - 1], p)
    ensures PushReady(chain[..|chain| - 1], P, p, up)
  {
    var n := |chain|;
    var a, b := chain[n - 2], chain[n - 1];
    var shorter := chain[..n - 1];
    assert a in P && b in P;
    assert Before(a, b, up);
    assert shorter[|shorter| - 1] == a && shorter[0] == chain[0];
    forall q | q in P && Before(a, q, up)
      ensures Cross(a, p, q) >= 0.0
    {
      PopKeepsPending(a, b, p, q, up);
    }
    PrefixKeepsChain(chain, up);
    forall q | q in P
      ensures LeftOfChain(shorter, q)
    {
      PrefixKeepsLeft(chain, q);
    }
    forall q | q in shorter
      ensures q in P
    {
      var k :| 0 <= k < |shorter| && shorter[k] == q;
      assert chain[k] == q;
    }
  }

  /** Dropping the last point of a chain keeps it monotone and strictly
      counter-clockwise. */
  lemma PrefixKeepsChain(c: seq<Vec2>, up: bool)
    requires |c| >= 1 && Monotone(c, up) && StrictlyCcw(c)
    ensures Monotone(c[..|c| - 1], up) && StrictlyCcw(c[..|c| - 1])
  {
    var t := c[..|c| - 1];
    assert forall i :: 0 <= i < |t| ==> t[i] == c[i];
  }

  /** A point on or left of every edge of a chain is on or left of every
      edge of the chain without its last point. */
  lemma PrefixKeepsLeft(c: seq<Vec2>, q: Vec2)
    requires |c| >= 1 && LeftOfChain(c, q)
    ensures LeftOfChain(c[..|c| - 1], q)
  {
    var t := c[..|c| - 1];
    assert forall i :: 0 <= i < |t| ==> t[i] == c[i];
  }

  /** Appending `p` after a strict left turn keeps the points seen so far on
      or left of every edge. */
  lemma AppendKeepsLeft(chain: seq<Vec2>, P: seq<Vec2>, p: Vec2, up: bool)
    requires PushReady(chain, P, p, up)
    requires |chain| == 1 || Ccw(chain[|chain| - 2], chain[|chain| - 1], p)
    ensures forall q :: q in P ==> LeftOfChain(chain + [p], q)
  {
    var n := |chain|;
    var r := chain + [p];
    forall q | q in P
      ensures LeftOfChain(r, q)
    {
      LastEdgeLeft(chain, P, p, up, q);
      forall i | 0 <= i && i + 1 < |r|
        ensures Cross(r[i], r[i + 1], q) >= 0.0
      {
        if i + 1 < n {
          assert r[i] == chain[i] && r[i + 1] == chain[i + 1];
        } else {
          assert r[i] == chain[n - 1] && r[i + 1] == p;
        }
      }
    }
  }

  /** The new last edge, from the chain's last point `l` to `p`: a point
      seen so far is on or left of it. */
  lemma LastEdgeLeft(chain: seq<Vec2>, P: seq<Vec2>, p: Vec2, up: bool, q: Vec2)
    requires PushReady(chain, P, p, up)
    requires |chain| == 1 || Ccw(chain[|chain| - 2], chain[|chain| - 1], p)
    requires q in P
    ensures Cross(chain[|chain| - 1], p, q) >= 0.0
  {
    var n := |chain|;
    var l := chain[n - 1];
    assert l in P;
    if q == l {
      assert Cross(l, p, q) == 0.0;
    } else if Before(l, q, up) {
      assert Cross(chain[|chain| - 1], p, q) >= 0.0;
    } else {
      BeforeIsForward(q, l, up);
      if n == 1 {
        BeforeIsForward(chain[0], q, up);
      } else {
        var a := chain[n - 2];
        assert Before(a, l, up) && Before(l, p, up) && Before(q, l, up);
        assert LeftOfChain(chain, q);
        assert Cross(a, l, q) >= 0.0;
        PushKeepsLeft(a, l, p, q, up);
      }
    }
  }

  /** Appending `p` after a strict left turn puts `p` strictly left of every
      earlier edge. */
  lemma AppendedPointLeft(chain: seq<Vec2>, P: seq<Vec2>, p: Vec2, up: bool)
    requires PushReady(chain, P, p, up)
    requires |chain| == 1 || Ccw(chain[|chain| - 2], chain[|chain| - 1], p)
    ensures LeftOfChain(chain + [p], p)
  {
    var n := |chain|;
    var r := chain + [p];
    assert Push(chain, p) == r;
    PushKeepsCcw(chain, p);
    assert Monotone(r, up) by {
      forall i, j | 0 <= i < j < |r|
        ensures Before(r[i], r[j], up)
      {
        assert r[i] == chain[i] && chain[i] in P;
        if j < n { assert r[j] == chain[j]; }
      }
    }
    forall i | 0 <= i && i + 1 < |r|
      ensures Cross(r[i], r[i + 1], p) >= 0.0
    {
      if i + 1 < n {
        LaterVertexLeft(r, up, i, n);
      }
    }
  }

  /** One step of `ccw_curve` keeps every point seen so far, and the new
      one, on or left of every edge. */
  lemma {:induction false} PushLeft(chain: seq<Vec2>, P: seq<Vec2>, p: Vec2, up: bool)
    requires PushReady(chain, P, p, up)
    ensures forall q :: q in P ==> LeftOfChain(Push(chain, p), q)
    ensures LeftOfChain(Push(chain, p), p)
    decreases |chain|
  {
    var n := |chain|;
    if n >= 2 && !Ccw(chain[n - 2], chain[n - 1], p) {
      assert Push(chain, p) == Push(chain[..n - 1], p);
      PopKeepsReady(chain, P, p, up);
      PushLeft(chain[..n - 1], P, p, up);
    } else {
      assert Push(chain, p) == chain + [p];
      AppendKeepsLeft(chain, P, p, up);
      AppendedPointLeft(chain, P, p, up);
    }
  }

  /** Every point a chain is built from lies on or left of each of its
      edges. */
  lemma {:induction false} CurveLeft(pts: seq<Vec2>, up: bool)
    requires Monotone(pts, up)
    ensures forall q :: q in pts ==> LeftOfChain(Curve(pts), q)
  {
    if |pts| > 1 {
      var init := pts[..|pts| - 1];
      var p := pts[|pts| - 1];
      assert Monotone(init, up);
      CurveLeft(init, up);
      CurveMonotone(init, up);
      CurveStrictlyCcw(init);
      var chain := Curve(init);
      assert Curve(pts) == Push(chain, p);
      assert chain[0] == init[0] && chain[|chain| - 1] == init[|init| - 1];
      forall q | q in init
        ensures Before(q, p, up) && (q == chain[0] || Before(chain[0], q, up))
        ensures !Before(chain[|chain| - 1], q, up)
      {
        var k :| 0 <= k < |init| && init[k] == q;
        assert pts[k] == q && pts[0] == chain[0];
        BeforeIsForward(q, init[|init| - 1], up);
      }
      assert PushReady(chain, init, p, up);
      PushLeft(chain, init, p, up);
      forall q | q in pts
        ensures LeftOfChain(Curve(pts), q)
      {
        if q != p {
          var k :| 0 <= k < |pts| && pts[k] == q;
          assert init[k] == q;
        }
      }
    }
  }

  /** The turn past the join at `j`: `l` comes after `u1` and is on or left
      of the edge `u1 -> u2`, so `l, j, u1` turn strictly left. */
  lemma TurnBeyond(j: Vec2, u1: Vec2, u2: Vec2, l: Vec2, up: bool)
    requires Before(j, u1, up) && Before(u1, u2, up) && Before(u1, l, up)
    requires Ccw(j, u1, u2) && Cross(u1, u2, l) >= 0.0
    ensures Ccw(l, j, u1)
  {
    BeforeIsForward(j, u1, up);
    BeforeIsForward(u1, u2, up);
    BeforeIsForward(u1, l, up);
    CrossIsEdgeCross(j, u1, u2);
    CrossIsEdgeCross(u1, u2, l);
    CrossRotate(l, j, u1);
    assert Cross(u1, l, j) == CrossV(Sub(u1, j), Sub(l, u1));
    CrossOrder(Sub(u1, j), Sub(u2, u1), Sub(l, u1), up);
  }

  /** Where one chain ends and the other begins, the turn is strictly
      counter-clockwise: the vertex before the join, the join, and the vertex
      after it. `A` runs in the scan direction `up`, `B` back. */
  lemma JoinTurnsLeft(A: seq<Vec2>, B: seq<Vec2>, up: bool)
    requires |A| >= 2 && |B| >= 2 && |A| + |B| >= 5
    requires Monotone(A, up) && StrictlyCcw(A) && Monotone(B, !up) && StrictlyCcw(B)
    requires A[|A| - 1] == B[0] && B[|B| - 1] == A[0]
    requires A[|A| - 2] != B[1]
    requires LeftOfChain(A, B[1]) && LeftOfChain(B, A[|A| - 2])
    ensures Ccw(A[|A| - 2], A[|A| - 1], B[1])
  {
    var na, nb := |A|, |B|;
    var l, j, u1 := A[na - 2], A[na - 1], B[1];
    assert Before(l, j, up);
    assert Before(j, u1, !up);
    BeforeIsForward(l, u1, up);
    BeforeIsForward(j, u1, !up);
    if Before(u1, l, up) {
      if na > 2 {
        assert Ccw(A[na - 3], l, j);
        assert Before(A[na - 3], l, up);
        PushKeepsLeft(A[na - 3], l, j, u1, up);
      }
    } else {
      if nb > 2 {
        assert Ccw(j, u1, B[2]);
        assert Before(u1, B[2], !up);
        BeforeIsForward(l, u1, !up);
        TurnBeyond(j, u1, B[2], l, !up);
      }
    }
  }

  /** Two chains from the same first point with a common direction of the
      first edge... agree on the second point: if they differed, the nearer
      one would be collinear with the farther and the farther one would lie
      strictly right of the nearer chain's next edge. */
  lemma CollinearBeyond(o: Vec2, c1: Vec2, c2: Vec2, d1: Vec2, up: bool)
    requires Before(o, c1, up) && Before(c1, c2, up) && Before(c1, d1, up)
    requires Ccw(o, c1, c2) && Cross(o, c1, d1) == 0.0
    ensures Cross(c1, c2, d1) < 0.0
  {
    BeforeIsForward(o, c1, up);
    BeforeIsForward(c1, c2, up);
    BeforeIsForward(c1, d1, up);
    CrossIsEdgeCross(o, c1, d1);
    CrossIsEdgeCross(o, c1, c2);
    CrossIsEdgeCross(c1, c2, d1);
    assert Cross(c1, c2, d1) == -CrossV(Sub(d1, c1), Sub(c2, c1));
    CrossOrder(Sub(d1, c1), Sub(c1, o), Sub(c2, c1), up);
  }

  /** The conditions under which a chain is determined by its points. */
  predicate SameHullChain(C: seq<Vec2>, D: seq<Vec2>, up: bool) {
    && |C| >= 1 && |D| >= 1 && C[0] == D[0] && C[|C| - 1] == D[|D| - 1]
    && Monotone(C, up) && Monotone(D, up) && StrictlyCcw(C) && StrictlyCcw(D)
    && (forall q :: q in C ==> LeftOfChain(D, q))
    && (forall q :: q in D ==> LeftOfChain(C, q))
  }

  lemma SecondPointAgrees(C: seq<Vec2>, D: seq<Vec2>, up: bool)
    requires SameHullChain(C, D, up) && |C| >= 2 && |D| >= 2
    requires Before(C[1], D[1], up)
    ensures |C| >= 3
    ensures Cross(C[0], C[1], D[1]) == 0.0
  {
    var o, c1, d1 := C[0], C[1], D[1];
    assert LeftOfChain(D, c1) && LeftOfChain(C, d1);
    CrossRotate(o, c1, d1);
    if |C| == 2 {
      BeforeIsForward(c1, d1, up);
    }
  }

  lemma NearerSecondPointImpossible(C: seq<Vec2>, D: seq<Vec2>, up: bool)
    requires SameHullChain(C, D, up) && |C| >= 2 && |D| >= 2
    ensures !Before(C[1], D[1], up)
  {
    if Before(C[1], D[1], up) {
      SecondPointAgrees(C, D, up);
      assert LeftOfChain(C, D[1]);
      assert Cross(C[1], C[2], D[1]) >= 0.0;
      CollinearBeyond(C[0], C[1], C[2], D[1], up);
    }
  }

  /** Dropping a common first point keeps the conditions. */
  lemma TailsSameHullChain(C: seq<Vec2>, D: seq<Vec2>, up: bool)
    requires SameHullChain(C, D, up) && |C| >= 2 && |D| >= 2 && C[1] == D[1]
    ensures SameHullChain(C[1..], D[1..], up)
  {
    TailKeepsChain(C, up);
    TailKeepsChain(D, up);
    forall q | q in C[1..]
      ensures LeftOfChain(D[1..], q)
    {
      assert q in C;
      TailKeepsLeft(D, q);
    }
    forall q | q in D[1..]
      ensures LeftOfChain(C[1..], q)
    {
      assert q in D;
      TailKeepsLeft(C, q);
    }
  }

  /** Dropping the first point of a chain keeps it monotone and strictly
      counter-clockwise. */
  lemma TailKeepsChain(c: seq<Vec2>, up: bool)
    requires |c| >= 1 && Monotone(c, up) && StrictlyCcw(c)
    ensures Monotone(c[1..], up) && StrictlyCcw(c[1..])
  {
    var t := c[1..];
    forall i, j | 0 <= i < j < |t|
      ensures Before(t[i], t[j], up)
    {
      assert t[i] == c[i + 1] && t[j] == c[j + 1];
    }
    forall i | 0 <= i && i + 2 < |t|
      ensures Ccw(t[i], t[i + 1], t[i + 2])
    {
      assert t[i] == c[i + 1] && t[i + 1] == c[i + 2] && t[i + 2] == c[i + 3];
    }
  }

  /** A point on or left of every edge of a chain is on or left of every
      edge of its tail. */
  lemma TailKeepsLeft(c: seq<Vec2>, q: Vec2)
    requires |c| >= 1 && LeftOfChain(c, q)
    ensures LeftOfChain(c[1..], q)
  {
    var t := c[1..];
    forall i | 0 <= i && i + 1 < |t|
      ensures Cross(t[i], t[i + 1], q) >= 0.0
    {
      assert t[i] == c[i + 1] && t[i + 1] == c[i + 2];
    }
  }

  /** A monotone strictly counter-clockwise chain is determined by its ends
      and its points: two such chains between the same ends, each on or left
      of the other's edges, are equal. */
  lemma {:induction false} ChainUnique(C: seq<Vec2>, D: seq<Vec2>, up: bool)
    requires SameHullChain(C, D, up)
    ensures C == D
    decreases |C|
  {
    if |C| == 1 || |D| == 1 {
      BeforeIsForward(C[0], C[0], up);
    } else {
      NearerSecondPointImpossible(C, D, up);
      NearerSecondPointImpossible(D, C, up);
      BeforeIsForward(C[1], D[1], up);
      TailsSameHullChain(C, D, up);
      ChainUnique(C[1..], D[1..], up);
      assert C == [C[0]] + C[1..] && D == [D[0]] + D[1..];
    }
  }

  /** Two chains joined at their ends, as `convex_hull` lays them out. */
  predicate JoinedChains(h: seq<Vec2>, lower: seq<Vec2>, upper: seq<Vec2>) {
    && |lower| >= 2 && |upper| >= 2
    && Monotone(lower, true) && StrictlyCcw(lower)
    && Monotone(upper, false) && StrictlyCcw(upper)
    && lower[0] == upper[|upper| - 1] && lower[|lower| - 1] == upper[0]
    && h == lower[..|lower| - 1] + upper[..|upper| - 1]
  }

  /** An ascending list of points starts at their least point and ends at
      their greatest. */
  lemma AscendingEnds(pts: seq<Vec2>, lo: Vec2, hi: Vec2)
    requires Monotone(pts, true) && lo in pts && hi in pts && lo != hi
    requires forall q :: q in pts ==> q == lo || LexLess(lo, q)
    requires forall q :: q in pts ==> q == hi || LexLess(q, hi)
    ensures |pts| >= 2 && pts[0] == lo && pts[|pts| - 1] == hi
  {
    var i :| 0 <= i < |pts| && pts[i] == lo;
    var j :| 0 <= j < |pts| && pts[j] == hi;
    if i > 0 {
      assert Before(pts[0], pts[i], true);
      LexLessIsStrictTotalOrder(pts[0], lo, lo);
    }
    if j < |pts| - 1 {
      assert Before(pts[j], pts[|pts| - 1], true);
      LexLessIsStrictTotalOrder(pts[|pts| - 1], hi, hi);
    }
  }

  /** The points of two joined chains are the points of the joined list. */
  lemma JoinedChainsPoints(h: seq<Vec2>, lower: seq<Vec2>, upper: seq<Vec2>)
    requires JoinedChains(h, lower, upper)
    ensures forall q :: q in lower || q in upper ==> q in h
    ensures lower[0] in h && upper[0] in h && lower[0] != upper[0]
  {
    SplitAtJoin(lower, upper);
    var m := |lower| - 1;
    assert h[..m + 1] == lower && h[m..] + [h[0]] == upper;
    assert forall q :: q in lower ==> q in h;
    assert forall q :: q in upper ==> q in h;
    assert Before(lower[0], lower[m], true);
    LexLessIsStrictTotalOrder(lower[0], upper[0], lower[0]);
  }

  /** Sorting the points of two joined chains puts the first point of
      `lower` first and the join last. */
  lemma SortedJoinedChains(h: seq<Vec2>, lower: seq<Vec2>, upper: seq<Vec2>) returns (pts: seq<Vec2>)
    requires JoinedChains(h, lower, upper)
    requires forall q :: q in h ==> q == lower[0] || LexLess(lower[0], q)
    requires forall q :: q in h ==> q == upper[0] || LexLess(q, upper[0])
    ensures pts == SortUnique(h) && |pts| >= 2
    ensures pts[0] == lower[0] && pts[|pts| - 1] == upper[0]
    ensures forall q :: q in lower || q in upper ==> q in h
  {
    JoinedChainsPoints(h, lower, upper);
    pts := SortUnique(h);
    AscendingEnds(pts, lower[0], upper[0]);
  }

  /** Points in convex position are their own hull: if `h` is two chains
      joined, every point of `h` on or left of every edge, then the chains
      `convex_hull` builds over `h` are those two chains. */
  lemma HullOfJoinedChains(h: seq<Vec2>, lower: seq<Vec2>, upper: seq<Vec2>)
    requires JoinedChains(h, lower, upper)
    requires forall q :: q in h ==> LeftOfChain(lower, q) && LeftOfChain(upper, q)
    requires forall q :: q in h ==> q == lower[0] || LexLess(lower[0], q)
    requires forall q :: q in h ==> q == upper[0] || LexLess(q, upper[0])
    ensures ConvexHull(h) == h
  {
    var pts := SortedJoinedChains(h, lower, upper);
    var lower2, upper2 := ChainFacts(pts);
    assert SameHullChain(lower2, lower, true);
    assert SameHullChain(upper2, upper, false);
    ChainUnique(lower2, lower, true);
    ChainUnique(upper2, upper, false);
    HullIsChains(h);
  }

  /** The hull of the hull is the hull. */
  lemma HullIdempotent(ps: seq<Vec2>)
    ensures ConvexHull(ConvexHull(ps)) == ConvexHull(ps)
  {
    var h := ConvexHull(ps);
    if |SortUnique(ps)| <= 1 {
      AscendingIsUnique(SortUnique(h), h);
    } else {
      var lower, upper := HullAsChains(ps);
      assert forall q :: q in h ==> q in ps;
      assert IsLexMin(h[0], ps);
      HullOfJoinedChains(h, lower, upper);
    }
  }
}
