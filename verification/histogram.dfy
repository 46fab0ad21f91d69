/** The N-dimensional histogram of `histogram.h`: bin schemes that map a
    value to a bin (`binning::general`, found by binary search, and
    `binning::uniform` with the identity transformation), and a histogram
    whose bin contents and squared weights are stored row-major, as
    `boost::multi_array` stores them by default. */
module Histogram {
  import opened Wrappers
  import opened Extended

  predicate Sorted(es: seq<Ext>) {
    forall i, j :: 0 <= i < j < |es| ==> Le(es[i], es[j])
  }

  /** An edge list that every scheme stores: sorted and bracketed by the
      two infinities, so that every number falls in some bin. */
  predicate IsBracketed(es: seq<Ext>) {
    |es| >= 2 && es[0] == NegInf && es[|es| - 1] == PosInf && Sorted(es)
  }

  // ---------------------------------------------------------------------
  // binning::general

  /** The edges `general` stores: the given edges, preceded by -inf unless
      they already start there and followed by +inf unless they already
      end there. `front()` and `back()` need at least one edge. */
  function GeneralEdges(edges: seq<Ext>): (es: seq<Ext>)
    requires |edges| > 0
    ensures |edges| <= |es| <= |edges| + 2 && |es| >= 2
    ensures es[0] == NegInf && es[|es| - 1] == PosInf
    ensures var k := if edges[0] == NegInf then 0 else 1;
      k + |edges| <= |es| && es[k..k + |edges|] == edges
  {
    (if edges[0] != NegInf then [NegInf] else []) + edges
      + (if edges[|edges| - 1] != PosInf then [PosInf] else [])
  }

  /** Sorted edges stay sorted once bracketed. */
  lemma GeneralEdgesBracketed(edges: seq<Ext>)
    requires |edges| > 0 && Sorted(edges)
    ensures IsBracketed(GeneralEdges(edges))
  {
    var pre: seq<Ext> := if edges[0] != NegInf then [NegInf] else [];
    var post: seq<Ext> := if edges[|edges| - 1] != PosInf then [PosInf] else [];
    BracketingKeepsSorted(pre, edges, post);
    assert GeneralEdges(edges) == pre + edges + post;
  }

  lemma BracketingKeepsSorted(pre: seq<Ext>, edges: seq<Ext>, post: seq<Ext>)
    requires Sorted(edges)
    requires pre == [] || pre == [NegInf]
    requires post == [] || post == [PosInf]
    ensures Sorted(pre + edges + post)
  {
    var es := pre + edges + post;
    var k := |pre|;
    forall i, j | 0 <= i < j < |es|
      ensures Le(es[i], es[j])
    {
      if i < k {
        assert es[i] == NegInf;
      } else if j >= k + |edges| {
        assert es[j] == PosInf;
      } else {
        assert es[i] == edges[i - k] && es[j] == edges[j - k];
      }
    }
  }

  /** Feeding a scheme's edges back into `general` changes nothing. */
  lemma GeneralEdgesIdempotent(edges: seq<Ext>)
    requires |edges| > 0
    ensures GeneralEdges(GeneralEdges(edges)) == GeneralEdges(edges)
  {
  }

  /** The first position whose edge lies above `v`, searching from `k`. */
  function FirstAbove(es: seq<Ext>, v: Ext, k: nat): (j: nat)
    requires k <= |es|
    ensures k <= j <= |es|
    ensures forall i :: k <= i < j ==> Le(es[i], v)
    ensures j < |es| ==> Lt(v, es[j])
    decreases |es| - k
  {
    if k == |es| || Lt(v, es[k]) then k else FirstAbove(es, v, k + 1)
  }

  /** `std::upper_bound`: the position of the first edge above `v`; every
      edge before it is at most `v`. */
  function UpperBound(es: seq<Ext>, v: Ext): (j: nat)
    ensures j <= |es|
    ensures forall i :: 0 <= i < j ==> Le(es[i], v)
    ensures j < |es| ==> Lt(v, es[j])
  {
    FirstAbove(es, v, 0)
  }

  /** On sorted edges every edge from the upper bound on lies above `v`. */
  lemma UpperBoundSplitsSorted(es: seq<Ext>, v: Ext)
    requires Sorted(es)
    ensures forall i :: UpperBound(es, v) <= i < |es| ==> Lt(v, es[i])
  {
    var j := UpperBound(es, v);
    forall i | j <= i < |es|
      ensures Lt(v, es[i])
    {
      LeIsTotalOrder();
      assert Le(es[j], es[i]);
    }
  }

  /** The upper bound is the only position with edges at most `v` before
      it and an edge above `v` at it. */
  lemma UpperBoundUnique(es: seq<Ext>, v: Ext, j: nat)
    requires j <= |es|
    requires forall i :: 0 <= i < j ==> Le(es[i], v)
    requires j < |es| ==> Lt(v, es[j])
    ensures j == UpperBound(es, v)
  {
  }

  /** The binary search `std::upper_bound` performs, on sorted edges. */
  method UpperBoundSearch(es: seq<Ext>, v: Ext) returns (j: nat)
    requires Sorted(es)
    ensures j == UpperBound(es, v)
  {
    var lo, hi := 0, |es|;
    LeIsTotalOrder();
    while lo < hi
      invariant 0 <= lo <= hi <= |es|
      invariant forall i :: 0 <= i < lo ==> Le(es[i], v)
      invariant forall i :: hi <= i < |es| ==> Lt(v, es[i])
      decreases hi - lo
    {
      var mid := (lo + hi) / 2;
      if Lt(v, es[mid]) {
        hi := mid;
      } else {
        lo := mid + 1;
      }
    }
    j := lo;
    UpperBoundUnique(es, v, j);
  }

  /** `general::index` as written: one before the upper bound. The
      `assert(j > 0)` holds for every number because the first edge is
      -inf; the bin is the one whose edges bracket `v`, but `+inf` gets
      position `|es| - 1`, which is one past the last bin. */
  function GeneralIndexAsWritten(es: seq<Ext>, v: Ext): (i: nat)
    requires IsBracketed(es)
    ensures UpperBound(es, v) > 0
    ensures i <= |es| - 1
    ensures Le(es[i], v) && (i + 1 < |es| ==> Lt(v, es[i + 1]))
  {
    UpperBound(es, v) - 1
  }

  /** Every value below +inf gets a bin of the datacube. */
  lemma GeneralIndexAsWrittenInRange(es: seq<Ext>, v: Ext)
    requires IsBracketed(es) && v != PosInf
    ensures GeneralIndexAsWritten(es, v) <= |es| - 2
  {
    assert Lt(v, es[|es| - 1]);
  }

  /** +inf lands one past the last bin: the datacube has `|es| - 1` bins
      per dimension, numbered `0 .. |es| - 2`. */
  lemma GeneralIndexAsWrittenOfPosInf(es: seq<Ext>)
    requires IsBracketed(es)
    ensures GeneralIndexAsWritten(es, PosInf) == |es| - 1
  {
  }

  /** `general::index` with +inf put in the last bin `[e, +inf)`, where
      `uniform::index` puts it. */
  function GeneralIndex(es: seq<Ext>, v: Ext): (i: nat)
    requires IsBracketed(es)
    ensures i <= |es| - 2
    ensures Le(es[i], v) && (Lt(v, es[i + 1]) || (v == PosInf && i == |es| - 2))
    ensures v != PosInf ==> i == GeneralIndexAsWritten(es, v)
  {
    if v == PosInf then |es| - 2
    else
      GeneralIndexAsWrittenInRange(es, v);
      GeneralIndexAsWritten(es, v)
  }

  /** The general index is the one bin that brackets the value. */
  lemma GeneralIndexIsTheBracket(es: seq<Ext>, v: Ext, i: nat)
    requires IsBracketed(es) && i + 1 < |es|
    requires Le(es[i], v) && (Lt(v, es[i + 1]) || (v == PosInf && i == |es| - 2))
    ensures GeneralIndex(es, v) == i
  {
    if v != PosInf {
      BracketUnique(es, v, i, GeneralIndex(es, v));
    }
  }

  /** On sorted edges at most one bin brackets a value. */
  lemma BracketUnique(es: seq<Ext>, v: Ext, i: nat, k: nat)
    requires Sorted(es) && i + 1 < |es| && k + 1 < |es|
    requires Le(es[i], v) && Lt(v, es[i + 1])
    requires Le(es[k], v) && Lt(v, es[k + 1])
    ensures i == k
  {
    LeIsTotalOrder();
  }

  // ---------------------------------------------------------------------
  // binning::uniform with the identity transformation

  /** Interior edge `k` of `n`: `low + (high - low) * k/(n - 1)`. */
  function UniformEdge(low: real, high: real, n: nat, k: int): real
    requires n >= 2
  {
    low + (high - low) * (k as real / (n - 1) as real)
  }

  /** The edges `uniform` stores: -inf, `n` evenly spaced edges from `low`
      to `high`, +inf. */
  function UniformEdges(low: real, high: real, n: nat): (es: seq<Ext>)
    requires n >= 2
    ensures |es| == n + 2 && es[0] == NegInf && es[n + 1] == PosInf
    ensures forall k :: 0 <= k < n ==> es[k + 1] == Fin(UniformEdge(low, high, n, k))
    ensures es[1] == Fin(low) && es[n] == Fin(high)
  {
    assert UniformEdge(low, high, n, n - 1) == high;
    [NegInf] + seq(n, k requires 0 <= k < n => Fin(UniformEdge(low, high, n, k))) + [PosInf]
  }

  lemma UniformEdgeIncreasing(low: real, high: real, n: nat, k: int, l: int)
    requires n >= 2 && low < high && k < l
    ensures UniformEdge(low, high, n, k) < UniformEdge(low, high, n, l)
  {
    var m := (n - 1) as real;
    DivLess(k as real, l as real, m);
    MulLess(high - low, k as real / m, l as real / m);
    assert (high - low) * (k as real / m) < (high - low) * (l as real / m);
    assert UniformEdge(low, high, n, k) == low + (high - low) * (k as real / m);
    assert UniformEdge(low, high, n, l) == low + (high - low) * (l as real / m);
  }

  lemma DivLess(a: real, b: real, m: real)
    requires m > 0.0 && a < b
    ensures a / m < b / m
  {
  }

  lemma MulLess(r: real, a: real, b: real)
    requires r > 0.0 && a < b
    ensures r * a < r * b
  {
  }

  lemma UniformEdgesBracketed(low: real, high: real, n: nat)
    requires n >= 2 && low < high
    ensures IsBracketed(UniformEdges(low, high, n))
  {
    var es := UniformEdges(low, high, n);
    forall i, j | 0 <= i < j < |es|
      ensures Le(es[i], es[j])
    {
      if 0 < i && j < n + 1 {
        UniformEdgeIncreasing(low, high, n, i - 1, j - 1);
      }
    }
  }

  /** The interior branch of `uniform::index`: `floor((n-1)*imap(x)) + 1`
      names the bin whose edges bracket `x`. */
  lemma UniformInteriorBin(low: real, high: real, n: nat, x: real)
    requires n >= 2 && low <= x < high
    ensures var k := ((n - 1) as real * ((x - low) / (high - low))).Floor;
      && 0 <= k <= n - 2
      && UniformEdge(low, high, n, k) <= x < UniformEdge(low, high, n, k + 1)
  {
    var t := (n - 1) as real * ((x - low) / (high - low));
    InteriorFraction(low, high, n, x);
    var k := t.Floor;
    assert k as real <= t < (k + 1) as real;
    EdgeAtMost(low, high, n, x, k);
    EdgeAbove(low, high, n, x, k + 1);
  }

  lemma InteriorFraction(low: real, high: real, n: nat, x: real)
    requires n >= 2 && low <= x < high
    ensures 0.0 <= (n - 1) as real * ((x - low) / (high - low)) < (n - 1) as real
  {
    var q := (x - low) / (high - low);
    QuotientBelowOne(x - low, high - low);
    ScaledFraction((n - 1) as real, q);
  }

  lemma EdgeAtMost(low: real, high: real, n: nat, x: real, k: int)
    requires n >= 2 && low < high
    requires k as real <= (n - 1) as real * ((x - low) / (high - low))
    ensures UniformEdge(low, high, n, k) <= x
  {
    var q := (x - low) / (high - low);
    ScaleBack(high - low, (n - 1) as real, q, k as real);
    assert q * (high - low) == x - low;
    assert (high - low) * (k as real / (n - 1) as real) <= x - low;
  }

  lemma EdgeAbove(low: real, high: real, n: nat, x: real, k: int)
    requires n >= 2 && low < high
    requires k as real > (n - 1) as real * ((x - low) / (high - low))
    ensures UniformEdge(low, high, n, k) > x
  {
    var q := (x - low) / (high - low);
    ScaleBackStrict(high - low, (n - 1) as real, q, k as real);
    assert q * (high - low) == x - low;
    assert (high - low) * (k as real / (n - 1) as real) > x - low;
  }

  lemma QuotientBelowOne(a: real, r: real)
    requires 0.0 <= a < r
    ensures 0.0 <= a / r < 1.0
  {
  }

  lemma ScaledFraction(m: real, q: real)
    requires m >= 1.0 && 0.0 <= q < 1.0
    ensures 0.0 <= m * q < m
  {
  }

  lemma ScaleBack(r: real, m: real, q: real, k: real)
    requires r > 0.0 && m > 0.0 && k <= m * q
    ensures r * (k / m) <= q * r
  {
    assert k / m <= q;
  }

  lemma ScaleBackStrict(r: real, m: real, q: real, k: real)
    requires r > 0.0 && m > 0.0 && k > m * q
    ensures r * (k / m) > q * r
  {
    assert k / m > q;
  }

  /** `uniform::index`: bin 0 below `low`, the last bin `n` at or above
      `high`, otherwise the bin the edge formula inverts to. */
  function UniformIndex(low: real, high: real, n: nat, v: Ext): (i: nat)
    requires n >= 2
    ensures i <= n
    ensures Lt(v, Fin(low)) ==> i == 0
    ensures Le(Fin(high), v) && Le(Fin(low), v) ==> i == n
  {
    if Lt(v, Fin(low)) then 0
    else if Le(Fin(high), v) then n
    else UniformInteriorIndex(low, high, n, v.v)
  }

  /** The interior branch of `uniform::index`: `floor((n-1)*imap(x)) + 1`. */
  function UniformInteriorIndex(low: real, high: real, n: nat, x: real): (i: nat)
    requires n >= 2 && low <= x < high
    ensures 1 <= i <= n - 1
  {
    UniformInteriorBin(low, high, n, x);
    ((n - 1) as real * ((x - low) / (high - low))).Floor + 1
  }

  /** Every value lands in the uniform bin whose edges bracket it; +inf
      lands in the last bin. */
  lemma UniformIndexBrackets(low: real, high: real, n: nat, v: Ext)
    requires n >= 2 && low < high
    ensures var es := UniformEdges(low, high, n);
      var i := UniformIndex(low, high, n, v);
      Le(es[i], v) && (Lt(v, es[i + 1]) || (v == PosInf && i == n))
  {
    var es := UniformEdges(low, high, n);
    var i := UniformIndex(low, high, n, v);
    if Lt(v, Fin(low)) {
      assert i == 0;
      assert es[0] == NegInf && es[1] == Fin(low);
    } else if Le(Fin(high), v) {
      assert i == n;
      assert es[n] == Fin(high) && es[n + 1] == PosInf;
    } else {
      assert v.Fin? && low <= v.v < high && v == Fin(v.v);
      InteriorBracket(low, high, n, v.v, es);
      assert i == UniformInteriorIndex(low, high, n, v.v);
    }
  }

  lemma InteriorBracket(low: real, high: real, n: nat, x: real, es: seq<Ext>)
    requires n >= 2 && low <= x < high && es == UniformEdges(low, high, n)
    ensures var i := UniformInteriorIndex(low, high, n, x);
      Le(es[i], Fin(x)) && Lt(Fin(x), es[i + 1])
  {
    var i := UniformInteriorIndex(low, high, n, x);
    InteriorIndexEdges(low, high, n, x);
    assert es[i] == Fin(UniformEdge(low, high, n, i - 1));
    assert es[i + 1] == Fin(UniformEdge(low, high, n, i));
  }

  lemma InteriorIndexEdges(low: real, high: real, n: nat, x: real)
    requires n >= 2 && low <= x < high
    ensures var i := UniformInteriorIndex(low, high, n, x);
      UniformEdge(low, high, n, i - 1) <= x < UniformEdge(low, high, n, i)
  {
    UniformInteriorBin(low, high, n, x);
  }

  /** A uniform scheme bins every value as the general scheme built on its
      own edges does (with +inf in the last bin). */
  lemma UniformMatchesGeneral(low: real, high: real, n: nat, v: Ext)
    requires n >= 2 && low < high
    ensures IsBracketed(UniformEdges(low, high, n))
      && UniformIndex(low, high, n, v) == GeneralIndex(UniformEdges(low, high, n), v)
  {
    UniformEdgesBracketed(low, high, n);
    UniformIndexBrackets(low, high, n, v);
    GeneralIndexIsTheBracket(UniformEdges(low, high, n), v, UniformIndex(low, high, n, v));
  }

  // ---------------------------------------------------------------------
  // The histogram

  datatype Scheme =
    | General(edges: seq<Ext>)
    | Uniform(low: real, high: real, nsteps: nat)

  /** General edges must be non-empty (`front()`, `back()`) and sorted
      (`upper_bound`); uniform schemes need two steps and a non-empty
      range. */
  predicate ValidScheme(s: Scheme) {
    match s
    case General(edges) => |edges| > 0 && Sorted(edges)
    case Uniform(low, high, n) => n >= 2 && low < high
  }

  /** Number of bins of a scheme, one fewer than its bracketed edges. */
  function BinCount(s: Scheme): nat
    requires ValidScheme(s)
  {
    match s
    case General(edges) =>
      |edges| - 1 + (if edges[0] != NegInf then 1 else 0) + (if edges[|edges| - 1] != PosInf then 1 else 0)
    case Uniform(_, _, n) => n + 1
  }

  function Edges(s: Scheme): (es: seq<Ext>)
    requires ValidScheme(s)
    ensures IsBracketed(es) && |es| == BinCount(s) + 1
  {
    match s
    case General(edges) =>
      GeneralEdgesBracketed(edges);
      GeneralEdges(edges)
    case Uniform(low, high, n) =>
      UniformEdgesBracketed(low, high, n);
      UniformEdges(low, high, n)
  }

  /** `scheme::index`: the bin of `v`. */
  function Index(s: Scheme, v: Ext): (i: nat)
    requires ValidScheme(s)
    ensures i < BinCount(s)
  {
    match s
    case General(_) => GeneralIndex(Edges(s), v)
    case Uniform(low, high, n) => UniformIndex(low, high, n, v)
  }

  /** The bin `Index` picks is the one whose edges bracket `v`, with +inf
      in the last bin. */
  lemma IndexBrackets(s: Scheme, v: Ext)
    requires ValidScheme(s)
    ensures var es, i := Edges(s), Index(s, v);
      Le(es[i], v) && (Lt(v, es[i + 1]) || v == PosInf)
  {
    if s.Uniform? {
      UniformIndexBrackets(s.low, s.high, s.nsteps, v);
    }
  }

  predicate ValidSchemes(schemes: seq<Scheme>) {
    forall i :: 0 <= i < |schemes| ==> ValidScheme(schemes[i])
  }

  /** Bins per dimension: one fewer than the scheme's edges. */
  function Dims(schemes: seq<Scheme>): (d: seq<nat>)
    requires ValidSchemes(schemes)
    ensures |d| == |schemes|
    ensures forall i :: 0 <= i < |schemes| ==> d[i] == BinCount(schemes[i])
  {
    seq(|schemes|, i requires 0 <= i < |schemes| => BinCount(schemes[i]))
  }

  /** Number of cells of a datacube. */
  function CellCount(dims: seq<nat>): nat {
    if |dims| == 0 then 1 else CellCount(dims[..|dims| - 1]) * dims[|dims| - 1]
  }

  predicate InBox(idx: seq<nat>, dims: seq<nat>) {
    |idx| == |dims| && forall i :: 0 <= i < |idx| ==> idx[i] < dims[i]
  }

  /** Row-major position of a cell: the last index varies fastest. */
  function Offset(idx: seq<nat>, dims: seq<nat>): nat
    requires |idx| == |dims|
  {
    if |idx| == 0 then 0
    else Offset(idx[..|idx| - 1], dims[..|dims| - 1]) * dims[|dims| - 1] + idx[|idx| - 1]
  }

  lemma MulAddBelow(q: nat, c: nat, r: nat, d: nat)
    requires q < c && r < d
    ensures q * d + r < c * d
  {
    assert q * d + r < (q + 1) * d;
    assert (q + 1) * d <= c * d;
  }

  lemma MulAddUnique(q1: nat, r1: nat, q2: nat, r2: nat, d: nat)
    requires r1 < d && r2 < d && q1 * d + r1 == q2 * d + r2
    ensures q1 == q2 && r1 == r2
  {
    if q1 < q2 {
      MulAddBelow(q1, q2, r1, d);
      assert false;
    } else if q2 < q1 {
      MulAddBelow(q2, q1, r2, d);
      assert false;
    }
  }

  /** Every cell of the box has a position inside the datacube. */
  lemma {:induction false} OffsetInRange(idx: seq<nat>, dims: seq<nat>)
    requires InBox(idx, dims)
    ensures Offset(idx, dims) < CellCount(dims)
  {
    if |idx| > 0 {
      var n := |idx|;
      OffsetInRange(idx[..n - 1], dims[..n - 1]);
      MulAddBelow(Offset(idx[..n - 1], dims[..n - 1]), CellCount(dims[..n - 1]), idx[n - 1], dims[n - 1]);
    }
  }

  /** Different cells of the box have different positions. */
  lemma {:induction false} OffsetInjective(a: seq<nat>, b: seq<nat>, dims: seq<nat>)
    requires InBox(a, dims) && InBox(b, dims)
    requires Offset(a, dims) == Offset(b, dims)
    ensures a == b
  {
    if |a| > 0 {
      var n := |a|;
      MulAddUnique(Offset(a[..n - 1], dims[..n - 1]), a[n - 1], Offset(b[..n - 1], dims[..n - 1]), b[n - 1], dims[n - 1]);
      OffsetInjective(a[..n - 1], b[..n - 1], dims[..n - 1]);
      assert a == a[..n - 1] + [a[n - 1]] && b == b[..n - 1] + [b[n - 1]];
    }
  }

  datatype Histogram = Histogram(
    schemes: seq<Scheme>,
    edges: seq<seq<Ext>>,
    content: seq<real>,
    squares: seq<real>)

  predicate Valid(h: Histogram) {
    && ValidSchemes(h.schemes)
    && |h.edges| == |h.schemes|
    && (forall i :: 0 <= i < |h.schemes| ==> h.edges[i] == Edges(h.schemes[i]))
    && |h.content| == CellCount(Dims(h.schemes))
    && |h.squares| == |h.content|
  }

  /** `make_datacube`: each dimension gets one bin fewer than its scheme
      has edges, and every content and squared weight starts at zero. */
  function MakeDatacube(schemes: seq<Scheme>): (h: Histogram)
    requires ValidSchemes(schemes)
    ensures Valid(h) && h.schemes == schemes
    ensures forall k :: 0 <= k < |h.content| ==> h.content[k] == 0.0 && h.squares[k] == 0.0
  {
    var edges := seq(|schemes|, i requires 0 <= i < |schemes| => Edges(schemes[i]));
    var cells := CellCount(Dims(schemes));
    Histogram(schemes, edges, seq(cells, _ => 0.0), seq(cells, _ => 0.0))
  }

  /** The histogram built from one sorted edge list per dimension. */
  function FromEdges(edgeLists: seq<seq<Ext>>): (h: Histogram)
    requires forall i :: 0 <= i < |edgeLists| ==> |edgeLists[i]| > 0 && Sorted(edgeLists[i])
    ensures Valid(h) && |h.edges| == |edgeLists|
    ensures forall i :: 0 <= i < |edgeLists| ==> h.edges[i] == GeneralEdges(edgeLists[i])
  {
    MakeDatacube(seq(|edgeLists|, i requires 0 <= i < |edgeLists| => General(edgeLists[i])))
  }

  predicate HasNaN(values: seq<Option<Ext>>) {
    exists i :: 0 <= i < |values| && values[i].None?
  }

  /** The bins of a point with no NaN coordinate: in each dimension, the
      bin whose edges bracket the coordinate. */
  function Cell(schemes: seq<Scheme>, values: seq<Option<Ext>>): (idx: seq<nat>)
    requires ValidSchemes(schemes) && |values| == |schemes| && !HasNaN(values)
    ensures |idx| == |schemes|
    ensures forall i :: 0 <= i < |idx| ==> idx[i] == Index(schemes[i], values[i].value)
  {
    seq(|values|, i requires 0 <= i < |values| => Index(schemes[i], values[i].value))
  }

  /** A point's cell lies in the datacube. */
  lemma CellInBox(schemes: seq<Scheme>, values: seq<Option<Ext>>)
    requires ValidSchemes(schemes) && |values| == |schemes| && !HasNaN(values)
    ensures InBox(Cell(schemes, values), Dims(schemes))
  {
  }

  /** In each dimension the edges of a point's bin bracket its coordinate. */
  lemma CellBrackets(schemes: seq<Scheme>, values: seq<Option<Ext>>)
    requires ValidSchemes(schemes) && |values| == |schemes| && !HasNaN(values)
    ensures var idx := Cell(schemes, values);
      forall i :: 0 <= i < |idx| ==>
        var es := Edges(schemes[i]);
        Le(es[idx[i]], values[i].value) && (Lt(values[i].value, es[idx[i] + 1]) || values[i].value == PosInf)
  {
    forall i | 0 <= i < |values| {
      IndexBrackets(schemes[i], values[i].value);
    }
  }

  /** Position of a point's cell in the datacube. */
  function CellOffset(schemes: seq<Scheme>, values: seq<Option<Ext>>): (c: nat)
    requires ValidSchemes(schemes) && |values| == |schemes| && !HasNaN(values)
    ensures c < CellCount(Dims(schemes))
  {
    CellInBox(schemes, values);
    OffsetInRange(Cell(schemes, values), Dims(schemes));
    Offset(Cell(schemes, values), Dims(schemes))
  }

  /** Cell `c` gains `w` in content and `w*w` in squared weights. */
  function Bump(h: Histogram, c: nat, w: real): (r: Histogram)
    requires c < |h.content| && |h.squares| == |h.content|
    ensures r.schemes == h.schemes && r.edges == h.edges
    ensures |r.content| == |h.content| && |r.squares| == |h.squares|
    ensures r.content[c] == h.content[c] + w && r.squares[c] == h.squares[c] + w * w
    ensures forall k :: 0 <= k < |h.content| && k != c ==> r.content[k] == h.content[k] && r.squares[k] == h.squares[k]
  {
    h.(content := h.content[c := h.content[c] + w], squares := h.squares[c := h.squares[c] + w * w])
  }

  /** `fill`: a point with a NaN coordinate is dropped; otherwise its cell
      gains `w` in content and `w*w` in squared weights, and no other cell
      changes. */
  method Fill(h: Histogram, values: seq<Option<Ext>>, w: real) returns (r: Histogram)
    requires Valid(h) && |values| == |h.schemes|
    ensures Valid(r) && r.schemes == h.schemes && r.edges == h.edges
    ensures r == Filled(h, values, w)
    ensures HasNaN(values) ==> r == h
    ensures !HasNaN(values) ==>
      var c := CellOffset(h.schemes, values);
      && r.content[c] == h.content[c] + w
      && r.squares[c] == h.squares[c] + w * w
      && (forall k :: 0 <= k < |h.content| && k != c ==> r.content[k] == h.content[k] && r.squares[k] == h.squares[k])
  {
    var found, idx := Locate(h.schemes, values);
    if !found {
      return h;
    }
    CellInBox(h.schemes, values);
    OffsetInRange(idx, Dims(h.schemes));
    r := Bump(h, Offset(idx, Dims(h.schemes)), w);
  }

  /** The loop of `fill` that bins each coordinate, stopping at the first
      NaN. */
  method Locate(schemes: seq<Scheme>, values: seq<Option<Ext>>) returns (found: bool, idx: seq<nat>)
    requires ValidSchemes(schemes) && |values| == |schemes|
    ensures found <==> !HasNaN(values)
    ensures found ==> idx == Cell(schemes, values)
  {
    idx := [];
    var i := 0;
    while i < |values|
      invariant 0 <= i <= |values| && |idx| == i
      invariant forall k :: 0 <= k < i ==> values[k].Some? && idx[k] == Index(schemes[k], values[k].value)
    {
      if values[i].None? {
        return false, idx;
      }
      idx := idx + [Index(schemes[i], values[i].value)];
      i := i + 1;
    }
    found := true;
    assert idx == Cell(schemes, values);
  }

  /** The state `Fill` leaves, as a function. */
  function Filled(h: Histogram, values: seq<Option<Ext>>, w: real): (r: Histogram)
    requires Valid(h) && |values| == |h.schemes|
    ensures Valid(r) && r.schemes == h.schemes && r.edges == h.edges
  {
    if HasNaN(values) then h else Bump(h, CellOffset(h.schemes, values), w)
  }

  function Total(s: seq<real>): real {
    if |s| == 0 then 0.0 else Total(s[..|s| - 1]) + s[|s| - 1]
  }

  /** Adding `w` to one entry adds `w` to the total. */
  lemma {:induction false} TotalOfUpdate(s: seq<real>, c: nat, w: real)
    requires c < |s|
    ensures Total(s[c := s[c] + w]) == Total(s) + w
  {
    var n := |s|;
    var t := s[c := s[c] + w];
    assert t[..n - 1] == if c == n - 1 then s[..n - 1] else s[..n - 1][c := s[c] + w];
    if c < n - 1 {
      TotalOfUpdate(s[..n - 1], c, w);
    }
  }

  /** Filling conserves weight: the contents grow by `w` in total and the
      squared weights by `w*w`, unless a coordinate is NaN. */
  lemma FillAddsWeight(h: Histogram, values: seq<Option<Ext>>, w: real)
    requires Valid(h) && |values| == |h.schemes|
    ensures var r := Filled(h, values, w);
      && Total(r.content) == Total(h.content) + (if HasNaN(values) then 0.0 else w)
      && Total(r.squares) == Total(h.squares) + (if HasNaN(values) then 0.0 else w * w)
  {
    if !HasNaN(values) {
      var c := CellOffset(h.schemes, values);
      assert Filled(h, values, w) == Bump(h, c, w);
      BumpAddsWeight(h, c, w);
    }
  }

  lemma BumpAddsWeight(h: Histogram, c: nat, w: real)
    requires c < |h.content| && |h.squares| == |h.content|
    ensures Total(Bump(h, c, w).content) == Total(h.content) + w
    ensures Total(Bump(h, c, w).squares) == Total(h.squares) + w * w
  {
    TotalOfUpdate(h.content, c, w);
    TotalOfUpdate(h.squares, c, w * w);
  }

  lemma BumpsCommute(h: Histogram, a: nat, wa: real, b: nat, wb: real)
    requires a < |h.content| && b < |h.content| && |h.squares| == |h.content|
    ensures Bump(Bump(h, a, wa), b, wb) == Bump(Bump(h, b, wb), a, wa)
  {
    var r1 := Bump(Bump(h, a, wa), b, wb);
    var r2 := Bump(Bump(h, b, wb), a, wa);
    assert r1.content == r2.content;
    assert r1.squares == r2.squares;
  }

  /** Two fills commute: the histogram does not remember their order. */
  lemma FillsCommute(h: Histogram, a: seq<Option<Ext>>, wa: real, b: seq<Option<Ext>>, wb: real)
    requires Valid(h) && |a| == |h.schemes| && |b| == |h.schemes|
    ensures Filled(Filled(h, a, wa), b, wb) == Filled(Filled(h, b, wb), a, wa)
  {
    if !HasNaN(a) && !HasNaN(b) {
      BumpsCommute(h, CellOffset(h.schemes, a), wa, CellOffset(h.schemes, b), wb);
    }
  }

  /** Two points land in the same cell exactly when they have the same
      bins in every dimension. */
  lemma SameCellIffSameBins(schemes: seq<Scheme>, a: seq<Option<Ext>>, b: seq<Option<Ext>>)
    requires ValidSchemes(schemes) && |a| == |schemes| && |b| == |schemes|
    requires !HasNaN(a) && !HasNaN(b)
    ensures CellOffset(schemes, a) == CellOffset(schemes, b)
      <==> forall i :: 0 <= i < |a| ==> Index(schemes[i], a[i].value) == Index(schemes[i], b[i].value)
  {
    var ca, cb := Cell(schemes, a), Cell(schemes, b);
    assert CellOffset(schemes, a) == Offset(ca, Dims(schemes));
    assert CellOffset(schemes, b) == Offset(cb, Dims(schemes));
    if forall i :: 0 <= i < |a| ==> Index(schemes[i], a[i].value) == Index(schemes[i], b[i].value) {
      assert ca == cb;
    }
    if Offset(ca, Dims(schemes)) == Offset(cb, Dims(schemes)) {
      CellInBox(schemes, a);
      CellInBox(schemes, b);
      OffsetInjective(ca, cb, Dims(schemes));
    }
  }
}
