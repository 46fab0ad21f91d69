/** Generation-spectrum bookkeeping for weighting simulated events: a
    spectrum counts the events drawn from a probability density over an
    energy range, spectra of one shape add up, and a collection groups
    spectra by primary particle type. The normalised densities themselves
    (power laws, the Hoerandel flux) are floating-point formulas and enter
    as a parameter. Spectra are values: the in-place and the copying
    operators of the original compute the same new value. */
module Weighting {
  import opened Wrappers

  /** The two concrete spectra. `Hoerandel` does not override
      `is_compatible`, so asking it raises `NotImplementedError`. */
  datatype Kind = PowerLaw(eslope: real) | Hoerandel(z: int, dslope: real)

  /** A spectrum without its event count; the density depends on this
      alone. `particleType` is `None` when no type was given. */
  datatype Shape = Shape(kind: Kind, emin: real, emax: real, particleType: Option<int>)

  datatype Spectrum = Spectrum(shape: Shape, nevents: real)

  datatype Error = ValueError | TypeError | NotImplementedError

  /** `generation_probability(E)` for a spectrum of the given shape. */
  type Density = (Shape, real) -> real

  /** Scalar `__call__`: events per unit energy at `e` inside `[emin, emax)`
      for a matching (or unspecified) particle type, and 0 otherwise. */
  function Call(s: Spectrum, e: real, pt: Option<int>, density: Density): (r: real)
    ensures !(s.shape.emin <= e < s.shape.emax) ==> r == 0.0
    ensures pt.Some? && pt != s.shape.particleType ==> r == 0.0
    ensures s.shape.emin <= e < s.shape.emax && (pt.None? || pt == s.shape.particleType)
      ==> r == s.nevents * density(s.shape, e)
  {
    if s.shape.emin <= e < s.shape.emax && (pt.None? || pt == s.shape.particleType)
    then s.nevents * density(s.shape, e)
    else 0.0
  }

  /** `__imul__`, `__mul__` and `__rmul__`: the event count scaled by
      `factor`. */
  function Scale(s: Spectrum, factor: real): (r: Spectrum)
    ensures r.shape == s.shape
    ensures r.nevents == s.nevents * factor
  {
    s.(nevents := s.nevents * factor)
  }

  /** Scaling a spectrum scales what it returns, and two scalings compose. */
  lemma ScaleLinear(s: Spectrum, a: real, b: real, e: real, pt: Option<int>, density: Density)
    ensures Call(Scale(s, a), e, pt, density) == a * Call(s, e, pt, density)
    ensures Scale(Scale(s, a), b) == Scale(s, a * b)
  {
    var d := density(s.shape, e);
    assert (s.nevents * a) * d == a * (s.nevents * d);
    assert (s.nevents * a) * b == s.nevents * (a * b);
  }

  /** The spectra share the concrete type, as `isinstance(other, type(self))`
      asks. */
  predicate SameType(a: Spectrum, b: Spectrum) {
    a.shape.kind.PowerLaw? == b.shape.kind.PowerLaw?
  }

  /** Two spectra that may be added: a power law and another power law of
      the same slope, range and particle type. */
  predicate Compatible(a: Spectrum, b: Spectrum) {
    a.shape.kind.PowerLaw? && a.shape == b.shape
  }

  /** `is_compatible`, as `PowerLaw` defines it and as the base class
      leaves it (raising) for `Hoerandel`. */
  function IsCompatible(a: Spectrum, b: Spectrum): (r: Result<bool, Error>)
    ensures r == Success(true) <==> Compatible(a, b)
    ensures r.Failure? <==> a.shape.kind.Hoerandel?
    ensures r.Failure? ==> r.error == NotImplementedError
  {
    match a.shape.kind
    case PowerLaw(slope) =>
      Success(b.shape.kind.PowerLaw? && a.shape.emin == b.shape.emin && a.shape.emax == b.shape.emax
        && slope == b.shape.kind.eslope && a.shape.particleType == b.shape.particleType)
    case Hoerandel(_, _) => Failure(NotImplementedError)
  }

  /** Power-law compatibility is reflexive and symmetric. */
  lemma CompatibilityIsSymmetric(a: Spectrum, b: Spectrum)
    requires a.shape.kind.PowerLaw? && b.shape.kind.PowerLaw?
    ensures IsCompatible(a, a) == Success(true)
    ensures IsCompatible(a, b) == IsCompatible(b, a)
  {
  }

  /** `__iadd__`: compatible spectra pool their events; a spectrum of the
      same type but another shape raises `ValueError`, one of another type
      `TypeError`. */
  function Iadd(a: Spectrum, b: Spectrum): (r: Result<Spectrum, Error>)
    ensures r.Success? <==> Compatible(a, b)
    ensures r.Success? ==> r.value.shape == a.shape && r.value.nevents == a.nevents + b.nevents
    ensures !SameType(a, b) ==> r == Failure(TypeError)
    ensures SameType(a, b) && a.shape.kind.PowerLaw? && !Compatible(a, b) ==> r == Failure(ValueError)
  {
    if SameType(a, b) then
      var compatible :- IsCompatible(a, b);
      if compatible then Success(a.(nevents := a.nevents + b.nevents)) else Failure(ValueError)
    else Failure(TypeError)
  }

  /** Adding compatible spectra adds what they return at every energy. */
  lemma IaddAddsCalls(a: Spectrum, b: Spectrum, e: real, pt: Option<int>, density: Density)
    requires Compatible(a, b)
    ensures Call(Iadd(a, b).value, e, pt, density) == Call(a, e, pt, density) + Call(b, e, pt, density)
  {
    var d := density(a.shape, e);
    assert (a.nevents + b.nevents) * d == a.nevents * d + b.nevents * d;
  }

  /** What `__add__` hands back: a spectrum, a collection of the two
      operands, or Python's `None`. */
  datatype Sum = Single(spectrum: Spectrum) | Pair(collection: Collection) | NoValue

  /** `__add__` as written: for spectra of the same type that are not
      compatible no branch returns, so the result is `None`. */
  function AddAsWritten(a: Spectrum, b: Spectrum): (r: Result<Sum, Error>)
    ensures Compatible(a, b) ==> r.Success? && r.value.Single? && Success(r.value.spectrum) == Iadd(a, b)
    ensures !SameType(a, b) ==> r.Success? && r.value.Pair?
    ensures SameType(a, b) && a.shape.kind.PowerLaw? && !Compatible(a, b) ==> r == Success(NoValue)
    ensures SameType(a, b) && a.shape.kind.Hoerandel? ==> r == Failure(NotImplementedError)
  {
    if SameType(a, b) then
      var compatible :- IsCompatible(a, b);
      if compatible then Success(Single(Iadd(a, b).value)) else Success(NoValue)
    else Success(Pair(FromSpectra([a, b])))
  }

  /** `a + b` on two power laws of different ranges gives `None`, where
      `a += b` raises `ValueError`. */
  lemma AddAsWrittenLosesIncompatible()
    ensures var a := Spectrum(Shape(PowerLaw(-2.0), 1.0, 10.0, None), 5.0);
      var b := Spectrum(Shape(PowerLaw(-2.0), 2.0, 10.0, None), 5.0);
      AddAsWritten(a, b) == Success(NoValue) && Iadd(a, b) == Failure(ValueError)
  {
  }

  /** `__add__` with the incompatible case raising as `__iadd__` does. */
  function Add(a: Spectrum, b: Spectrum): (r: Result<Sum, Error>)
    ensures !SameType(a, b) ==> r.Success? && r.value.Pair?
  {
    if SameType(a, b) then
      var t :- Iadd(a, b);
      Success(Single(t))
    else Success(Pair(FromSpectra([a, b])))
  }

  /** On spectra of one type `a + b` and `a += b` agree: both give the
      pooled spectrum or both raise the same error; `a + b` never yields
      `None`. */
  lemma AddAgreesWithIadd(a: Spectrum, b: Spectrum)
    requires SameType(a, b)
    ensures Add(a, b).Success? <==> Iadd(a, b).Success?
    ensures Add(a, b).Success? ==> Add(a, b).value == Single(Iadd(a, b).value)
    ensures Add(a, b).Failure? ==> Add(a, b).error == Iadd(a, b).error
    ensures Add(a, b) != Success(NoValue)
  {
  }

  /** Distinct elements. */
  predicate Distinct<T(==)>(s: seq<T>) {
    forall i, j :: 0 <= i < j < |s| ==> s[i] != s[j]
  }

  /** `GenerationProbabilityCollection`: the particle types in the order
      they were first seen, and the list of spectra for each. */
  datatype Collection = Collection(order: seq<Option<int>>, groups: map<Option<int>, seq<Spectrum>>)

  /** A well-formed collection lists each particle type once, has a list
      for exactly the listed types, and files every spectrum under its own
      type. */
  ghost predicate Valid(c: Collection) {
    && Distinct(c.order)
    && (forall k :: k in c.groups <==> k in c.order)
    && (forall k, s :: k in c.groups && s in c.groups[k] ==> s.shape.particleType == k)
  }

  /** `self.spectra[pt]` of the `defaultdict`: a missing type has no
      spectra. */
  function Get(groups: map<Option<int>, seq<Spectrum>>, pt: Option<int>): seq<Spectrum> {
    if pt in groups then groups[pt] else []
  }

  /** The spectra of `ss` of particle type `pt`, in order. */
  function Filter(ss: seq<Spectrum>, pt: Option<int>): seq<Spectrum> {
    if |ss| == 0 then []
    else Filter(ss[..|ss| - 1], pt) + (if ss[|ss| - 1].shape.particleType == pt then [ss[|ss| - 1]] else [])
  }

  /** One step of the constructor's loop: `s` joins the list of its
      particle type, which is created when missing. */
  function Insert(c: Collection, s: Spectrum): (r: Collection)
    requires Valid(c)
    ensures Valid(r)
    ensures Get(r.groups, s.shape.particleType) == Get(c.groups, s.shape.particleType) + [s]
    ensures forall pt :: pt != s.shape.particleType ==> Get(r.groups, pt) == Get(c.groups, pt)
  {
    var pt := s.shape.particleType;
    if pt in c.groups then c.(groups := c.groups[pt := c.groups[pt] + [s]])
    else Collection(c.order + [pt], c.groups[pt := [s]])
  }

  /** The constructor. */
  function FromSpectra(ss: seq<Spectrum>): (c: Collection)
    ensures Valid(c)
  {
    if |ss| == 0 then Collection([], map[]) else Insert(FromSpectra(ss[..|ss| - 1]), ss[|ss| - 1])
  }

  /** The constructor groups the spectra by particle type keeping their
      order, and creates no empty group. */
  lemma {:induction false} FromSpectraGroups(ss: seq<Spectrum>, pt: Option<int>)
    ensures Get(FromSpectra(ss).groups, pt) == Filter(ss, pt)
    ensures pt in FromSpectra(ss).groups ==> FromSpectra(ss).groups[pt] != []
  {
    if |ss| > 0 {
      FromSpectraGroups(ss[..|ss| - 1], pt);
    }
  }

  /** The loop of the constructor. */
  method Group(ss: seq<Spectrum>) returns (c: Collection)
    ensures c == FromSpectra(ss)
  {
    c := Collection([], map[]);
    var i := 0;
    while i < |ss|
      invariant 0 <= i <= |ss| && c == FromSpectra(ss[..i])
    {
      assert ss[..i + 1][..i] == ss[..i] && ss[..i + 1][i] == ss[i];
      assert FromSpectra(ss[..i + 1]) == Insert(FromSpectra(ss[..i]), ss[i]);
      c := Insert(c, ss[i]);
      i := i + 1;
    }
    assert ss[..i] == ss;
  }

  /** Sum of what the spectra return at `e`, each asked without a particle
      type. */
  function CallAll(ss: seq<Spectrum>, e: real, density: Density): real {
    if |ss| == 0 then 0.0 else CallAll(ss[..|ss| - 1], e, density) + Call(ss[|ss| - 1], e, None, density)
  }

  /** Sum of `CallAll` over the groups of the listed types. */
  function CallGroups(order: seq<Option<int>>, groups: map<Option<int>, seq<Spectrum>>, e: real, density: Density): real {
    if |order| == 0 then 0.0
    else CallGroups(order[..|order| - 1], groups, e, density) + CallAll(Get(groups, order[|order| - 1]), e, density)
  }

  /** Collection `__call__` for one energy: without a particle type, the
      sum over every spectrum; with one, the sum over that type's spectra. */
  function CollectionCall(c: Collection, e: real, pt: Option<int>, density: Density): real {
    if pt.None? then CallGroups(c.order, c.groups, e, density)
    else CallAll(Get(c.groups, pt), e, density)
  }

  lemma {:induction false} CallAllAppend(ss: seq<Spectrum>, s: Spectrum, e: real, density: Density)
    ensures CallAll(ss + [s], e, density) == CallAll(ss, e, density) + Call(s, e, None, density)
  {
    assert (ss + [s])[..|ss|] == ss;
  }

  /** Changing the group of a type that is not listed changes no sum. */
  lemma {:induction false} CallGroupsFrame(order: seq<Option<int>>, groups: map<Option<int>, seq<Spectrum>>,
                                           pt: Option<int>, v: seq<Spectrum>, e: real, density: Density)
    requires pt !in order
    ensures CallGroups(order, groups[pt := v], e, density) == CallGroups(order, groups, e, density)
  {
    if |order| > 0 {
      var n := |order|;
      assert order[n - 1] != pt;
      CallGroupsFrame(order[..n - 1], groups, pt, v, e, density);
    }
  }

  /** Replacing the group of a type listed once changes the sum by the
      change of that group's sum. */
  lemma {:induction false} CallGroupsUpdate(order: seq<Option<int>>, groups: map<Option<int>, seq<Spectrum>>,
                                            pt: Option<int>, v: seq<Spectrum>, e: real, density: Density)
    requires Distinct(order) && pt in order
    ensures CallGroups(order, groups[pt := v], e, density)
      == CallGroups(order, groups, e, density) - CallAll(Get(groups, pt), e, density) + CallAll(v, e, density)
  {
    var n := |order|;
    if order[n - 1] == pt {
      var prefix := order[..n - 1];
      assert pt !in prefix by {
        forall i | 0 <= i < |prefix| ensures prefix[i] != pt {
          assert order[i] != order[n - 1];
        }
      }
      CallGroupsFrame(order[..n - 1], groups, pt, v, e, density);
    } else {
      assert pt in order[..n - 1] by {
        var i :| 0 <= i < n && order[i] == pt;
        assert order[..n - 1][i] == pt;
      }
      var prefix := order[..n - 1];
      assert Distinct(prefix) by {
        forall i, j | 0 <= i < j < |prefix| ensures prefix[i] != prefix[j] {
          assert order[i] != order[j];
        }
      }
      CallGroupsUpdate(order[..n - 1], groups, pt, v, e, density);
    }
  }

  /** Inserting a spectrum adds what it returns to the collection's sum. */
  lemma InsertAddsCall(c: Collection, s: Spectrum, e: real, density: Density)
    requires Valid(c)
    ensures CollectionCall(Insert(c, s), e, None, density) == CollectionCall(c, e, None, density) + Call(s, e, None, density)
  {
    var pt := s.shape.particleType;
    CallAllAppend(Get(c.groups, pt), s, e, density);
    if pt in c.groups {
      CallGroupsUpdate(c.order, c.groups, pt, c.groups[pt] + [s], e, density);
    } else {
      CallGroupsFrame(c.order, c.groups, pt, [s], e, density);
      assert (c.order + [pt])[..|c.order|] == c.order;
    }
  }

  /** Grouping loses no spectrum: the collection returns the sum of what its
      spectra return. */
  lemma {:induction false} GroupingKeepsCall(ss: seq<Spectrum>, e: real, density: Density)
    ensures CollectionCall(FromSpectra(ss), e, None, density) == CallAll(ss, e, density)
  {
    if |ss| > 0 {
      GroupingKeepsCall(ss[..|ss| - 1], e, density);
      InsertAddsCall(FromSpectra(ss[..|ss| - 1]), ss[|ss| - 1], e, density);
    }
  }

  /** Every spectrum scaled by `factor`. */
  function ScaleAll(ss: seq<Spectrum>, factor: real): (r: seq<Spectrum>)
    ensures |r| == |ss|
  {
    seq(|ss|, i requires 0 <= i < |ss| => Scale(ss[i], factor))
  }

  /** Collection `__imul__` and `__mul__`: every member scaled. */
  function CollectionScale(c: Collection, factor: real): (r: Collection)
    ensures r.order == c.order && r.groups.Keys == c.groups.Keys
    ensures forall pt :: Get(r.groups, pt) == ScaleAll(Get(c.groups, pt), factor)
  {
    Collection(c.order, map pt | pt in c.groups :: ScaleAll(c.groups[pt], factor))
  }

  /** Sum of a sequence of reals, from the back. */
  function Total(xs: seq<real>): real {
    if |xs| == 0 then 0.0 else Total(xs[..|xs| - 1]) + xs[|xs| - 1]
  }

  /** `factor * x`, named so that the scaling facts below chain by equality
      of their arguments. */
  function Times(factor: real, x: real): real {
    factor * x
  }

  lemma ScaledZero(f: real)
    ensures Times(f, 0.0) == 0.0
  {
  }

  /** Scaling distributes over a sum of two. */
  lemma ScaledSum(f: real, p: real, c: real, a: real, x: real)
    requires a == Times(f, p) && x == Times(f, c)
    ensures a + x == Times(f, p + c)
  {
  }

  /** Scaling every term scales the sum. */
  lemma {:induction false} SumScales(xs: seq<real>, ys: seq<real>, f: real)
    requires |ys| == |xs| && forall i :: 0 <= i < |xs| ==> ys[i] == Times(f, xs[i])
    ensures Total(ys) == Times(f, Total(xs))
  {
    if |xs| == 0 {
      ScaledZero(f);
    } else {
      var n := |xs|;
      SumScales(xs[..n - 1], ys[..n - 1], f);
      ScaledSum(f, Total(xs[..n - 1]), xs[n - 1], Total(ys[..n - 1]), ys[n - 1]);
    }
  }

  /** What each spectrum returns at `e`. */
  function Calls(ss: seq<Spectrum>, e: real, density: Density): (r: seq<real>)
    ensures |r| == |ss|
  {
    seq(|ss|, i requires 0 <= i < |ss| => Call(ss[i], e, None, density))
  }

  lemma {:induction false} CallAllIsSum(ss: seq<Spectrum>, e: real, density: Density)
    ensures CallAll(ss, e, density) == Total(Calls(ss, e, density))
  {
    if |ss| > 0 {
      CallAllIsSum(ss[..|ss| - 1], e, density);
      assert Calls(ss[..|ss| - 1], e, density) == Calls(ss, e, density)[..|ss| - 1];
    }
  }

  lemma ScaledCall(s: Spectrum, f: real, e: real, density: Density)
    ensures Call(Scale(s, f), e, None, density) == Times(f, Call(s, e, None, density))
  {
    ScaleLinear(s, f, 1.0, e, None, density);
  }

  /** Scaling every spectrum scales what each returns. */
  lemma CallsScale(ss: seq<Spectrum>, factor: real, e: real, density: Density)
    ensures forall i :: 0 <= i < |ss| ==> Calls(ScaleAll(ss, factor), e, density)[i] == Times(factor, Calls(ss, e, density)[i])
  {
    forall i | 0 <= i < |ss|
      ensures Calls(ScaleAll(ss, factor), e, density)[i] == Times(factor, Calls(ss, e, density)[i])
    {
      ScaledCall(ss[i], factor, e, density);
    }
  }

  /** Scaling every spectrum scales their summed return value. */
  lemma CallAllScales(ss: seq<Spectrum>, factor: real, e: real, density: Density)
    ensures CallAll(ScaleAll(ss, factor), e, density) == Times(factor, CallAll(ss, e, density))
  {
    CallsScale(ss, factor, e, density);
    SumScales(Calls(ss, e, density), Calls(ScaleAll(ss, factor), e, density), factor);
    CallAllIsSum(ss, e, density);
    CallAllIsSum(ScaleAll(ss, factor), e, density);
  }

  /** What the group of each listed type returns at `e`. */
  function GroupCalls(order: seq<Option<int>>, groups: map<Option<int>, seq<Spectrum>>, e: real, density: Density): (r: seq<real>)
    ensures |r| == |order|
  {
    seq(|order|, i requires 0 <= i < |order| => CallAll(Get(groups, order[i]), e, density))
  }

  lemma {:induction false} CallGroupsIsSum(order: seq<Option<int>>, groups: map<Option<int>, seq<Spectrum>>, e: real, density: Density)
    ensures CallGroups(order, groups, e, density) == Total(GroupCalls(order, groups, e, density))
  {
    if |order| > 0 {
      CallGroupsIsSum(order[..|order| - 1], groups, e, density);
      assert GroupCalls(order[..|order| - 1], groups, e, density) == GroupCalls(order, groups, e, density)[..|order| - 1];
    }
  }

  /** Scaling a collection scales what one of its groups returns. */
  lemma GroupScales(c: Collection, factor: real, pt: Option<int>, e: real, density: Density)
    ensures CallAll(Get(CollectionScale(c, factor).groups, pt), e, density) == Times(factor, CallAll(Get(c.groups, pt), e, density))
  {
    CallAllScales(Get(c.groups, pt), factor, e, density);
  }

  /** Scaling a collection scales what each listed group returns. */
  lemma GroupCallsScale(order: seq<Option<int>>, c: Collection, factor: real, e: real, density: Density)
    ensures forall i :: 0 <= i < |order| ==>
      GroupCalls(order, CollectionScale(c, factor).groups, e, density)[i] == Times(factor, GroupCalls(order, c.groups, e, density)[i])
  {
    forall i | 0 <= i < |order|
      ensures GroupCalls(order, CollectionScale(c, factor).groups, e, density)[i] == Times(factor, GroupCalls(order, c.groups, e, density)[i])
    {
      GroupScales(c, factor, order[i], e, density);
    }
  }

  lemma CallGroupsScale(order: seq<Option<int>>, c: Collection, factor: real, e: real, density: Density)
    ensures CallGroups(order, CollectionScale(c, factor).groups, e, density) == Times(factor, CallGroups(order, c.groups, e, density))
  {
    GroupCallsScale(order, c, factor, e, density);
    SumScales(GroupCalls(order, c.groups, e, density), GroupCalls(order, CollectionScale(c, factor).groups, e, density), factor);
    CallGroupsIsSum(order, c.groups, e, density);
    CallGroupsIsSum(order, CollectionScale(c, factor).groups, e, density);
  }

  /** A scaled collection returns the scaled value, for every particle type
      and for all of them together. */
  lemma CollectionScaleLinear(c: Collection, factor: real, e: real, pt: Option<int>, density: Density)
    ensures CollectionCall(CollectionScale(c, factor), e, pt, density) == Times(factor, CollectionCall(c, e, pt, density))
  {
    if pt.None? {
      CallGroupsScale(c.order, c, factor, e, density);
    } else {
      GroupScales(c, factor, pt, e, density);
    }
  }

  /** The scan of the `for ... else` loop of collection `__iadd__`, from
      position `k`: the first member compatible with `other`, none, or the
      error of the first `is_compatible` that raises. */
  function FirstCompatible(ss: seq<Spectrum>, other: Spectrum, k: nat): (r: Result<Option<nat>, Error>)
    requires k <= |ss|
    ensures r.Success? && r.value.Some? ==>
      && k <= r.value.value < |ss| && Compatible(ss[r.value.value], other)
      && forall i :: k <= i < r.value.value ==> IsCompatible(ss[i], other) == Success(false)
    ensures r == Success(None) ==> forall i :: k <= i < |ss| ==> IsCompatible(ss[i], other) == Success(false)
    ensures r.Failure? ==>
      && r.error == NotImplementedError
      && exists i :: k <= i < |ss| && ss[i].shape.kind.Hoerandel?
    decreases |ss| - k
  {
    if k == |ss| then Success(None)
    else
      var compatible :- IsCompatible(ss[k], other);
      if compatible then Success(Some(k)) else FirstCompatible(ss, other, k + 1)
  }

  /** Total event count of a list of spectra. */
  function Events(ss: seq<Spectrum>): real {
    if |ss| == 0 then 0.0 else Events(ss[..|ss| - 1]) + ss[|ss| - 1].nevents
  }

  lemma {:induction false} EventsUpdate(ss: seq<Spectrum>, k: nat, s: Spectrum)
    requires k < |ss|
    ensures Events(ss[k := s]) == Events(ss) - ss[k].nevents + s.nevents
  {
    var n := |ss|;
    if k < n - 1 {
      assert ss[k := s][..n - 1] == ss[..n - 1][k := s];
      EventsUpdate(ss[..n - 1], k, s);
    } else {
      assert ss[k := s][..n - 1] == ss[..n - 1];
    }
  }

  lemma {:induction false} CallAllUpdate(ss: seq<Spectrum>, k: nat, s: Spectrum, e: real, density: Density)
    requires k < |ss|
    ensures CallAll(ss[k := s], e, density) == CallAll(ss, e, density) - Call(ss[k], e, None, density) + Call(s, e, None, density)
  {
    var n := |ss|;
    if k < n - 1 {
      assert ss[k := s][..n - 1] == ss[..n - 1][k := s];
      CallAllUpdate(ss[..n - 1], k, s, e, density);
    } else {
      assert ss[k := s][..n - 1] == ss[..n - 1];
    }
  }

  /** Collection `__iadd__` of one spectrum: it is pooled into the first
      compatible spectrum of its particle type, or appended to that type's
      list when there is none. */
  function IaddSpectrum(c: Collection, other: Spectrum): (r: Result<Collection, Error>)
    requires Valid(c)
    ensures r.Success? ==> Valid(r.value)
    ensures r.Success? ==> forall pt :: pt != other.shape.particleType ==> Get(r.value.groups, pt) == Get(c.groups, pt)
    ensures r.Failure? ==> r.error == NotImplementedError
    ensures (forall s :: s in Get(c.groups, other.shape.particleType) ==> s.shape.kind.PowerLaw?) ==> r.Success?
  {
    var pt := other.shape.particleType;
    var members := Get(c.groups, pt);
    var found :- FirstCompatible(members, other, 0);
    match found
    case None => Success(Insert(c, other))
    case Some(k) =>
      Success(c.(groups := c.groups[pt := members[k := Iadd(members[k], other).value]]))
  }

  /** The list of the added spectrum's type after a successful `+=`: the
      first compatible member pooled with it, or the old list with it
      appended; either way that type's event count grows by exactly the
      added events. */
  lemma {:induction false} IaddSpectrumMerges(c: Collection, other: Spectrum)
    requires Valid(c) && IaddSpectrum(c, other).Success?
    ensures var pt, ss := other.shape.particleType, Get(c.groups, other.shape.particleType);
      var after := Get(IaddSpectrum(c, other).value.groups, pt);
      && (FirstCompatible(ss, other, 0) == Success(None) ==> after == ss + [other])
      && (forall k :: FirstCompatible(ss, other, 0) == Success(Some(k)) ==>
            after == ss[k := ss[k].(nevents := ss[k].nevents + other.nevents)])
      && Events(after) == Events(ss) + other.nevents
  {
    var pt, ss := other.shape.particleType, Get(c.groups, other.shape.particleType);
    var found := FirstCompatible(ss, other, 0);
    if found.value.None? {
      assert (ss + [other])[..|ss|] == ss;
    } else {
      var k := found.value.value;
      EventsUpdate(ss, k, ss[k].(nevents := ss[k].nevents + other.nevents));
    }
  }

  /** Adding a spectrum to a collection adds what it returns to the
      collection's sum. */
  lemma IaddSpectrumAddsCall(c: Collection, other: Spectrum, e: real, density: Density)
    requires Valid(c) && IaddSpectrum(c, other).Success?
    ensures CollectionCall(IaddSpectrum(c, other).value, e, None, density)
      == CollectionCall(c, e, None, density) + Call(other, e, None, density)
  {
    var pt, ss := other.shape.particleType, Get(c.groups, other.shape.particleType);
    var found := FirstCompatible(ss, other, 0);
    if found.value.None? {
      InsertAddsCall(c, other, e, density);
    } else {
      MergeAddsCall(c, other, found.value.value, e, density);
    }
  }

  /** Pooling `other` into the compatible member `k` of its type's list adds
      what `other` returns to the collection's sum. */
  lemma MergeAddsCall(c: Collection, other: Spectrum, k: nat, e: real, density: Density)
    requires Valid(c) && k < |Get(c.groups, other.shape.particleType)|
    requires Compatible(Get(c.groups, other.shape.particleType)[k], other)
    ensures var pt, ss := other.shape.particleType, Get(c.groups, other.shape.particleType);
      CollectionCall(c.(groups := c.groups[pt := ss[k := Iadd(ss[k], other).value]]), e, None, density)
      == CollectionCall(c, e, None, density) + Call(other, e, None, density)
  {
    var pt, ss := other.shape.particleType, Get(c.groups, other.shape.particleType);
    IaddAddsCalls(ss[k], other, e, None, density);
    CallAllUpdate(ss, k, Iadd(ss[k], other).value, e, density);
    CallGroupsUpdate(c.order, c.groups, pt, ss[k := Iadd(ss[k], other).value], e, density);
  }

  /** The spectra of a collection in iteration order. */
  function Members(order: seq<Option<int>>, groups: map<Option<int>, seq<Spectrum>>): seq<Spectrum> {
    if |order| == 0 then [] else Members(order[..|order| - 1], groups) + Get(groups, order[|order| - 1])
  }

  /** Adds the spectra one after another, stopping at the first error. */
  function IaddAll(c: Collection, ss: seq<Spectrum>): (r: Result<Collection, Error>)
    requires Valid(c)
    ensures r.Success? ==> Valid(r.value)
    decreases |ss|
  {
    if |ss| == 0 then Success(c)
    else
      var c1 :- IaddSpectrum(c, ss[0]);
      IaddAll(c1, ss[1..])
  }

  /** Collection `__iadd__` of another collection: each of its spectra is
      added in turn, type by type. */
  function IaddCollection(c: Collection, other: Collection): (r: Result<Collection, Error>)
    requires Valid(c) && Valid(other)
    ensures r.Success? ==> Valid(r.value)
  {
    IaddAll(c, Members(other.order, other.groups))
  }

  lemma {:induction false} CallAllPrepend(s: Spectrum, ss: seq<Spectrum>, e: real, density: Density)
    ensures CallAll([s] + ss, e, density) == Call(s, e, None, density) + CallAll(ss, e, density)
  {
    if |ss| > 0 {
      var n := |ss|;
      assert ([s] + ss)[..n] == [s] + ss[..n - 1];
      CallAllPrepend(s, ss[..n - 1], e, density);
    }
  }

  lemma {:induction false} CallAllConcat(a: seq<Spectrum>, b: seq<Spectrum>, e: real, density: Density)
    ensures CallAll(a + b, e, density) == CallAll(a, e, density) + CallAll(b, e, density)
  {
    if |b| > 0 {
      var n := |b|;
      assert (a + b)[..|a| + n - 1] == a + b[..n - 1];
      CallAllConcat(a, b[..n - 1], e, density);
    } else {
      assert a + b == a;
    }
  }

  lemma {:induction false} IaddAllAddsCall(c: Collection, ss: seq<Spectrum>, e: real, density: Density)
    requires Valid(c) && IaddAll(c, ss).Success?
    ensures CollectionCall(IaddAll(c, ss).value, e, None, density) == CollectionCall(c, e, None, density) + CallAll(ss, e, density)
    decreases |ss|
  {
    if |ss| > 0 {
      var c1 := IaddSpectrum(c, ss[0]).value;
      IaddSpectrumAddsCall(c, ss[0], e, density);
      IaddAllAddsCall(c1, ss[1..], e, density);
      CallAllPrepend(ss[0], ss[1..], e, density);
      assert [ss[0]] + ss[1..] == ss;
    }
  }

  lemma {:induction false} MembersCall(order: seq<Option<int>>, groups: map<Option<int>, seq<Spectrum>>, e: real, density: Density)
    ensures CallAll(Members(order, groups), e, density) == CallGroups(order, groups, e, density)
  {
    if |order| > 0 {
      var n := |order|;
      MembersCall(order[..n - 1], groups, e, density);
      CallAllConcat(Members(order[..n - 1], groups), Get(groups, order[n - 1]), e, density);
    }
  }

  /** Merging two collections adds what they return. */
  lemma IaddCollectionAddsCall(c: Collection, other: Collection, e: real, density: Density)
    requires Valid(c) && Valid(other) && IaddCollection(c, other).Success?
    ensures CollectionCall(IaddCollection(c, other).value, e, None, density)
      == CollectionCall(c, e, None, density) + CollectionCall(other, e, None, density)
  {
    IaddAllAddsCall(c, Members(other.order, other.groups), e, density);
    MembersCall(other.order, other.groups, e, density);
  }
}
