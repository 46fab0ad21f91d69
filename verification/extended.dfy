/** Doubles that are numbers: the reals extended with the two infinities.
    NaN is kept outside this type and written `None` where a value may be
    NaN, as in the geometry modules. */
module Extended {
  import opened Wrappers

  datatype Ext = NegInf | Fin(v: real) | PosInf

  /** `a <= b` on numbers (the comparison of doubles restricted to non-NaN
      values). */
  predicate Le(a: Ext, b: Ext) {
    a.NegInf? || b.PosInf? || (a.Fin? && b.Fin? && a.v <= b.v)
  }

  /** `a < b` on numbers. */
  predicate Lt(a: Ext, b: Ext) {
    !Le(b, a)
  }

  lemma LeIsTotalOrder()
    ensures forall a :: Le(a, a)
    ensures forall a, b :: Le(a, b) || Le(b, a)
    ensures forall a, b :: Le(a, b) && Le(b, a) ==> a == b
    ensures forall a, b, c :: Le(a, b) && Le(b, c) ==> Le(a, c)
  {
  }

  /** `std::isfinite`: neither NaN nor an infinity. */
  predicate IsFinite(x: Option<Ext>) {
    x.Some? && x.value.Fin?
  }
}
