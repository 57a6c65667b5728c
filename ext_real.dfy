/** The bounding-box coordinates are doubles that may be -INFINITY or
    +INFINITY. They are modelled as extended reals; NaN coordinates and
    rounding are not part of this model. */
module ExtendedReal {

  datatype ExtReal = NegInf | Fin(r: real) | PosInf

  /** `a <= b` on doubles that are not NaN. */
  predicate Le(a: ExtReal, b: ExtReal)
  {
    a == NegInf || b == PosInf || (a.Fin? && b.Fin? && a.r <= b.r)
  }

  /** `a < b` on doubles that are not NaN. */
  predicate Lt(a: ExtReal, b: ExtReal)
  {
    !Le(b, a)
  }

  /** The result of a double subtraction: an extended real, or NaN for
      `inf - inf` of equal signs. */
  datatype Diff = Defined(value: ExtReal) | Undefined

  /** `a - b` in double arithmetic, without rounding. */
  function Sub(a: ExtReal, b: ExtReal): Diff
  {
    match (a, b)
    case (Fin(x), Fin(y)) => Defined(Fin(x - y))
    case (PosInf, PosInf) => Undefined
    case (NegInf, NegInf) => Undefined
    case (PosInf, _) => Defined(PosInf)
    case (_, NegInf) => Defined(PosInf)
    case (NegInf, _) => Defined(NegInf)
    case (_, PosInf) => Defined(NegInf)
  }

  /** A difference that is a number greater than zero. */
  predicate Positive(d: Diff)
  {
    d.Defined? && Lt(Fin(0.0), d.value)
  }

  /** A difference that is +INFINITY or NaN. */
  predicate Unbounded(d: Diff)
  {
    d == Undefined || d == Defined(PosInf)
  }

  /** `Le` is a total order, so `!(a >= b)` is `a < b`. */
  lemma LeTotalOrder(a: ExtReal, b: ExtReal, c: ExtReal)
    ensures Le(a, a)
    ensures Le(a, b) || Le(b, a)
    ensures Le(a, b) && Le(b, a) ==> a == b
    ensures Le(a, b) && Le(b, c) ==> Le(a, c)
  {
  }

  /** `hi - lo` is a positive number exactly when `lo < hi`. */
  lemma SubPositiveIffLt(lo: ExtReal, hi: ExtReal)
    ensures Positive(Sub(hi, lo)) <==> Lt(lo, hi)
  {
  }

  /** Over extended reals, `hi - lo` is +INFINITY or NaN exactly when `lo`
      is -INFINITY or `hi` is +INFINITY. */
  lemma SubUnboundedIff(lo: ExtReal, hi: ExtReal)
    ensures Unbounded(Sub(hi, lo)) <==> (lo == NegInf || hi == PosInf)
  {
  }
}
