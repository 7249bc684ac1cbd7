/**
 * The JavaScript numbers the windowing core actually uses: integer indices and the two
 * infinities that stand for "no observation yet" (`Number.POSITIVE_INFINITY` as the
 * minimum, `Number.NEGATIVE_INFINITY` as the maximum).
 */
module Extended {

  datatype Ext = NegInf | Fin(n: int) | PosInf

  /** `e + k` for a finite `k`: an infinity absorbs it. */
  function Plus(e: Ext, k: int): Ext
  {
    match e
    case Fin(x) => Fin(x + k)
    case _ => e
  }

  /** Shifting by `k` is undone by shifting back, and it keeps the order of any two values. */
  lemma PlusShift(a: Ext, b: Ext, k: int)
    ensures Plus(Plus(a, k), -k) == a
    ensures Less(a, b) <==> Less(Plus(a, k), Plus(b, k))
  {
  }

  /** `a < b` on the extended number line. */
  predicate Less(a: Ext, b: Ext)
  {
    match (a, b)
    case (NegInf, NegInf) => false
    case (NegInf, _) => true
    case (Fin(x), Fin(y)) => x < y
    case (Fin(_), PosInf) => true
    case _ => false
  }

  /** `Math.min(a, b)`. */
  function Min(a: Ext, b: Ext): (r: Ext)
    ensures r == a || r == b
    ensures !Less(a, r) && !Less(b, r)
  {
    if Less(b, a) then b else a
  }

  /** `Math.max(a, b)`. */
  function Max(a: Ext, b: Ext): (r: Ext)
    ensures r == a || r == b
    ensures !Less(r, a) && !Less(r, b)
  {
    if Less(a, b) then b else a
  }
}
