/** Search values: the integers extended with the two infinities that the
    search uses as the initial running maximum/minimum and as the initial
    alpha/beta window. */
module Score {

  datatype Score = NegInf | Fin(n: int) | PosInf

  predicate Le(a: Score, b: Score)
  {
    match (a, b)
    case (NegInf, _) => true
    case (_, PosInf) => true
    case (Fin(x), Fin(y)) => x <= y
    case _ => false
  }

  predicate Lt(a: Score, b: Score)
  {
    Le(a, b) && a != b
  }

  function Max(a: Score, b: Score): (r: Score)
    ensures Le(a, r) && Le(b, r)
    ensures r == a || r == b
  {
    if Le(a, b) then b else a
  }

  function Min(a: Score, b: Score): (r: Score)
    ensures Le(r, a) && Le(r, b)
    ensures r == a || r == b
  {
    if Le(a, b) then a else b
  }

  /** Python's unary minus on an int or on a float infinity. */
  function Neg(a: Score): (r: Score)
    ensures a.Fin? <==> r.Fin?
  {
    match a
    case NegInf => PosInf
    case PosInf => NegInf
    case Fin(x) => Fin(-x)
  }

  /** `a` clamped into the window [lo, hi]. */
  function Clamp(a: Score, lo: Score, hi: Score): Score
  {
    Min(Max(a, lo), hi)
  }

  lemma LeTotal(a: Score, b: Score)
    ensures Le(a, b) || Le(b, a)
  {
  }

  lemma LeTrans(a: Score, b: Score, c: Score)
    requires Le(a, b) && Le(b, c)
    ensures Le(a, c)
  {
  }

  lemma LeAntisym(a: Score, b: Score)
    requires Le(a, b) && Le(b, a)
    ensures a == b
  {
  }

  lemma NegInvolutive(a: Score)
    ensures Neg(Neg(a)) == a
  {
  }

  /** Negation reverses the order. */
  lemma NegAntitone(a: Score, b: Score)
    ensures Le(a, b) <==> Le(Neg(b), Neg(a))
  {
  }

  /** The full window leaves every value unchanged. */
  lemma ClampFull(a: Score)
    ensures Clamp(a, NegInf, PosInf) == a
  {
  }

  // Window arithmetic used by the alpha-beta proof.

  /** One step of the maximizing loop keeps pruned and exhaustive values
      equal inside the original window. */
  lemma MaxStep(alpha0: Score, alpha: Score, beta: Score, best: Score, acc: Score, v: Score, w: Score)
    requires alpha == Max(alpha0, best)
    requires Lt(alpha, beta)
    requires Clamp(best, alpha0, beta) == Clamp(acc, alpha0, beta)
    requires Clamp(v, alpha, beta) == Clamp(w, alpha, beta)
    ensures Max(alpha, v) == Max(alpha0, Max(best, v))
    ensures Clamp(Max(best, v), alpha0, beta) == Clamp(Max(acc, w), alpha0, beta)
  {
  }

  /** One step of the minimizing loop, symmetric to MaxStep. */
  lemma MinStep(alpha: Score, beta0: Score, beta: Score, best: Score, acc: Score, v: Score, w: Score)
    requires beta == Min(beta0, best)
    requires Lt(alpha, beta)
    requires Clamp(best, alpha, beta0) == Clamp(acc, alpha, beta0)
    requires Clamp(v, alpha, beta) == Clamp(w, alpha, beta)
    ensures Min(beta, v) == Min(beta0, Min(best, v))
    ensures Clamp(Min(best, v), alpha, beta0) == Clamp(Min(acc, w), alpha, beta0)
  {
  }

  /** A cut-off at the top of the window: whatever the unexplored moves
      would add, the clamped value is already `hi`. */
  lemma ClampAbove(lo: Score, hi: Score, x: Score, y: Score, z: Score)
    requires Le(lo, hi)
    requires Le(hi, Max(lo, x))
    requires Clamp(x, lo, hi) == Clamp(y, lo, hi)
    requires Le(y, z)
    ensures Clamp(x, lo, hi) == Clamp(z, lo, hi)
  {
  }

  /** A cut-off at the bottom of the window. */
  lemma ClampBelow(lo: Score, hi: Score, x: Score, y: Score, z: Score)
    requires Le(lo, hi)
    requires Le(Min(hi, x), lo)
    requires Clamp(x, lo, hi) == Clamp(y, lo, hi)
    requires Le(z, y)
    ensures Clamp(x, lo, hi) == Clamp(z, lo, hi)
  {
  }
}
