/** The part of JavaScript number semantics the classifiers can observe.
    Landmark coordinates are finite, so a value leaves the reals only through
    a division by zero; rounding is not modelled. */
module JsNumber {

  /** A double as far as the classifiers can tell: a finite value, one of the
      two infinities, or NaN. */
  datatype Num = Finite(v: real) | PosInf | NegInf | NaN

  /** `a / b` on two finite doubles. */
  function Divide(a: real, b: real): (q: Num)
    ensures q.Finite? <==> b != 0.0
    ensures q.NaN? <==> a == 0.0 && b == 0.0
    ensures q.PosInf? <==> a > 0.0 && b == 0.0
    ensures q.NegInf? <==> a < 0.0 && b == 0.0
  {
    if b != 0.0 then Finite(a / b)
    else if a > 0.0 then PosInf
    else if a < 0.0 then NegInf
    else NaN
  }

  /** `n > c` for a finite constant `c`; NaN compares false. */
  predicate Gt(n: Num, c: real) {
    match n
    case Finite(v) => v > c
    case PosInf => true
    case NegInf => false
    case NaN => false
  }

  /** `n < c` for a finite constant `c`; NaN compares false. */
  predicate Lt(n: Num, c: real) {
    match n
    case Finite(v) => v < c
    case PosInf => false
    case NegInf => true
    case NaN => false
  }

  /** Division-free reading of `a / b > c` for a non-negative divisor,
      the infinite and NaN quotients included. */
  lemma DivideAbove(a: real, b: real, c: real)
    requires 0.0 <= b
    ensures Gt(Divide(a, b), c) <==> a > c * b
  {
    if b > 0.0 {
      var q := a / b;
      assert q * b == a;
      if q > c {
        assert q * b > c * b;
      } else {
        assert q * b <= c * b;
      }
    }
  }

  /** Division-free reading of `a / b < c` for a non-negative divisor,
      the infinite and NaN quotients included. */
  lemma DivideBelow(a: real, b: real, c: real)
    requires 0.0 <= b
    ensures Lt(Divide(a, b), c) <==> a < c * b
  {
    if b > 0.0 {
      var q := a / b;
      assert q * b == a;
      if q < c {
        assert q * b < c * b;
      } else {
        assert q * b >= c * b;
      }
    }
  }

  /** The order `a <= b` on values that are not NaN. */
  predicate AtMost(a: Num, b: Num)
    requires !a.NaN? && !b.NaN?
  {
    match (a, b)
    case (NegInf, _) => true
    case (_, PosInf) => true
    case (Finite(x), Finite(y)) => x <= y
    case _ => false
  }

  /** `Math.min(a, b)`: NaN when either argument is NaN. */
  function Min(a: Num, b: Num): Num {
    if a.NaN? || b.NaN? then NaN
    else if AtMost(a, b) then a else b
  }

  /** `Math.max(a, b)`: NaN when either argument is NaN. */
  function Max(a: Num, b: Num): Num {
    if a.NaN? || b.NaN? then NaN
    else if AtMost(a, b) then b else a
  }

  /** `Math.max(0, Math.min(1, n))`, by cases: pulls every value except NaN
      into [0, 1]. */
  function ClampUnit(n: Num): (r: Num)
    ensures r.NaN? <==> n.NaN?
    ensures !n.NaN? ==> r.Finite? && 0.0 <= r.v <= 1.0
    ensures n.Finite? && 0.0 <= n.v <= 1.0 ==> r == n
    ensures n.PosInf? || (n.Finite? && n.v >= 1.0) ==> r == Finite(1.0)
    ensures n.NegInf? || (n.Finite? && n.v <= 0.0) ==> r == Finite(0.0)
  {
    match n
    case NaN => NaN
    case PosInf => Finite(1.0)
    case NegInf => Finite(0.0)
    case Finite(v) => Finite(if v < 0.0 then 0.0 else if v > 1.0 then 1.0 else v)
  }

  /** The case analysis of ClampUnit is `Math.max(0, Math.min(1, n))`. */
  lemma ClampIsMaxOfMin(n: Num)
    ensures ClampUnit(n) == Max(Finite(0.0), Min(Finite(1.0), n))
  {
  }

  /** Clamping to [0, 1] does not change whether a value exceeds a
      threshold that lies in [0, 1). */
  lemma ClampAbove(n: Num, k: real)
    requires 0.0 <= k < 1.0
    ensures Gt(ClampUnit(n), k) <==> Gt(n, k)
  {
  }

  /** `Math.abs(x)`. */
  function Abs(x: real): (r: real)
    ensures 0.0 <= r
    ensures r == x || r == -x
  {
    if x < 0.0 then -x else x
  }

  /** `Math.sign(x)` on a finite value; `-0` and `0` are not told apart
      because the source only compares signs with `!==`. */
  function Sign(x: real): (s: int)
    ensures s == -1 || s == 0 || s == 1
    ensures s * s == 1 <==> x != 0.0
    ensures s > 0 <==> x > 0.0
  {
    if x > 0.0 then 1 else if x < 0.0 then -1 else 0
  }
}
