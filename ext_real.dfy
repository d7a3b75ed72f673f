/**
 * Doubles of the C code that may hold +INFINITY: the "unset" entries of the
 * configuration table, the total time t_all, the running minimum h_S_max and
 * the current time time_c.  NaN is not modelled: over `real` every value is
 * finite, so the C code's isfinite/isnan tests have no counterpart.
 */
module ExtReal {

  datatype Ext = Fin(v: real) | PosInf

  /** C's fmin restricted to finite values and +INFINITY. */
  function Min(a: Ext, b: Ext): (r: Ext)
    ensures r == a || r == b
    ensures LessEq(r, a) && LessEq(r, b)
  {
    match (a, b)
    case (PosInf, _) => b
    case (_, PosInf) => a
    case (Fin(x), Fin(y)) => if x <= y then a else b
  }

  /** a <= b in the extended order. */
  predicate LessEq(a: Ext, b: Ext)
  {
    b.PosInf? || (a.Fin? && a.v <= b.v)
  }

  /** The C comparison a > b (false for INFINITY > INFINITY). */
  predicate Greater(a: Ext, b: Ext)
  {
    (a.PosInf? && b.Fin?) || (a.Fin? && b.Fin? && a.v > b.v)
  }

  /** a + r for a finite r. */
  function AddReal(a: Ext, r: real): Ext
  {
    match a
    case PosInf => PosInf
    case Fin(x) => Fin(x + r)
  }

  /** a - r for a finite r. */
  function SubReal(a: Ext, r: real): Ext
  {
    AddReal(a, -r)
  }

  /** The C cast (int)x of a finite double: truncation toward zero. */
  function Trunc(x: real): (n: int)
    ensures 0.0 <= x ==> n as real <= x < n as real + 1.0
    ensures x < 0.0 ==> n as real - 1.0 < x <= n as real
  {
    if x >= 0.0 then x.Floor else -((-x).Floor)
  }
}
