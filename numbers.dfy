/** Exact numbers standing in for Python floats: the near-zero tolerance,
    absolute value, and reals extended with the two infinities. */
module Numbers {

  /** The tolerance of every near-zero guard in the engine. */
  const Tolerance: real := 1e-10

  function Abs(x: real): (r: real)
    ensures r >= 0.0
    ensures r == x || r == -x
  {
    if x < 0.0 then -x else x
  }

  /** A real number or one of the infinities that `float("inf")` and the
      arithmetic on it produce. */
  datatype ExtReal = Fin(r: real) | PosInf | NegInf

  function Neg(e: ExtReal): (r: ExtReal)
    ensures r.Fin? <==> e.Fin?
    ensures e.Fin? ==> r.r == -e.r
  {
    match e
    case Fin(x) => Fin(-x)
    case PosInf => NegInf
    case NegInf => PosInf
  }

  /** `e - x` for a finite `x`. */
  function SubReal(e: ExtReal, x: real): (r: ExtReal)
    ensures r.Fin? <==> e.Fin?
    ensures e.Fin? ==> r.r == e.r - x
    ensures !e.Fin? ==> r == e
  {
    match e
    case Fin(y) => Fin(y - x)
    case _ => e
  }

  /** `x - e` for a finite `x`. */
  function RealSub(x: real, e: ExtReal): (r: ExtReal)
    ensures r.Fin? <==> e.Fin?
    ensures e.Fin? ==> r.r == x - e.r
    ensures !e.Fin? ==> r == Neg(e)
  {
    match e
    case Fin(y) => Fin(x - y)
    case _ => Neg(e)
  }

  /** `c * e`; a zero factor is only defined against a finite value
      (`0 * inf` is NaN). */
  function Scale(c: real, e: ExtReal): (r: ExtReal)
    requires c != 0.0 || e.Fin?
    ensures r.Fin? <==> e.Fin?
    ensures e.Fin? ==> r.r == c * e.r
    ensures !e.Fin? && c > 0.0 ==> r == e
    ensures !e.Fin? && c < 0.0 ==> r == Neg(e)
  {
    match e
    case Fin(y) => Fin(c * y)
    case _ => if c > 0.0 then e else Neg(e)
  }

  /** `e / 2`. */
  function Half(e: ExtReal): (r: ExtReal)
    ensures r.Fin? <==> e.Fin?
    ensures e.Fin? ==> r.r + r.r == e.r
    ensures !e.Fin? ==> r == e
  {
    match e
    case Fin(y) => Fin(y / 2.0)
    case _ => e
  }

  /** Two values whose sum is not NaN. */
  predicate Summable(a: ExtReal, b: ExtReal) {
    !(a.PosInf? && b.NegInf?) && !(a.NegInf? && b.PosInf?)
  }

  /** `a + b`, defined when the sum is not `inf + -inf`. */
  function Add(a: ExtReal, b: ExtReal): (r: ExtReal)
    requires Summable(a, b)
    ensures r.Fin? <==> a.Fin? && b.Fin?
    ensures a.Fin? && b.Fin? ==> r.r == a.r + b.r
    ensures r.PosInf? <==> a.PosInf? || b.PosInf?
    ensures r.NegInf? <==> a.NegInf? || b.NegInf?
  {
    match (a, b)
    case (Fin(x), Fin(y)) => Fin(x + y)
    case (Fin(_), _) => b
    case (_, _) => a
  }
}
