/** JavaScript numbers as far as the frontend's arithmetic needs them: finite values
    are exact reals, and division by zero yields an infinity or NaN as in IEEE 754.
    Signed zeros and rounding are not modelled. */
module JsNumber {

  datatype Num = NaN | PosInf | NegInf | Fin(v: real)

  /** `x / y` for finite operands. */
  function Divide(x: real, y: real): (r: Num)
    ensures y != 0.0 ==> r == Fin(x / y)
    ensures y == 0.0 ==> (r == NaN <==> x == 0.0) && (r == PosInf <==> x > 0.0) && (r == NegInf <==> x < 0.0)
  {
    if y != 0.0 then Fin(x / y)
    else if x > 0.0 then PosInf
    else if x < 0.0 then NegInf
    else NaN
  }

  /** `n * k` for a finite factor `k`. */
  function Times(n: Num, k: real): (r: Num)
    ensures n.Fin? ==> r == Fin(n.v * k)
    ensures n == NaN ==> r == NaN
  {
    match n
    case NaN => NaN
    case Fin(_) => Fin(n.v * k)
    case PosInf => if k > 0.0 then PosInf else if k < 0.0 then NegInf else NaN
    case NegInf => if k > 0.0 then NegInf else if k < 0.0 then PosInf else NaN
  }

  /** `-n`. */
  function Neg(n: Num): (r: Num)
    ensures n.Fin? <==> r.Fin?
    ensures n.Fin? ==> r.v == -n.v
    ensures (r == NaN <==> n == NaN) && (r == PosInf <==> n == NegInf) && (r == NegInf <==> n == PosInf)
  {
    match n
    case NaN => NaN
    case PosInf => NegInf
    case NegInf => PosInf
    case Fin(x) => Fin(-x)
  }

  /** `a + b`: NaN absorbs everything and opposite infinities cancel to NaN. */
  function Add(a: Num, b: Num): (r: Num)
    ensures a.Fin? && b.Fin? ==> r == Fin(a.v + b.v)
    ensures !a.Fin? || !b.Fin? ==> !r.Fin?
    ensures a == NaN || b == NaN ==> r == NaN
    ensures a.Fin? ==> (r == PosInf <==> b == PosInf) && (r == NegInf <==> b == NegInf)
    ensures b.Fin? ==> (r == PosInf <==> a == PosInf) && (r == NegInf <==> a == NegInf)
  {
    if a.Fin? && b.Fin? then Fin(a.v + b.v)
    else if a == NaN || b == NaN then NaN
    else if (a == PosInf && b == NegInf) || (a == NegInf && b == PosInf) then NaN
    else if a == PosInf || b == PosInf then PosInf
    else NegInf
  }

  /** `a - b`. */
  function Sub(a: Num, b: Num): (r: Num)
    ensures a.Fin? && b.Fin? ==> r == Fin(a.v - b.v)
    ensures !a.Fin? || !b.Fin? ==> !r.Fin?
    ensures a == NaN || b == NaN ==> r == NaN
    ensures b.Fin? ==> (r == PosInf <==> a == PosInf) && (r == NegInf <==> a == NegInf)
    ensures a.Fin? ==> (r == PosInf <==> b == NegInf) && (r == NegInf <==> b == PosInf)
  {
    Add(a, Neg(b))
  }

  /** `n / k` for a finite divisor `k`; a zero divisor is taken as +0. */
  function DivBy(n: Num, k: real): (r: Num)
    ensures n.Fin? ==> r == Divide(n.v, k)
    ensures n == NaN ==> r == NaN
    ensures !n.Fin? ==> !r.Fin?
    ensures k >= 0.0 ==> (n == PosInf ==> r == PosInf) && (n == NegInf ==> r == NegInf)
  {
    match n
    case Fin(x) => Divide(x, k)
    case NaN => NaN
    case PosInf => if k >= 0.0 then PosInf else NegInf
    case NegInf => if k >= 0.0 then NegInf else PosInf
  }

  /** `Math.min(a, b)`: NaN if either is NaN. */
  function MathMin(a: Num, b: Num): (r: Num)
    ensures a.Fin? && b.Fin? ==> r == Fin(Min(a.v, b.v))
    ensures a == NaN || b == NaN ==> r == NaN
    ensures a != NaN && b != NaN && (a == NegInf || b == NegInf) ==> r == NegInf
    ensures r == a || r == b || r == NaN
  {
    if a == NaN || b == NaN then NaN
    else if a == NegInf || b == NegInf then NegInf
    else if a == PosInf then b
    else if b == PosInf then a
    else Fin(Min(a.v, b.v))
  }

  function Max(a: real, b: real): real { if a >= b then a else b }

  function Min(a: real, b: real): real { if a <= b then a else b }
}
