/** JavaScript numbers and the loosely typed scalar values found in the tutor
    records returned by the tutor-listing service. Rounding and overflow of
    IEEE-754 doubles are not modelled: a finite number is an exact real. */
module JsNumber {

  /** A JavaScript number. */
  datatype Num = Finite(v: real) | NaN | PosInf | NegInf

  /** A scalar field of a raw API record, as JavaScript sees it. */
  datatype JsValue = Undefined | Null | Bool(b: bool) | Number(n: Num) | Text(s: string)

  /** JavaScript truthiness of a number: every number except 0 and NaN. */
  predicate NumTruthy(n: Num) {
    n != NaN && n != Finite(0.0)
  }

  /** JavaScript truthiness of a scalar. */
  predicate Truthy(x: JsValue) {
    match x
    case Undefined => false
    case Null => false
    case Bool(b) => b
    case Number(n) => NumTruthy(n)
    case Text(s) => s != ""
  }

  /** `n || d` on numbers. */
  function NumOr(n: Num, d: Num): Num {
    if NumTruthy(n) then n else d
  }

  /** `x || d` on scalars. */
  function ValueOr(x: JsValue, d: JsValue): JsValue {
    if Truthy(x) then x else d
  }

  /** `Number(x)`. The conversion of a string (trimming, decimal, hex and
      exponent syntax, "Infinity") is the parameter `numberOfText`. */
  function ToNumber(x: JsValue, numberOfText: string -> Num): Num {
    match x
    case Undefined => NaN
    case Null => Finite(0.0)
    case Bool(b) => if b then Finite(1.0) else Finite(0.0)
    case Number(n) => n
    case Text(s) => numberOfText(s)
  }

  /** IEEE-754 subtraction `a - b`. */
  function Sub(a: Num, b: Num): Num {
    match (a, b)
    case (NaN, _) => NaN
    case (_, NaN) => NaN
    case (Finite(x), Finite(y)) => Finite(x - y)
    case (PosInf, PosInf) => NaN
    case (NegInf, NegInf) => NaN
    case (PosInf, _) => PosInf
    case (NegInf, _) => NegInf
    case (Finite(_), PosInf) => NegInf
    case (Finite(_), NegInf) => PosInf
  }

  /** IEEE-754 addition `a + b`. */
  function Add(a: Num, b: Num): Num {
    match (a, b)
    case (NaN, _) => NaN
    case (_, NaN) => NaN
    case (Finite(x), Finite(y)) => Finite(x + y)
    case (PosInf, NegInf) => NaN
    case (NegInf, PosInf) => NaN
    case (PosInf, _) => PosInf
    case (_, PosInf) => PosInf
    case (NegInf, _) => NegInf
    case (_, NegInf) => NegInf
  }

  /** `a ** 2`. */
  function Square(a: Num): Num {
    match a
    case Finite(x) => Finite(x * x)
    case NaN => NaN
    case _ => PosInf
  }

  /** A number that is `> 0` (so a sort comparator returning it moves the
      first argument after the second). */
  predicate Positive(n: Num) {
    (n.Finite? && n.v > 0.0) || n == PosInf
  }

  /** A value a planar distance (or its square) can take: a non-negative
      real, or +Infinity when a coordinate is infinite. */
  predicate IsDistance(n: Num) {
    (n.Finite? && n.v >= 0.0) || n == PosInf
  }

  /** The order of the extended non-negative reals. */
  predicate DistLe(a: Num, b: Num) {
    b == PosInf || (a.Finite? && b.Finite? && a.v <= b.v)
  }
}
