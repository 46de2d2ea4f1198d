/** Values shared by every part of the model: an optional value and a
    price-like number that may be "not a number". */
module Base {

  /** A value that may be missing (a Python `None`, or an absent dictionary key). */
  datatype Option<+T> = None | Some(value: T) {
    function GetOr(default: T): T {
      match this
      case Some(v) => v
      case None => default
    }
  }

  /** A floating-point sample of a pandas series, with NaN made explicit.
      Prices and indicator values are exact reals here. */
  datatype Val = NaN | Num(r: real)

  /** `a - b` on floats: NaN as soon as either side is NaN. */
  function Sub(a: Val, b: Val): Val {
    if a.Num? && b.Num? then Num(a.r - b.r) else NaN
  }

  /** Float comparisons: every comparison that involves NaN is false. */
  predicate Less(a: Val, b: Val) { a.Num? && b.Num? && a.r < b.r }
  predicate AtMost(a: Val, b: Val) { a.Num? && b.Num? && a.r <= b.r }
}
