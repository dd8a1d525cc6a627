/**
 * Running minima and maxima as the source keeps them: an f64 that starts at the
 * sentinel `f64::MAX` (for a minimum) or `f64::MIN` (for a maximum) and is
 * replaced by the first coordinate compared with it.
 */
module Bounds {

  /** A running bound: still one of the two sentinels, or a coordinate already seen. */
  datatype Bound = Max | Min | At(value: real)

  /** `f64::MAX`, the largest finite double, `(2 - 2^-52) * 2^1023`; `f64::MIN` is its negation. */
  const F64_MAX: real := 179769313486231570814527423731704356798070567525844996598917476803157260780028538760589558632766878171540458953514382464234321326889464182768467546703537516986049910576551282076245490090389328944075868508455133942304583236903222948165808559332123348274797826204144723168738177180919299881250404026184124858368.0

  /** The double the source holds for a bound: the sentinel itself, or the coordinate. */
  function AsF64(b: Bound): real
  {
    match b
    case Max => F64_MAX
    case Min => -F64_MAX
    case At(v) => v
  }

  /** `p < b`, for a coordinate `p`: the source's `<` against the double it holds for `b`. */
  predicate Less(p: real, b: Bound)
    ensures -F64_MAX < p < F64_MAX ==> (Less(p, b) <==> p < AsF64(b))
  {
    match b
    case Max => true
    case Min => false
    case At(v) => p < v
  }

  /** `p > b`, for a coordinate `p`: the source's `>` against the double it holds for `b`. */
  predicate Greater(p: real, b: Bound)
    ensures -F64_MAX < p < F64_MAX ==> (Greater(p, b) <==> p > AsF64(b))
  {
    match b
    case Max => false
    case Min => true
    case At(v) => p > v
  }
}
