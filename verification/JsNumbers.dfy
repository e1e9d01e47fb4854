/**
 Numbers as the option records carry them: finite reals, infinities and NaN. The
 store and the dispatcher clamp such a number before it reaches an SQL LIMIT or a
 comparison of attempts.
 */
module JsNumbers {

  datatype Number = NaN | Infinite(negative: bool) | Finite(value: real)

  /** Truncation toward zero. */
  function Trunc(value: real): (n: int)
    ensures value >= 0.0 ==> 0 <= n && n as real <= value < (n + 1) as real
    ensures value < 0.0 ==> n <= 0 && (n - 1) as real < value <= n as real
  {
    if value >= 0.0 then value.Floor else -((-value).Floor)
  }

  /** A finite limit is truncated and raised to one; any other limit is `fallback`. */
  function AtLeastOne(limit: Number, fallback: int): (n: int)
    ensures limit.Finite? ==> n >= 1
  {
    match limit
    case Finite(value) => if Trunc(value) < 1 then 1 else Trunc(value)
    case _ => fallback
  }

  function NormalizeSqlLimit(limit: Number): (n: int)
    ensures n >= 1
    ensures limit.Finite? && limit.value >= 1.0 ==> n as real <= limit.value < (n + 1) as real
    ensures !limit.Finite? || limit.value < 2.0 ==> n == 1
  {
    AtLeastOne(limit, 1)
  }
}
