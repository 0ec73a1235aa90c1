/** Shared vocabulary of the store model: optional values, the failures the
    services raise, and Kotlin's `Int` limits where the model needs them. */
module Common {

  /** A Kotlin nullable value. */
  datatype Option<+T> = None | Some(value: T) {
    function GetOr(default: T): T {
      match this
      case Some(v) => v
      case None => default
    }
  }

  /** The failures the services raise: an unknown product id (`error(...)`),
      a non-positive or out-of-range argument (`require`), and a quantity
      larger than the stock on hand (also a `require`, with its own message). */
  datatype Error = NotFound | InvalidArgument | InsufficientStock

  /** The outcome of a call that may throw one of the errors above. */
  datatype Result<+T> = Ok(value: T) | Err(error: Error)

  const IntMax: int := 0x7fff_ffff
  const IntMin: int := -0x8000_0000

  function Max(a: int, b: int): int {
    if a < b then b else a
  }

  function Min(a: int, b: int): int {
    if a < b then a else b
  }

  function MaxReal(a: real, b: real): real {
    if a < b then b else a
  }

  /** Kotlin's `Double.toInt()` on a finite value: truncation toward zero,
      saturating at the bounds of `Int`. */
  function ToInt(x: real): (r: int)
    ensures IntMin <= r <= IntMax
    ensures 0.0 <= x <= IntMax as real ==> r as real <= x < r as real + 1.0
    ensures IntMin as real <= x <= 0.0 ==> r as real - 1.0 < x <= r as real
    ensures x >= IntMax as real ==> r == IntMax
    ensures x <= IntMin as real ==> r == IntMin
  {
    if x >= 0.0 then
      (if x >= IntMax as real then IntMax else x.Floor)
    else
      (if x <= IntMin as real then IntMin else -((-x).Floor))
  }

  /** Truncation to `Int` is monotone. */
  lemma ToIntMonotone(x: real, y: real)
    requires x <= y
    ensures ToInt(x) <= ToInt(y)
  {
  }

  lemma MulNonNegative(a: real, b: real)
    requires a >= 0.0 && b >= 0.0
    ensures a * b >= 0.0
  {
  }

  lemma MulNonNegativeInt(a: int, b: int)
    requires a >= 0 && b >= 0
    ensures a * b >= 0
  {
  }

  /** Index of the first element of `xs` satisfying `p`, or `|xs|`
      (`firstOrNull`, `indexOfFirst`). */
  function FirstIndex<T>(xs: seq<T>, p: T -> bool): (k: nat)
    ensures k <= |xs|
    ensures k < |xs| ==> p(xs[k])
    ensures forall i | 0 <= i < k :: !p(xs[i])
  {
    if |xs| == 0 then 0
    else if p(xs[0]) then 0
    else 1 + FirstIndex(xs[1..], p)
  }
}
