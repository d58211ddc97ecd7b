/** Integer conversions of the Kotlin runtime that the core uses on numbers it
    reads as `Float`/`Double`; the model reads those numbers as exact reals. */
module Numbers {

  /** Kotlin `Float.toInt()` / `Double.toInt()`: truncation toward zero. */
  function TruncateToInt(x: real): (r: int)
    ensures x >= 0.0 ==> 0 <= r && r as real <= x < r as real + 1.0
    ensures x < 0.0 ==> r <= 0 && r as real - 1.0 < x <= r as real
  {
    if x >= 0.0 then x.Floor else -((-x).Floor)
  }

  /** Kotlin `Int` division by 2: the quotient truncated toward zero, so an
      odd negative dividend rounds up rather than down. */
  function TruncHalf(a: int): (q: int)
    ensures a >= 0 ==> 0 <= 2 * q <= a < 2 * q + 2
    ensures a < 0 ==> 2 * q - 2 < a <= 2 * q <= 0
  {
    if a >= 0 then a / 2 else -((-a) / 2)
  }

  /** Kotlin `roundToInt()` (`Math.round`): to the nearest integer, halves up. */
  function RoundHalfUp(x: real): (r: int)
    ensures r as real - 0.5 <= x < r as real + 0.5
  {
    (x + 0.5).Floor
  }

  /** Kotlin `coerceIn(lo..hi)`. */
  function CoerceIn(x: int, lo: int, hi: int): (r: int)
    requires lo <= hi
    ensures lo <= r <= hi
    ensures lo <= x <= hi ==> r == x
    ensures x < lo ==> r == lo
    ensures x > hi ==> r == hi
  {
    if x < lo then lo else if x > hi then hi else x
  }

  /** The sum of `f(0) + ... + f(n - 1)`; empty (0) when `n <= 0`, like
      Kotlin's `(0 until n).sumOf { f(it) }`. */
  function SumUntil(f: int -> int, n: int): int
    decreases if n < 0 then 0 else n
  {
    if n <= 0 then 0 else SumUntil(f, n - 1) + f(n - 1)
  }

  /** A sum of terms that are never negative only grows with its length. */
  lemma {:induction false} SumUntilBounds(f: int -> int, m: int, n: int)
    requires forall p :: 0 <= p < n ==> f(p) >= 0
    requires m <= n
    ensures 0 <= SumUntil(f, m) <= SumUntil(f, n)
    decreases if n < 0 then 0 else n
  {
    if n > 0 && m < n {
      SumUntilBounds(f, m, n - 1);
    } else if n > 0 {
      SumUntilBounds(f, m - 1, n - 1);
    }
  }
}
