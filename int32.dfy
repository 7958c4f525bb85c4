/** The C# `int` arithmetic the loader relies on: 32-bit wrap-around,
    division truncating toward zero and the `(int)(double)` cast. */
module Int32 {

  const MIN: int := -0x8000_0000
  const MAX: int := 0x7FFF_FFFF
  const MODULUS: int := 0x1_0000_0000

  predicate InRange(x: int) { MIN <= x <= MAX }

  /** Two's-complement wrap-around of an unchecked C# `int` operation:
      whole multiples of 2^32 are taken off or added until the value is
      in range. */
  function Wrap(x: int): (r: int)
    ensures InRange(r)
    ensures InRange(x) ==> r == x
    decreases if x > MAX then x - MAX else if x < MIN then MIN - x else 0
  {
    if x > MAX then Wrap(x - MODULUS)
    else if x < MIN then Wrap(x + MODULUS)
    else x
  }

  /** Close to the range, wrap-around takes off at most one modulus. */
  lemma WrapOnce(x: int)
    requires MIN <= x <= MAX + MODULUS
    ensures Wrap(x) == if x > MAX then x - MODULUS else x
  {
  }

  /** Two unchecked additions of small non-negative amounts wrap like one. */
  lemma WrapAdd(s: int, k: int, d: int)
    requires InRange(s) && 0 <= k && 0 <= d && k + d <= 0x1000
    ensures Wrap(Wrap(s + k) + d) == Wrap(s + k + d)
  {
    WrapOnce(s + k);
    WrapOnce(s + k + d);
    WrapOnce(Wrap(s + k) + d);
  }

  /** C# integer division: the quotient is truncated toward zero
      (Dafny's own `/` is Euclidean). */
  function Div(a: int, b: int): (q: int)
    requires b > 0
    ensures a >= 0 ==> q == a / b
    ensures a < 0 ==> q == -((-a) / b)
  {
    if a >= 0 then a / b else -((-a) / b)
  }

  /** Truncation of a real toward zero. */
  function Truncate(x: real): (r: int)
    ensures x >= 0.0 ==> r as real <= x < r as real + 1.0
    ensures x < 0.0 ==> r as real - 1.0 < x <= r as real
  {
    if x >= 0.0 then x.Floor else -((-x).Floor)
  }

  /** The `(int)(double)` cast: truncation toward zero; a value outside the
      `int` range gives `int.MinValue`, as the x86 conversion does. */
  function DoubleToInt(x: real): (r: int)
    ensures InRange(r)
    ensures InRange(Truncate(x)) ==> r == Truncate(x)
  {
    var t := Truncate(x);
    if InRange(t) then t else MIN
  }

  function Min(a: int, b: int): int { if a <= b then a else b }
  function Max(a: int, b: int): int { if a >= b then a else b }

  /** `Mathf.Clamp` on ints. */
  function Clamp(x: int, lo: int, hi: int): (r: int)
    requires lo <= hi
    ensures lo <= r <= hi
    ensures lo <= x <= hi ==> r == x
    ensures x < lo ==> r == lo
    ensures x > hi ==> r == hi
  {
    if x < lo then lo else if x > hi then hi else x
  }
}
