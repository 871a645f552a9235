/** The parts of Rust's `i32` arithmetic that the geometry depends on. */
module Int32 {

  const MIN: int := -0x8000_0000
  const MAX: int := 0x7FFF_FFFF

  predicate InRange(x: int) {
    MIN <= x <= MAX
  }

  /** Rust's `/` on signed integers, which rounds toward zero
      (Dafny's `/` is Euclidean and rounds negative dividends down). */
  function Quot(a: int, d: int): (q: int)
    requires d > 0
    ensures a >= 0 ==> 0 <= q && 0 <= q * d <= a < q * d + d
    ensures a < 0 ==> q <= 0 && a <= q * d <= 0 && q * d < a + d
  {
    if a >= 0 then
      DivisionBounds(a, d);
      a / d
    else
      DivisionBounds(-a, d);
      -((-a) / d)
  }

  /** Euclidean division of a non-negative dividend, as a pair of bounds. */
  lemma DivisionBounds(a: int, d: int)
    requires a >= 0 && d > 0
    ensures 0 <= a / d && 0 <= (a / d) * d <= a < (a / d) * d + d
  {
    var q, r := a / d, a % d;
    assert a == q * d + r && 0 <= r < d;
    assert q >= 0;
  }

  /** Halving never grows the magnitude and keeps the sign. */
  lemma HalfBounds(a: int)
    ensures a >= 0 ==> 0 <= Quot(a, 2) && 2 * Quot(a, 2) <= a <= 2 * Quot(a, 2) + 1
    ensures a < 0 ==> Quot(a, 2) <= 0 && a <= 2 * Quot(a, 2)
  {
  }
}
