/**
 * Exact decimal arithmetic for points. The source works on JavaScript numbers
 * and rounds with `Math.round` and `Number.prototype.toFixed`; here amounts are
 * exact reals and both rounding rules are written out.
 */
module Money {

  /** `Math.round`: the nearest integer, halves rounded towards +infinity. */
  function RoundHalfUp(x: real): (n: int)
    ensures x - 0.5 < n as real <= x + 0.5
  {
    (x + 0.5).Floor
  }

  /**
   * The value shown by `x.toFixed(d)` where `scale` is 10^d: the nearest
   * multiple of 1/scale, with halves rounded away from zero.
   */
  function ToFixed(x: real, scale: real): (r: real)
    requires scale >= 1.0
    ensures x - 0.5 / scale <= r <= x + 0.5 / scale
    ensures x >= 0.0 ==> r >= 0.0
    ensures x <= 0.0 ==> r <= 0.0
  {
    if x < 0.0 then -(Units(-x, scale) as real / scale) else Units(x, scale) as real / scale
  }

  /** Number of 1/scale units in the rounded non-negative value x. */
  function Units(x: real, scale: real): (n: int)
    requires x >= 0.0 && scale >= 1.0
    ensures n >= 0
    ensures x - 0.5 / scale <= n as real / scale <= x + 0.5 / scale
  {
    var n := RoundHalfUp(x * scale);
    DivideBounds(x * scale - 0.5, n as real, x * scale + 0.5, scale);
    n
  }

  lemma DivideBounds(lo: real, v: real, hi: real, scale: real)
    requires scale >= 1.0 && lo <= v <= hi
    ensures lo / scale <= v / scale <= hi / scale
  {
  }

  /** `toFixed(2)`: to whole cents. */
  function ToFixed2(x: real): real
  {
    ToFixed(x, 100.0)
  }

  /** `toFixed(1)`: to one decimal place. */
  function ToFixed1(x: real): real
  {
    ToFixed(x, 10.0)
  }

  /** Rounding never decreases when its argument grows. */
  lemma ToFixedMonotonic(x: real, y: real, scale: real)
    requires scale >= 1.0 && x <= y
    ensures ToFixed(x, scale) <= ToFixed(y, scale)
  {
    if x >= 0.0 {
      UnitsMonotonic(x, y, scale);
      DivideBounds(Units(x, scale) as real, Units(x, scale) as real, Units(y, scale) as real, scale);
    } else if y < 0.0 {
      UnitsMonotonic(-y, -x, scale);
      DivideBounds(Units(-y, scale) as real, Units(-y, scale) as real, Units(-x, scale) as real, scale);
    }
  }

  lemma UnitsMonotonic(x: real, y: real, scale: real)
    requires scale >= 1.0 && 0.0 <= x <= y
    ensures Units(x, scale) <= Units(y, scale)
  {
    ScaleMonotonic(x, y, scale);
  }

  lemma ScaleMonotonic(x: real, y: real, scale: real)
    requires scale >= 1.0 && x <= y
    ensures x * scale <= y * scale
  {
    assert (y - x) * scale >= 0.0;
  }

  /** A value that already has at most the requested precision is shown as is. */
  lemma ToFixedExact(k: int, scale: real)
    requires scale >= 1.0
    ensures ToFixed(k as real / scale, scale) == k as real / scale
  {
    var x := k as real / scale;
    if x < 0.0 {
      assert -x * scale == (-k) as real;
      assert Units(-x, scale) == -k;
    } else {
      assert x * scale == k as real;
      assert Units(x, scale) == k;
    }
  }
}
