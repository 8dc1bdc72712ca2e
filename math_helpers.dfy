/** `clamp` and `lerp` of src/utils/math_helpers.ts. The copy of `clamp` at the
    end of src/utils/interpolated_years.ts has the same body and is this function. */
module MathHelpers {

  /** `Math.min(max, Math.max(min, value))`: the upper bound is applied last, so
      when the bounds are crossed (`lo > hi`) the result is `hi`. */
  function Clamp(value: int, lo: int, hi: int): (r: int)
    ensures lo <= hi ==> lo <= r <= hi
    ensures lo <= value <= hi ==> r == value
    ensures value < lo && lo <= hi ==> r == lo
    ensures hi < value ==> r == hi
    ensures lo > hi ==> r == hi
  {
    if hi < (if lo < value then value else lo) then hi
    else if lo < value then value else lo
  }

  /** Clamping twice with the same bounds is clamping once. */
  lemma ClampIdempotent(value: int, lo: int, hi: int)
    ensures Clamp(Clamp(value, lo, hi), lo, hi) == Clamp(value, lo, hi)
  {
  }

  /** `(1 - ratio) * a + ratio * b`, over the reals. */
  function Lerp(a: real, b: real, ratio: real): (r: real)
    ensures ratio == 0.0 ==> r == a
    ensures ratio == 1.0 ==> r == b
    ensures a == b ==> r == a
  {
    (1.0 - ratio) * a + ratio * b
  }

  /** The product of two non-negative reals is non-negative: the non-linear step
      of `LerpBetween` that the solver does not take by itself. */
  lemma MulNonNegative(x: real, y: real)
    requires x >= 0.0 && y >= 0.0
    ensures x * y >= 0.0
  {
  }

  /** For a ratio in [0, 1] the interpolated value lies between the end points. */
  lemma LerpBetween(a: real, b: real, ratio: real)
    requires 0.0 <= ratio <= 1.0
    ensures a <= b ==> a <= Lerp(a, b, ratio) <= b
    ensures b <= a ==> b <= Lerp(a, b, ratio) <= a
  {
    var r := Lerp(a, b, ratio);
    assert r - a == ratio * (b - a);
    assert b - r == (1.0 - ratio) * (b - a);
    if a <= b {
      MulNonNegative(ratio, b - a);
      MulNonNegative(1.0 - ratio, b - a);
    } else {
      MulNonNegative(ratio, a - b);
      MulNonNegative(1.0 - ratio, a - b);
    }
  }
}
