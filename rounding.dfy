/**
 * The two rounding steps of the percentage calculator, with weights as exact
 * reals (src/routes/App.tsx:150-158; the same text is src/App.tsx:121-129).
 *
 * JavaScript's `Math.round` and `%` are written out here, because Dafny's
 * operators do not behave like them for every operand.
 */
module Rounding {

  /** JavaScript `Math.round`: the nearest integer, a tie going toward +infinity. */
  function JsRound(x: real): (n: int)
    ensures x - 0.5 < n as real <= x + 0.5
  {
    (x + 0.5).Floor
  }

  /** The truncation inside JavaScript `%`: drop the fraction, toward zero. */
  function JsTrunc(x: real): (n: int)
    ensures x >= 0.0 ==> n == x.Floor
    ensures x < 0.0 ==> x <= n as real < x + 1.0
  {
    if x >= 0.0 then x.Floor else -((-x).Floor)
  }

  /**
   * JavaScript `a % b` on finite numbers: the remainder of the division
   * truncated toward zero, which takes the sign of the dividend.
   */
  function JsRem(a: real, b: real): (r: real)
    requires b > 0.0
    ensures a >= 0.0 ==> 0.0 <= r < b
    ensures a < 0.0 ==> -b < r <= 0.0
  {
    TruncatedRemainder(a, b);
    a - JsTrunc(a / b) as real * b
  }

  /** What `%` takes away from `a` is a whole number of `b`s. */
  lemma JsRemMultiple(a: real, b: real)
    requires b > 0.0
    ensures IsMultipleOf(a - JsRem(a, b), b)
  {
    var q := JsTrunc(a / b);
    assert a - JsRem(a, b) == q as real * b;
    assert (q as real * b) / b == q as real;
  }

  /** The truncated remainder of `a` by a positive `b` takes the sign of `a` and is smaller than `b`. */
  lemma TruncatedRemainder(a: real, b: real)
    requires b > 0.0
    ensures a >= 0.0 ==> 0.0 <= a - JsTrunc(a / b) as real * b < b
    ensures a < 0.0 ==> -b < a - JsTrunc(a / b) as real * b <= 0.0
  {
    var q := a / b;
    var t := JsTrunc(q) as real;
    var r := a - t * b;
    assert r == (q - t) * b;
    if a >= 0.0 {
      FractionScaled(q - t, b, r);
    } else {
      FractionScaled(t - q, b, -r);
    }
  }

  /** A fraction in [0, 1) of a positive `b` lies in [0, b). */
  lemma FractionScaled(f: real, b: real, r: real)
    requires 0.0 <= f < 1.0 && b > 0.0 && r == f * b
    ensures 0.0 <= r < b
  {
    assert b - f * b == (1.0 - f) * b;
  }

  /** `x` is an integer multiple of `step`. */
  predicate IsMultipleOf(x: real, step: real)
    requires step > 0.0
  {
    (x / step).Floor as real * step == x
  }

  /**
   * `roundToNearestHalf`: `Math.round(num * 2) / 2`. The result is the one
   * multiple of 0.5 in the half-open window (x - 0.25, x + 0.25], so a value
   * exactly between two halves goes up.
   */
  function RoundToNearestHalf(x: real): (r: real)
    ensures IsMultipleOf(r, 0.5)
    ensures x - 0.25 < r <= x + 0.25
  {
    var n := JsRound(x * 2.0);
    assert (n as real / 2.0 / 0.5).Floor == n;
    n as real / 2.0
  }

  /** Only one multiple of 0.5 lies in (x - 0.25, x + 0.25]: the rounded value. */
  lemma RoundToNearestHalfUnique(x: real, h: real)
    requires IsMultipleOf(h, 0.5)
    requires x - 0.25 < h <= x + 0.25
    ensures h == RoundToNearestHalf(x)
  {
    var r := RoundToNearestHalf(x);
    var a, b := (h / 0.5).Floor, (r / 0.5).Floor;
    assert h == a as real * 0.5 && r == b as real * 0.5;
    assert -1 < a - b < 1;
  }

  /** A tie (x + 0.25 is a multiple of 0.5) rounds up, toward +infinity. */
  lemma RoundToNearestHalfTiesUp(x: real)
    requires IsMultipleOf(x + 0.25, 0.5)
    ensures RoundToNearestHalf(x) == x + 0.25
  {
    RoundToNearestHalfUnique(x, x + 0.25);
  }

  /** A multiple of 0.5 is left as it is; so rounding twice is rounding once. */
  lemma RoundToNearestHalfFixes(x: real)
    requires IsMultipleOf(x, 0.5)
    ensures RoundToNearestHalf(x) == x
    ensures RoundToNearestHalf(RoundToNearestHalf(x)) == RoundToNearestHalf(x)
  {
    RoundToNearestHalfUnique(x, x);
  }

  /**
   * `roundToNearestLoadableWeight`: with `remainder = weight % 5`, a remainder
   * of 0 returns the weight, one below 2.5 rounds down, any other rounds up.
   */
  function RoundToNearestLoadableWeight(weight: real): (r: real)
    ensures IsMultipleOf(r, 5.0)
    ensures weight >= 0.0 ==> weight - 2.5 < r <= weight + 2.5
    ensures weight < 0.0 ==> weight <= r < weight + 5.0
  {
    var remainder := JsRem(weight, 5.0);
    if remainder == 0.0 then
      assert IsMultipleOf(weight, 5.0) by {
        assert (weight / 5.0).Floor == JsTrunc(weight / 5.0);
      }
      weight
    else if remainder < 2.5 then
      assert ((weight - remainder) / 5.0).Floor == JsTrunc(weight / 5.0);
      weight - remainder
    else
      assert ((weight + (5.0 - remainder)) / 5.0).Floor == JsTrunc(weight / 5.0) + 1;
      weight + (5.0 - remainder)
  }

  /**
   * For a non-negative weight the result is the one multiple of 5 in
   * (weight - 2.5, weight + 2.5]: the nearest, with a tie going up.
   */
  lemma RoundToNearestLoadableWeightUnique(weight: real, m: real)
    requires weight >= 0.0
    requires IsMultipleOf(m, 5.0)
    requires weight - 2.5 < m <= weight + 2.5
    ensures m == RoundToNearestLoadableWeight(weight)
  {
    var r := RoundToNearestLoadableWeight(weight);
    var a, b := (m / 5.0).Floor, (r / 5.0).Floor;
    assert m == a as real * 5.0 && r == b as real * 5.0;
    assert -1 < a - b < 1;
  }

  /** A weight that is already a multiple of 5 is returned unchanged, whatever its sign. */
  lemma RoundToNearestLoadableWeightFixes(weight: real)
    requires IsMultipleOf(weight, 5.0)
    ensures RoundToNearestLoadableWeight(weight) == weight
  {
    var k := (weight / 5.0).Floor;
    assert weight == k as real * 5.0;
    assert JsTrunc(weight / 5.0) == k;
    assert JsRem(weight, 5.0) == 0.0;
  }

  /** Rounding to a loadable weight twice is rounding once. */
  lemma RoundToNearestLoadableWeightIdempotent(weight: real)
    ensures RoundToNearestLoadableWeight(RoundToNearestLoadableWeight(weight))
            == RoundToNearestLoadableWeight(weight)
  {
    RoundToNearestLoadableWeightFixes(RoundToNearestLoadableWeight(weight));
  }

  /** A remainder of exactly 2.5 rounds up by 2.5, never down. */
  lemma RoundToNearestLoadableWeightTieUp(weight: real)
    requires weight >= 0.0
    requires JsRem(weight, 5.0) == 2.5
    ensures RoundToNearestLoadableWeight(weight) == weight + 2.5
  {
  }

  /** 102.5 has remainder 2.5 and goes to 105, not 100. */
  lemma RoundToNearestLoadableWeightExample()
    ensures RoundToNearestLoadableWeight(102.5) == 105.0
  {
    assert JsTrunc(102.5 / 5.0) == 20;
    RoundToNearestLoadableWeightTieUp(102.5);
  }
}
