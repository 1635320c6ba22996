/** Python's built-in `round`, on exact real arguments: nearest, ties to even. */
module Rounding {

  function RoundHalfEven(x: real): int {
    var f := x.Floor;
    var rest := x - f as real;
    if rest < 0.5 || (rest == 0.5 && f % 2 == 0) then f else f + 1
  }

  /** `round(x, 2)`, in hundredths. */
  function Hundredths(x: real): int { RoundHalfEven(100.0 * x) }

  /** `round(part / whole, 4)`, in ten-thousandths. */
  function TenThousandths(part: nat, whole: nat): int
    requires whole > 0
  {
    RoundHalfEven(10000.0 * part as real / whole as real)
  }

  /** Rounding is determined by its thresholds: a value reaches an even number from half a unit
      below on, and an odd number from beyond that point on. */
  lemma Threshold(x: real, k: int)
    ensures RoundHalfEven(x) >= k <==>
            (if k % 2 == 0 then x >= k as real - 0.5 else x > k as real - 0.5)
  {}

  lemma Monotone(x: real, y: real)
    requires x <= y
    ensures RoundHalfEven(x) <= RoundHalfEven(y)
  {
    Threshold(x, RoundHalfEven(x));
    Threshold(y, RoundHalfEven(x));
  }

  /** A rounded ratio reaches an even threshold exactly when the ratio, doubled to stay in the
      integers, reaches the point half a unit below it. */
  lemma RatioThreshold(part: nat, whole: nat, k: int)
    requires whole > 0 && k % 2 == 0
    ensures TenThousandths(part, whole) >= k <==> 20000 * part >= (2 * k - 1) * whole
  {
    var bound := ((2 * k - 1) * whole) as real / 2.0;
    Doubled(k, whole);
    QuotientAtLeast(10000.0 * part as real, whole as real, k as real - 0.5, bound);
    Threshold(10000.0 * part as real / whole as real, k);
    assert 20000.0 * part as real == (20000 * part) as real;
  }

  lemma Doubled(k: int, whole: int)
    ensures ((2 * k - 1) * whole) as real / 2.0 == (k as real - 0.5) * whole as real
  {
    assert (2 * k - 1) * whole == 2 * (k * whole) - whole;
    assert (k * whole) as real == k as real * whole as real;
  }

  lemma QuotientAtLeast(n: real, d: real, b: real, product: real)
    requires d > 0.0 && product == b * d
    ensures n / d >= b <==> n >= product
  {
    var q := n / d;
    assert q * d == n;
    Scale(q, b, d, n, product);
  }

  lemma Scale(x: real, y: real, s: real, xs: real, ys: real)
    requires s > 0.0 && xs == x * s && ys == y * s
    ensures x >= y <==> xs >= ys
  {
    assert (x - y) * s == xs - ys;
    if x >= y {
      assert (x - y) * s >= 0.0;
    } else {
      assert (y - x) * s > 0.0;
    }
  }

  /** A share of a whole stays between nothing and everything after rounding. */
  lemma RatioInUnitInterval(part: nat, whole: nat)
    requires whole > 0 && part <= whole
    ensures 0 <= TenThousandths(part, whole) <= 10000
    ensures part == whole ==> TenThousandths(part, whole) == 10000
  {
    var n, w := 10000.0 * part as real, whole as real;
    QuotientAtLeast(n, w, 0.0, 0.0);
    QuotientAtLeast(n, w, 10000.5, 10000.5 * w);
    QuotientAtLeast(n, w, 10000.0, 10000.0 * w);
    Threshold(n / w, 10000);
    Threshold(n / w, 10001);
    Threshold(n / w, 0);
  }
}
