/** Image similarity arithmetic of backend/app/comparison/utils.py, over exact reals.

    The structural similarity score is a ratio of two products.  The file shows that the ratio
    never leaves (-infinity, 1], that its denominator is positive, and that the score is 1 for
    identical images only, which is what ties it to the pixel difference mask. */
module ImageSimilarity {
  import opened Bags
  import opened Numbers

  /** One 8-bit sample. */
  type Pixel = x: int | 0 <= x < 256

  /** A two-dimensional array, row by row. */
  type Grid<T> = seq<seq<T>>

  /** numpy's view of a two-dimensional array: a positive number of rows of one positive width. */
  ghost predicate IsGrid<T>(a: Grid<T>) {
    && |a| > 0
    && |a[0]| > 0
    && forall i :: 0 <= i < |a| ==> |a[i]| == |a[0]|
  }

  ghost predicate SameShape<T>(a: Grid<T>, b: Grid<T>)
    requires IsGrid(a) && IsGrid(b)
  {
    |a| == |b| && |a[0]| == |b[0]|
  }

  /** The top left part of `a`, as numpy slices it. */
  function TopLeft<T>(a: Grid<T>, height: nat, width: nat): (r: Grid<T>)
    requires IsGrid(a)
    requires 0 < height <= |a| && 0 < width <= |a[0]|
    ensures IsGrid(r) && |r| == height && |r[0]| == width
  {
    seq(height, i requires 0 <= i < height => a[i][..width])
  }

  /** What is compared of `a` when it meets `b`: everything, or the common top left part. */
  function Crop<T>(a: Grid<T>, b: Grid<T>): (r: Grid<T>)
    requires IsGrid(a) && IsGrid(b)
    ensures IsGrid(r)
    ensures |r| == Min(|a|, |b|) && |r[0]| == Min(|a[0]|, |b[0]|)
    ensures forall i, j :: 0 <= i < |r| && 0 <= j < |r[0]| ==> r[i][j] == a[i][j]
  {
    if |a| == |b| && |a[0]| == |b[0]| then a
    else TopLeft(a, Min(|a|, |b|), Min(|a[0]|, |b[0]|))
  }

  /** All samples in reading order, as exact reals. */
  function Samples(a: Grid<Pixel>): seq<real> {
    if a == [] then [] else Row(a[0]) + Samples(a[1..])
  }

  function Row(row: seq<Pixel>): (r: seq<real>)
    ensures |r| == |row|
    ensures forall i :: 0 <= i < |r| ==> r[i] == row[i] as real
  {
    seq(|row|, i requires 0 <= i < |row| => row[i] as real)
  }

  // ----- the statistics ------------------------------------------------------------------

  function Square(d: real): real { d * d }

  function Mean(xs: seq<real>): real
    requires xs != []
  {
    Sum(xs) / |xs| as real
  }

  /** Sum of the products of the deviations of `xs` from `m` and of `ys` from `k`. */
  function CoDeviation(xs: seq<real>, ys: seq<real>, m: real, k: real): real
    requires |xs| == |ys|
  {
    if xs == [] then 0.0
    else (xs[0] - m) * (ys[0] - k) + CoDeviation(xs[1..], ys[1..], m, k)
  }

  function Covariance(xs: seq<real>, ys: seq<real>): real
    requires |xs| == |ys| > 0
  {
    CoDeviation(xs, ys, Mean(xs), Mean(ys)) / |xs| as real
  }

  function Variance(xs: seq<real>): real
    requires xs != []
  {
    Covariance(xs, xs)
  }

  const C1: real := 0.01 * 255.0 * (0.01 * 255.0)
  const C2: real := 0.03 * 255.0 * (0.03 * 255.0)

  /** Numerator and denominator of the score, from means, covariance and variances. */
  function Top(p: real, q: real, c: real): real {
    (2.0 * p * q + C1) * (2.0 * c + C2)
  }

  function Bottom(p: real, q: real, vx: real, vy: real): real {
    (Square(p) + Square(q) + C1) * (vx + vy + C2)
  }

  function Numerator(xs: seq<real>, ys: seq<real>): real
    requires |xs| == |ys| > 0
  {
    Top(Mean(xs), Mean(ys), Covariance(xs, ys))
  }

  function Denominator(xs: seq<real>, ys: seq<real>): real
    requires |xs| == |ys| > 0
  {
    Bottom(Mean(xs), Mean(ys), Variance(xs), Variance(ys))
  }

  function Clamp(x: real): real {
    var upper := if x < 1.0 then x else 1.0;
    if 0.0 < upper then upper else 0.0
  }

  /** The score of two equally long sample lists. */
  function Score(xs: seq<real>, ys: seq<real>): real
    requires |xs| == |ys| > 0
  {
    if Denominator(xs, ys) == 0.0 then 1.0
    else Clamp(Numerator(xs, ys) / Denominator(xs, ys))
  }

  function ComputeSsim(a: Grid<Pixel>, b: Grid<Pixel>): real
    requires IsGrid(a) && IsGrid(b)
  {
    SamplesLength(Crop(a, b), Min(|a[0]|, |b[0]|));
    SamplesLength(Crop(b, a), Min(|a[0]|, |b[0]|));
    Score(Samples(Crop(a, b)), Samples(Crop(b, a)))
  }

  // ----- facts about the statistics ------------------------------------------------------

  ghost predicate NonNegative(xs: seq<real>) {
    forall i :: 0 <= i < |xs| ==> xs[i] >= 0.0
  }

  /** Sum of the squared differences between the deviations of the two lists. */
  ghost function Spread(xs: seq<real>, ys: seq<real>, m: real, k: real): real
    requires |xs| == |ys|
  {
    if xs == [] then 0.0
    else Square(xs[0] - m - (ys[0] - k)) + Spread(xs[1..], ys[1..], m, k)
  }

  lemma {:induction false} SumNonNegative(xs: seq<real>)
    requires NonNegative(xs)
    ensures Sum(xs) >= 0.0
  {
    if xs != [] {
      SumNonNegative(xs[1..]);
    }
  }

  lemma MeanNonNegative(xs: seq<real>)
    requires xs != [] && NonNegative(xs)
    ensures Mean(xs) >= 0.0
  {
    SumNonNegative(xs);
  }

  lemma SquareSign(d: real)
    ensures Square(d) >= 0.0
    ensures Square(d) == 0.0 <==> d == 0.0
  {
    if d > 0.0 {
      PositiveProduct(d, d, Square(d));
    } else if d < 0.0 {
      PositiveProduct(-d, -d, Square(d));
    }
  }

  lemma PositiveProduct(x: real, y: real, product: real)
    requires x > 0.0 && y > 0.0 && product == x * y
    ensures product > 0.0
  {}

  lemma {:induction false} DeviationNonNegative(xs: seq<real>, m: real)
    ensures CoDeviation(xs, xs, m, m) >= 0.0
  {
    if xs != [] {
      SquareSign(xs[0] - m);
      DeviationNonNegative(xs[1..], m);
    }
  }

  lemma VarianceNonNegative(xs: seq<real>)
    requires xs != []
    ensures Variance(xs) >= 0.0
  {
    DeviationNonNegative(xs, Mean(xs));
  }

  lemma {:induction false} CoDeviationSymmetric(xs: seq<real>, ys: seq<real>, m: real, k: real)
    requires |xs| == |ys|
    ensures CoDeviation(xs, ys, m, k) == CoDeviation(ys, xs, k, m)
  {
    if xs != [] {
      CoDeviationSymmetric(xs[1..], ys[1..], m, k);
    }
  }

  /** (u - v)^2 = u^2 + v^2 - 2uv, summed over the lists. */
  lemma {:induction false} SpreadExpands(xs: seq<real>, ys: seq<real>, m: real, k: real)
    requires |xs| == |ys|
    ensures Spread(xs, ys, m, k)
         == CoDeviation(xs, xs, m, m) + CoDeviation(ys, ys, k, k) - 2.0 * CoDeviation(xs, ys, m, k)
  {
    if xs != [] {
      SpreadExpands(xs[1..], ys[1..], m, k);
      var u, v := xs[0] - m, ys[0] - k;
      assert Square(u - v) == u * u + v * v - 2.0 * (u * v);
    }
  }

  lemma {:induction false} SpreadZero(xs: seq<real>, ys: seq<real>, m: real, k: real)
    requires |xs| == |ys|
    ensures Spread(xs, ys, m, k) >= 0.0
    ensures Spread(xs, ys, m, k) == 0.0 ==> forall i :: 0 <= i < |xs| ==> xs[i] - m == ys[i] - k
  {
    if xs != [] {
      SpreadZero(xs[1..], ys[1..], m, k);
      SquareSign(xs[0] - m - (ys[0] - k));
      if Spread(xs, ys, m, k) == 0.0 {
        forall i | 0 <= i < |xs| ensures xs[i] - m == ys[i] - k {
          if i > 0 {
            assert xs[i] == xs[1..][i - 1] && ys[i] == ys[1..][i - 1];
          }
        }
      }
    }
  }

  /** The contrast factor: twice the covariance is at most the sum of the variances, and it is
      that sum only when the lists differ by a constant. */
  lemma ContrastFactor(xs: seq<real>, ys: seq<real>)
    requires |xs| == |ys| > 0
    ensures 2.0 * Covariance(xs, ys) <= Variance(xs) + Variance(ys)
    ensures 2.0 * Covariance(xs, ys) == Variance(xs) + Variance(ys) ==>
              forall i :: 0 <= i < |xs| ==> xs[i] - Mean(xs) == ys[i] - Mean(ys)
  {
    var m, k, n := Mean(xs), Mean(ys), |xs| as real;
    SpreadExpands(xs, ys, m, k);
    SpreadZero(xs, ys, m, k);
    Scaled(CoDeviation(xs, xs, m, m), CoDeviation(ys, ys, k, k), CoDeviation(xs, ys, m, k), n);
  }

  lemma Scaled(u: real, v: real, c: real, n: real)
    requires n > 0.0
    requires 2.0 * c <= u + v
    ensures 2.0 * (c / n) <= u / n + v / n
    ensures 2.0 * (c / n) == u / n + v / n ==> 2.0 * c == u + v
  {
    var p, q, r := u / n, v / n, c / n;
    assert u == p * n && v == q * n && c == r * n;
    assert (p + q - 2.0 * r) * n == u + v - 2.0 * c;
  }

  lemma LuminanceFactor(p: real, q: real)
    ensures 2.0 * p * q <= Square(p) + Square(q)
    ensures 2.0 * p * q == Square(p) + Square(q) <==> p == q
  {
    assert Square(p - q) == Square(p) + Square(q) - 2.0 * p * q;
    SquareSign(p - q);
  }

  lemma ProductBound(n1: real, d1: real, n2: real, d2: real)
    requires 0.0 < n1 <= d1 && n2 <= d2 && 0.0 < d2
    ensures n1 * n2 <= d1 * d2
    ensures 0.0 < d1 * d2
    ensures n1 * n2 == d1 * d2 ==> n1 == d1 && n2 == d2
  {
    if n2 <= 0.0 {
      assert n1 * n2 <= 0.0 < d1 * d2;
    } else {
      assert d1 * d2 - n1 * n2 == (d1 - n1) * d2 + n1 * (d2 - n2);
      assert (d1 - n1) * d2 >= 0.0 && n1 * (d2 - n2) >= 0.0;
      if n1 * n2 == d1 * d2 {
        assert (d1 - n1) * d2 == 0.0 && n1 * (d2 - n2) == 0.0;
      }
    }
  }

  // ----- the main results ----------------------------------------------------------------

  /** The ratio before clamping: its denominator is positive, it never exceeds 1, and it is 1
      for identical lists only. */
  lemma RatioBounds(xs: seq<real>, ys: seq<real>)
    requires |xs| == |ys| > 0 && NonNegative(xs) && NonNegative(ys)
    ensures Denominator(xs, ys) > 0.0
    ensures Numerator(xs, ys) / Denominator(xs, ys) <= 1.0
    ensures Numerator(xs, ys) / Denominator(xs, ys) == 1.0 <==> xs == ys
  {
    MeanNonNegative(xs);
    MeanNonNegative(ys);
    VarianceNonNegative(xs);
    VarianceNonNegative(ys);
    ContrastFactor(xs, ys);
    FactorBounds(Mean(xs), Mean(ys), Covariance(xs, ys), Variance(xs), Variance(ys));
    if Mean(xs) == Mean(ys) && 2.0 * Covariance(xs, ys) == Variance(xs) + Variance(ys) {
      EqualStatistics(xs, ys);
    }
  }

  lemma EqualStatistics(xs: seq<real>, ys: seq<real>)
    requires |xs| == |ys| > 0
    requires Mean(xs) == Mean(ys) && 2.0 * Covariance(xs, ys) == Variance(xs) + Variance(ys)
    ensures xs == ys
  {
    ContrastFactor(xs, ys);
    forall i | 0 <= i < |xs| ensures xs[i] == ys[i] {
      assert xs[i] - Mean(xs) == ys[i] - Mean(ys);
    }
  }

  /** The same statement about the five statistics. */
  lemma FactorBounds(p: real, q: real, c: real, vx: real, vy: real)
    requires p >= 0.0 && q >= 0.0 && vx >= 0.0 && vy >= 0.0 && 2.0 * c <= vx + vy
    ensures Bottom(p, q, vx, vy) > 0.0
    ensures Top(p, q, c) / Bottom(p, q, vx, vy) <= 1.0
    ensures Top(p, q, c) / Bottom(p, q, vx, vy) == 1.0 <==> p == q && 2.0 * c == vx + vy
  {
    LuminanceFactor(p, q);
    ProductNonNegative(p, q);
    var n1, d1 := 2.0 * p * q + C1, Square(p) + Square(q) + C1;
    var n2, d2 := 2.0 * c + C2, vx + vy + C2;
    ProductBound(n1, d1, n2, d2);
    QuotientBound(n1 * n2, d1 * d2);
  }

  lemma ProductNonNegative(p: real, q: real)
    requires p >= 0.0 && q >= 0.0
    ensures 2.0 * p * q >= 0.0
  {
    assert p * q >= 0.0;
  }

  lemma QuotientBound(n: real, d: real)
    requires d > 0.0 && n <= d
    ensures n / d <= 1.0
    ensures n / d == 1.0 <==> n == d
  {
    assert (n / d) * d == n;
  }

  lemma {:induction false} SamplesLength(a: Grid<Pixel>, width: nat)
    requires forall i :: 0 <= i < |a| ==> |a[i]| == width
    ensures |Samples(a)| == |a| * width
    ensures NonNegative(Samples(a))
  {
    if a != [] {
      SamplesLength(a[1..], width);
      assert |a| * width == width + (|a| - 1) * width;
    }
  }

  lemma {:induction false} SamplesInjective(a: Grid<Pixel>, b: Grid<Pixel>, width: nat)
    requires |a| == |b|
    requires forall i :: 0 <= i < |a| ==> |a[i]| == |b[i]| == width
    requires Samples(a) == Samples(b)
    ensures a == b
  {
    if a != [] {
      var s, t := Samples(a), Samples(b);
      assert s[..width] == Row(a[0]) && t[..width] == Row(b[0]);
      assert s[width..] == Samples(a[1..]) && t[width..] == Samples(b[1..]);
      forall j | 0 <= j < width ensures a[0][j] == b[0][j] {
        assert Row(a[0])[j] == Row(b[0])[j];
      }
      assert a[0] == b[0];
      SamplesInjective(a[1..], b[1..], width);
      assert a == [a[0]] + a[1..] && b == [b[0]] + b[1..];
    }
  }

  lemma ScoreFacts(xs: seq<real>, ys: seq<real>)
    requires |xs| == |ys| > 0 && NonNegative(xs) && NonNegative(ys)
    ensures 0.0 <= Score(xs, ys) <= 1.0
    ensures Score(xs, ys) == Score(ys, xs)
    ensures Score(xs, ys) == 1.0 <==> xs == ys
  {
    RatioBounds(xs, ys);
    RatioBounds(ys, xs);
    RatioSymmetric(xs, ys);
  }

  lemma RatioSymmetric(xs: seq<real>, ys: seq<real>)
    requires |xs| == |ys| > 0
    ensures Numerator(xs, ys) == Numerator(ys, xs)
    ensures Denominator(xs, ys) == Denominator(ys, xs)
  {
    CoDeviationSymmetric(xs, ys, Mean(xs), Mean(ys));
    var p, q, c := Mean(xs), Mean(ys), Covariance(xs, ys);
    assert Covariance(ys, xs) == c;
    FactorsCommute(p, q, c, Variance(xs), Variance(ys));
  }

  lemma FactorsCommute(p: real, q: real, c: real, vx: real, vy: real)
    ensures Top(p, q, c) == Top(q, p, c)
    ensures Bottom(p, q, vx, vy) == Bottom(q, p, vy, vx)
  {
    assert 2.0 * p * q == 2.0 * q * p;
  }

  /** The score is a symmetric number in [0, 1] that reaches 1 exactly when the compared parts
      are the same image. */
  lemma SsimCharacterized(a: Grid<Pixel>, b: Grid<Pixel>)
    requires IsGrid(a) && IsGrid(b)
    ensures 0.0 <= ComputeSsim(a, b) <= 1.0
    ensures ComputeSsim(a, b) == ComputeSsim(b, a)
    ensures ComputeSsim(a, b) == 1.0 <==> Crop(a, b) == Crop(b, a)
    ensures SameShape(a, b) ==> (ComputeSsim(a, b) == 1.0 <==> a == b)
  {
    var width := Min(|a[0]|, |b[0]|);
    var p, q := Crop(a, b), Crop(b, a);
    SamplesLength(p, width);
    SamplesLength(q, width);
    var xs, ys := Samples(p), Samples(q);
    ScoreFacts(xs, ys);
    if xs == ys {
      SamplesInjective(p, q, width);
    }
  }

  /** The score does not see what cropping removes. */
  lemma CroppedImagesCanScoreOne()
    ensures var a: Grid<Pixel> := [[7, 7]]; var b: Grid<Pixel> := [[7]];
            IsGrid(a) && IsGrid(b) && a != b && ComputeSsim(a, b) == 1.0
  {
    var a: Grid<Pixel>, b: Grid<Pixel> := [[7, 7]], [[7]];
    assert IsGrid(a) && IsGrid(b);
    SsimCharacterized(a, b);
    assert TopLeft(a, 1, 1)[0] == [7];
    assert Crop(a, b) == Crop(b, a);
  }

  // ----- the difference mask -------------------------------------------------------------

  function Difference(x: Pixel, y: Pixel): int { if x >= y then x - y else y - x }

  /** Largest difference over the colour channels. */
  function Magnitude(x: seq<Pixel>, y: seq<Pixel>): (r: int)
    requires |x| == |y| > 0
    ensures forall c :: 0 <= c < |x| ==> Difference(x[c], y[c]) <= r
    ensures exists c :: 0 <= c < |x| && Difference(x[c], y[c]) == r
  {
    if |x| == 1 then Difference(x[0], y[0])
    else
      var rest := Magnitude(x[1..], y[1..]);
      assert forall c :: 0 < c < |x| ==> x[c] == x[1..][c - 1] && y[c] == y[1..][c - 1];
      if Difference(x[0], y[0]) >= rest then Difference(x[0], y[0]) else rest
  }

  function MaskBit(magnitude: int, threshold: int): Pixel {
    if magnitude >= threshold then 255 else 0
  }

  /** Mask of two grayscale images. */
  function DifferenceMask(a: Grid<Pixel>, b: Grid<Pixel>, threshold: int): (r: Grid<Pixel>)
    requires IsGrid(a) && IsGrid(b)
    ensures IsGrid(r) && |r| == Min(|a|, |b|) && |r[0]| == Min(|a[0]|, |b[0]|)
    ensures forall i, j :: 0 <= i < |r| && 0 <= j < |r[0]| ==>
              (r[i][j] == 0 || r[i][j] == 255) && (r[i][j] == 255 <==> Difference(a[i][j], b[i][j]) >= threshold)
  {
    var p, q := Crop(a, b), Crop(b, a);
    seq(|p|, i requires 0 <= i < |p| =>
      seq(|p[0]|, j requires 0 <= j < |p[0]| => MaskBit(Difference(p[i][j], q[i][j]), threshold)))
  }

  /** Mask of two images with the same positive number of colour channels. */
  function ColourMask(a: Grid<seq<Pixel>>, b: Grid<seq<Pixel>>, channels: nat, threshold: int): (r: Grid<Pixel>)
    requires IsGrid(a) && IsGrid(b) && channels > 0
    requires forall i, j :: 0 <= i < |a| && 0 <= j < |a[0]| ==> |a[i][j]| == channels
    requires forall i, j :: 0 <= i < |b| && 0 <= j < |b[0]| ==> |b[i][j]| == channels
    ensures IsGrid(r) && |r| == Min(|a|, |b|) && |r[0]| == Min(|a[0]|, |b[0]|)
    ensures forall i, j :: 0 <= i < |r| && 0 <= j < |r[0]| ==> (r[i][j] == 0 || r[i][j] == 255)
    ensures forall i, j :: 0 <= i < |r| && 0 <= j < |r[0]| ==>
              (r[i][j] == 255 <==> exists c :: 0 <= c < channels && Difference(a[i][j][c], b[i][j][c]) >= threshold)
  {
    var p, q := Crop(a, b), Crop(b, a);
    seq(|p|, i requires 0 <= i < |p| =>
      seq(|p[0]|, j requires 0 <= j < |p[0]| => MaskBit(Magnitude(p[i][j], q[i][j]), threshold)))
  }

  ghost predicate AllZero(mask: Grid<Pixel>)
    requires IsGrid(mask)
  {
    forall i, j :: 0 <= i < |mask| && 0 <= j < |mask[0]| ==> mask[i][j] == 0
  }

  /** The two measures agree on when images are the same: the score is 1 exactly when the mask
      at threshold 1 shows nothing. */
  lemma PerfectScoreIsEmptyMask(a: Grid<Pixel>, b: Grid<Pixel>)
    requires IsGrid(a) && IsGrid(b)
    ensures ComputeSsim(a, b) == 1.0 <==> AllZero(DifferenceMask(a, b, 1))
  {
    SsimCharacterized(a, b);
    var p, q, mask := Crop(a, b), Crop(b, a), DifferenceMask(a, b, 1);
    if AllZero(mask) {
      forall i | 0 <= i < |p| ensures p[i] == q[i] {
        forall j | 0 <= j < |p[i]| ensures p[i][j] == q[i][j] {
          assert mask[i][j] == 0;
        }
      }
      assert p == q;
    }
    if p == q {
      forall i, j | 0 <= i < |mask| && 0 <= j < |mask[0]| ensures mask[i][j] == 0 {
        assert p[i][j] == q[i][j];
      }
    }
  }
}
