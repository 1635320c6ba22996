/** The similarity score of backend/app/comparison/utils.py:61-82 in plain sums over the pixels: no
    mean, variance or covariance, and no cropped image. */
module ImageMoments {
  import opened Bags
  import opened ImageSimilarity
  import opened Numbers

  // ----- sums over the pixels both images have -------------------------------------------

  function RowSum(x: seq<Pixel>, y: seq<Pixel>, width: nat, f: (int, int) -> int): int
    requires width <= |x| && width <= |y|
  {
    if width == 0 then 0 else RowSum(x, y, width - 1, f) + f(x[width - 1], y[width - 1])
  }

  /** Sum of `f` over the pixels at the same place in the first `height` rows. */
  function GridSum(a: Grid<Pixel>, b: Grid<Pixel>, height: nat, width: nat, f: (int, int) -> int): int
    requires height <= |a| && height <= |b|
    requires forall i :: 0 <= i < height ==> width <= |a[i]| && width <= |b[i]|
  {
    if height == 0 then 0 else GridSum(a, b, height - 1, width, f) + RowSum(a[height - 1], b[height - 1], width, f)
  }

  const VALUE := (x: int, y: int) => x
  const PRODUCT := (x: int, y: int) => x * y

  /** The number of pixels, the two sums, the two sums of squares, and the sum of products. */
  datatype Moments = Moments(n: real, A: real, B: real, AA: real, BB: real, AB: real)

  function MomentsOf(a: Grid<Pixel>, b: Grid<Pixel>, height: nat, width: nat): Moments
    requires height <= |a| && height <= |b|
    requires forall i :: 0 <= i < height ==> width <= |a[i]| && width <= |b[i]|
  {
    Moments((height * width) as real,
            GridSum(a, a, height, width, VALUE) as real, GridSum(b, b, height, width, VALUE) as real,
            GridSum(a, a, height, width, PRODUCT) as real, GridSum(b, b, height, width, PRODUCT) as real,
            GridSum(a, b, height, width, PRODUCT) as real)
  }

  /** The moments of the pixels two images share. */
  function SharedMoments(a: Grid<Pixel>, b: Grid<Pixel>): Moments
    requires IsGrid(a) && IsGrid(b)
  {
    MomentsOf(a, b, if |a| <= |b| then |a| else |b|, if |a[0]| <= |b[0]| then |a[0]| else |b[0]|)
  }

  predicate IsProper(m: Moments) { MomentBottom(m.n, m.A, m.B, m.AA, m.BB) > 0.0 }

  function MomentScore(m: Moments): real
    requires IsProper(m)
  {
    var ratio := MomentTop(m.n, m.A, m.B, m.AB) / MomentBottom(m.n, m.A, m.B, m.AA, m.BB);
    if ratio < 0.0 then 0.0 else if ratio > 1.0 then 1.0 else ratio
  }

  function MomentTop(n: real, A: real, B: real, AB: real): real {
    (2.0 * (A * B) + 6.5025 * (n * n)) * (2.0 * (n * AB - A * B) + 58.5225 * (n * n))
  }

  function MomentBottom(n: real, A: real, B: real, AA: real, BB: real): real {
    (A * A + B * B + 6.5025 * (n * n)) * ((n * AA - A * A) + (n * BB - B * B) + 58.5225 * (n * n))
  }

  // ----- sums of samples -----------------------------------------------------------------

  /** Sum of `f` over two lists side by side. */
  function Fold(xs: seq<real>, ys: seq<real>, f: (real, real) -> real): real
    requires |xs| == |ys|
  {
    if xs == [] then 0.0 else f(xs[0], ys[0]) + Fold(xs[1..], ys[1..], f)
  }

  lemma {:induction false} FoldSplit(xs: seq<real>, ys: seq<real>, us: seq<real>, vs: seq<real>, f: (real, real) -> real)
    requires |xs| == |ys| && |us| == |vs|
    ensures Fold(xs + us, ys + vs, f) == Fold(xs, ys, f) + Fold(us, vs, f)
  {
    if xs == [] {
      assert xs + us == us && ys + vs == vs;
    } else {
      assert (xs + us)[1..] == xs[1..] + us && (ys + vs)[1..] == ys[1..] + vs;
      FoldSplit(xs[1..], ys[1..], us, vs, f);
    }
  }

  lemma {:induction false} FoldAdd(xs: seq<real>, ys: seq<real>, f: (real, real) -> real, g: (real, real) -> real, h: (real, real) -> real)
    requires |xs| == |ys| && forall x, y :: h(x, y) == f(x, y) + g(x, y)
    ensures Fold(xs, ys, h) == Fold(xs, ys, f) + Fold(xs, ys, g)
  {
    if xs != [] {
      FoldAdd(xs[1..], ys[1..], f, g, h);
    }
  }

  lemma {:induction false} FoldScale(xs: seq<real>, ys: seq<real>, f: (real, real) -> real, g: (real, real) -> real, s: real -> real)
    requires |xs| == |ys| && s(0.0) == 0.0 && forall u, v :: s(u + v) == s(u) + s(v)
    requires forall x, y :: g(x, y) == s(f(x, y))
    ensures Fold(xs, ys, g) == s(Fold(xs, ys, f))
  {
    if xs != [] {
      FoldScale(xs[1..], ys[1..], f, g, s);
      assert s(f(xs[0], ys[0]) + Fold(xs[1..], ys[1..], f)) == s(f(xs[0], ys[0])) + s(Fold(xs[1..], ys[1..], f));
    }
  }

  function Left(): (real, real) -> real { (x: real, y: real) => x }
  function Right(): (real, real) -> real { (x: real, y: real) => y }
  function Times(): (real, real) -> real { (x: real, y: real) => x * y }
  function One(): (real, real) -> real { (x: real, y: real) => 1.0 }
  function Deviations(m: real, k: real): (real, real) -> real { (x: real, y: real) => (x - m) * (y - k) }
  function By(c: real): real -> real { (u: real) => c * u }

  /** Sum of the products of two lists. */
  function Dot(xs: seq<real>, ys: seq<real>): real
    requires |xs| == |ys|
  {
    Fold(xs, ys, Times())
  }

  lemma {:induction false} FoldSums(xs: seq<real>, ys: seq<real>)
    requires |xs| == |ys|
    ensures Fold(xs, ys, Left()) == Sum(xs) && Fold(xs, ys, Right()) == Sum(ys) && Fold(xs, ys, One()) == |xs| as real
  {
    if xs != [] {
      FoldSums(xs[1..], ys[1..]);
    }
  }

  lemma {:induction false} FoldDeviations(xs: seq<real>, ys: seq<real>, m: real, k: real)
    requires |xs| == |ys|
    ensures CoDeviation(xs, ys, m, k) == Fold(xs, ys, Deviations(m, k))
  {
    if xs != [] {
      FoldDeviations(xs[1..], ys[1..], m, k);
    }
  }

  lemma Scales(c: real)
    ensures By(c)(0.0) == 0.0 && forall u, v :: By(c)(u + v) == By(c)(u) + By(c)(v)
  {
    forall u, v ensures By(c)(u + v) == By(c)(u) + By(c)(v) {
      assert c * (u + v) == c * u + c * v;
    }
  }

  lemma FoldTimes(xs: seq<real>, ys: seq<real>, f: (real, real) -> real, g: (real, real) -> real, s: real -> real, c: real)
    requires |xs| == |ys| && s == By(c) && forall x, y :: g(x, y) == s(f(x, y))
    ensures Fold(xs, ys, g) == s(Fold(xs, ys, f))
  {
    Scales(c);
    FoldScale(xs, ys, f, g, s);
  }

  /** A sum of four functions, and the functions that scale three others. */
  lemma FoldFour(xs: seq<real>, ys: seq<real>, f: (real, real) -> real, g: (real, real) -> real, h: (real, real) -> real,
                 k: (real, real) -> real, whole: (real, real) -> real)
    requires |xs| == |ys| && forall x, y :: whole(x, y) == ((f(x, y) + g(x, y)) + h(x, y)) + k(x, y)
    ensures Fold(xs, ys, whole) == ((Fold(xs, ys, f) + Fold(xs, ys, g)) + Fold(xs, ys, h)) + Fold(xs, ys, k)
  {
    var two := (x: real, y: real) => f(x, y) + g(x, y);
    var three := (x: real, y: real) => two(x, y) + h(x, y);
    FoldAdd(xs, ys, f, g, two);
    FoldAdd(xs, ys, two, h, three);
    FoldAdd(xs, ys, three, k, whole);
  }

  function After(f: (real, real) -> real, s: real -> real): (real, real) -> real { (x: real, y: real) => s(f(x, y)) }

  lemma DeviationIs(x: real, y: real, m: real, k: real)
    ensures Deviations(m, k)(x, y) == ((Times()(x, y) + After(Right(), By(-m))(x, y)) + After(Left(), By(-k))(x, y))
                                      + After(One(), By(m * k))(x, y)
  {
    assert (x - m) * (y - k) == ((x * y + -m * y) + -k * x) + m * k;
  }

  lemma DeviationExpands(xs: seq<real>, ys: seq<real>, m: real, k: real)
    requires |xs| == |ys|
    ensures CoDeviation(xs, ys, m, k) == ((Dot(xs, ys) + By(-m)(Sum(ys))) + By(-k)(Sum(xs))) + By(m * k)(|xs| as real)
  {
    FoldSums(xs, ys);
    FoldDeviations(xs, ys, m, k);
    FoldTimes(xs, ys, Right(), After(Right(), By(-m)), By(-m), -m);
    FoldTimes(xs, ys, Left(), After(Left(), By(-k)), By(-k), -k);
    FoldTimes(xs, ys, One(), After(One(), By(m * k)), By(m * k), m * k);
    forall x, y ensures Deviations(m, k)(x, y) == ((Times()(x, y) + After(Right(), By(-m))(x, y)) + After(Left(), By(-k))(x, y))
                                                  + After(One(), By(m * k))(x, y) {
      DeviationIs(x, y, m, k);
    }
    FoldFour(xs, ys, Times(), After(Right(), By(-m)), After(Left(), By(-k)), After(One(), By(m * k)), Deviations(m, k));
  }

  lemma Quotient(x: real, n: real)
    requires n > 0.0
    ensures x / n * n == x
  {}

  /** Covariance times the square of the number of samples. */
  lemma CovarianceInSums(xs: seq<real>, ys: seq<real>)
    requires |xs| == |ys| > 0
    ensures Squared(Covariance(xs, ys), |xs| as real) == CoSum(|xs| as real, Dot(xs, ys), Sum(xs), Sum(ys))
  {
    var n, m, k := |xs| as real, Mean(xs), Mean(ys);
    DeviationExpands(xs, ys, m, k);
    MeanTimes(xs);
    MeanTimes(ys);
    Quotient(CoDeviation(xs, ys, m, k), n);
    Centred(CoDeviation(xs, ys, m, k), n, m, k, Dot(xs, ys), Sum(xs), Sum(ys), Covariance(xs, ys));
  }

  lemma MeanTimes(xs: seq<real>)
    requires xs != []
    ensures Mean(xs) * |xs| as real == Sum(xs)
  {
    Quotient(Sum(xs), |xs| as real);
  }

  /** `x` times the square of `n`. */
  function Squared(x: real, n: real): real { x * (n * n) }

  function Fourth(n: real): real { (n * n) * (n * n) }

  lemma FourthPositive(n: real)
    requires n > 0.0
    ensures Fourth(n) > 0.0
  {
    PositiveProduct(n, n, n * n);
    PositiveProduct(n * n, n * n, Fourth(n));
  }

  function CoSum(n: real, AB: real, A: real, B: real): real { n * AB - A * B }

  lemma Centred(d: real, n: real, m: real, k: real, dot: real, sx: real, sy: real, c: real)
    requires n > 0.0 && m * n == sx && k * n == sy && c * n == d
    requires d == ((dot + By(-m)(sy)) + By(-k)(sx)) + By(m * k)(n)
    ensures Squared(c, n) == CoSum(n, dot, sx, sy)
  {
    assert n * (m * sy) == sx * sy;
    assert n * (k * sx) == sx * sy;
    assert n * (m * k * n) == (m * n) * (k * n) == sx * sy;
    assert c * (n * n) == n * d;
    assert n * d == n * dot - n * (m * sy) - n * (k * sx) + n * (m * k * n);
  }

  lemma MeansInSums(p: real, q: real, n: real, A: real, B: real)
    requires p * n == A && q * n == B
    ensures Squared(p * q, n) == A * B && Squared(Square(p), n) == A * A && Squared(Square(q), n) == B * B
  {
    assert (p * q) * (n * n) == (p * n) * (q * n);
    assert (p * p) * (n * n) == (p * n) * (p * n);
    assert (q * q) * (n * n) == (q * n) * (q * n);
  }

  lemma Adds(x: real, y: real, n: real)
    ensures Squared(x + y, n) == Squared(x, n) + Squared(y, n) && Squared(2.0 * x, n) == 2.0 * Squared(x, n)
  {
    var s := n * n;
    assert (x + y) * s == x * s + y * s;
  }

  /** A ratio does not change when numerator and denominator are multiplied by the same number. */
  lemma Reduce(top: real, bottom: real, s: real, Top: real, Bottom: real)
    requires bottom > 0.0 && s > 0.0 && Top == top * s && Bottom == bottom * s
    ensures Bottom > 0.0 && top / bottom == Top / Bottom
  {
    PositiveProduct(bottom, s, Bottom);
    var r := top / bottom;
    assert r * bottom == top;
    assert r * Bottom == r * (bottom * s) == (r * bottom) * s == Top;
  }

  lemma ProductScales(x: real, y: real, n: real)
    ensures Squared(x, n) * Squared(y, n) == (x * y) * Fourth(n)
  {
    var s := n * n;
    assert (x * s) * (y * s) == (x * y) * (s * s);
  }

  lemma Constants()
    ensures C1 == 6.5025 && C2 == 58.5225
  {}

  lemma TopInSums(p: real, q: real, c: real, n: real, A: real, B: real, AB: real)
    requires Squared(p * q, n) == A * B && Squared(c, n) == CoSum(n, AB, A, B)
    ensures Top(p, q, c) * Fourth(n) == MomentTop(n, A, B, AB)
  {
    Constants();
    var u, v := 2.0 * p * q, 2.0 * c;
    assert u == 2.0 * (p * q);
    Adds(p * q, 0.0, n);
    Adds(c, 0.0, n);
    Adds(u, C1, n);
    Adds(v, C2, n);
    ProductScales(u + C1, v + C2, n);
    assert Squared(u + C1, n) == 2.0 * (A * B) + 6.5025 * (n * n);
    assert Squared(v + C2, n) == 2.0 * (n * AB - A * B) + 58.5225 * (n * n);
  }

  lemma BottomInSums(p: real, q: real, vx: real, vy: real, n: real, A: real, B: real, AA: real, BB: real)
    requires Squared(Square(p), n) == A * A && Squared(Square(q), n) == B * B
    requires Squared(vx, n) == CoSum(n, AA, A, A) && Squared(vy, n) == CoSum(n, BB, B, B)
    ensures Bottom(p, q, vx, vy) * Fourth(n) == MomentBottom(n, A, B, AA, BB)
  {
    Constants();
    Adds(Square(p), Square(q), n);
    Adds(Square(p) + Square(q), C1, n);
    Adds(vx, vy, n);
    Adds(vx + vy, C2, n);
    ProductScales(Square(p) + Square(q) + C1, vx + vy + C2, n);
    assert Squared(Square(p) + Square(q) + C1, n) == A * A + B * B + 6.5025 * (n * n);
    assert Squared(vx + vy + C2, n) == (n * AA - A * A) + (n * BB - B * B) + 58.5225 * (n * n);
  }

  function SampleMoments(xs: seq<real>, ys: seq<real>): Moments
    requires |xs| == |ys|
  {
    Moments(|xs| as real, Sum(xs), Sum(ys), Dot(xs, xs), Dot(ys, ys), Dot(xs, ys))
  }

  /** Means, covariance and variances that belong to the sums. */
  predicate Belong(p: real, q: real, c: real, vx: real, vy: real, m: Moments) {
    && Squared(p * q, m.n) == m.A * m.B && Squared(Square(p), m.n) == m.A * m.A && Squared(Square(q), m.n) == m.B * m.B
    && Squared(c, m.n) == CoSum(m.n, m.AB, m.A, m.B)
    && Squared(vx, m.n) == CoSum(m.n, m.AA, m.A, m.A) && Squared(vy, m.n) == CoSum(m.n, m.BB, m.B, m.B)
  }

  lemma StatisticsBelong(xs: seq<real>, ys: seq<real>)
    requires |xs| == |ys| > 0
    ensures Belong(Mean(xs), Mean(ys), Covariance(xs, ys), Variance(xs), Variance(ys), SampleMoments(xs, ys))
  {
    var n, p, q := |xs| as real, Mean(xs), Mean(ys);
    Quotient(Sum(xs), n);
    Quotient(Sum(ys), n);
    MeansInSums(p, q, n, Sum(xs), Sum(ys));
    CovarianceInSums(xs, ys);
    CovarianceInSums(xs, xs);
    CovarianceInSums(ys, ys);
  }

  lemma MomentsDecide(p: real, q: real, c: real, vx: real, vy: real, m: Moments)
    requires m.n > 0.0 && Bottom(p, q, vx, vy) > 0.0 && Belong(p, q, c, vx, vy, m)
    ensures IsProper(m) && Clamp(Top(p, q, c) / Bottom(p, q, vx, vy)) == MomentScore(m)
  {
    FourthPositive(m.n);
    TopInSums(p, q, c, m.n, m.A, m.B, m.AB);
    BottomInSums(p, q, vx, vy, m.n, m.A, m.B, m.AA, m.BB);
    Reduce(Top(p, q, c), Bottom(p, q, vx, vy), Fourth(m.n), MomentTop(m.n, m.A, m.B, m.AB),
           MomentBottom(m.n, m.A, m.B, m.AA, m.BB));
  }

  lemma ScoreInSums(xs: seq<real>, ys: seq<real>)
    requires |xs| == |ys| > 0 && NonNegative(xs) && NonNegative(ys)
    ensures IsProper(SampleMoments(xs, ys)) && Score(xs, ys) == MomentScore(SampleMoments(xs, ys))
  {
    RatioBounds(xs, ys);
    StatisticsBelong(xs, ys);
    MomentsDecide(Mean(xs), Mean(ys), Covariance(xs, ys), Variance(xs), Variance(ys), SampleMoments(xs, ys));
  }

  // ----- sums of samples are sums over pixels --------------------------------------------

  lemma {:induction false} RowFold(x: seq<Pixel>, y: seq<Pixel>, n: nat, f: (int, int) -> int, g: (real, real) -> real)
    requires n <= |x| && n <= |y| && forall u: int, v: int :: f(u, v) as real == g(u as real, v as real)
    ensures RowSum(x, y, n, f) as real == Fold(Row(x[..n]), Row(y[..n]), g)
  {
    if n > 0 {
      RowFold(x, y, n - 1, f, g);
      var u, v := [x[n - 1] as real], [y[n - 1] as real];
      assert Row(x[..n]) == Row(x[..n - 1]) + u && Row(y[..n]) == Row(y[..n - 1]) + v;
      assert u[1..] == [] && v[1..] == [];
      FoldSplit(Row(x[..n - 1]), Row(y[..n - 1]), u, v, g);
    }
  }

  lemma {:induction false} SamplesSplit(a: Grid<Pixel>, row: seq<Pixel>)
    ensures Samples(a + [row]) == Samples(a) + Row(row)
  {
    if a == [] {
      assert a + [row] == [row] && [row][1..] == [];
    } else {
      SamplesSplit(a[1..], row);
      assert (a + [row])[1..] == a[1..] + [row];
    }
  }

  lemma RowsApart(a: Grid<Pixel>, b: Grid<Pixel>, width: nat, x: seq<Pixel>, y: seq<Pixel>, f: (int, int) -> int, g: (real, real) -> real)
    requires |a| == |b| && forall i :: 0 <= i < |a| ==> |a[i]| == |b[i]| == width
    requires |x| == |y| == width && forall u: int, v: int :: f(u, v) as real == g(u as real, v as real)
    requires |Samples(a)| == |Samples(b)| && GridSum(a, b, |a|, width, f) as real == Fold(Samples(a), Samples(b), g)
    ensures |Samples(a + [x])| == |Samples(b + [y])|
    ensures GridSum(a, b, |a|, width, f) as real + RowSum(x, y, width, f) as real == Fold(Samples(a + [x]), Samples(b + [y]), g)
  {
    SamplesSplit(a, x);
    SamplesSplit(b, y);
    FoldSplit(Samples(a), Samples(b), Row(x), Row(y), g);
    assert x[..width] == x && y[..width] == y;
    RowFold(x, y, width, f, g);
  }

  /** The sums over a grid are sums over its samples. */
  lemma {:induction false} GridFold(a: Grid<Pixel>, b: Grid<Pixel>, width: nat, f: (int, int) -> int, g: (real, real) -> real)
    requires |a| == |b| && forall i :: 0 <= i < |a| ==> |a[i]| == |b[i]| == width
    requires forall u: int, v: int :: f(u, v) as real == g(u as real, v as real)
    ensures |Samples(a)| == |Samples(b)| == |a| * width
    ensures GridSum(a, b, |a|, width, f) as real == Fold(Samples(a), Samples(b), g)
    decreases |a|
  {
    SamplesLength(a, width);
    SamplesLength(b, width);
    if a != [] {
      var n := |a| - 1;
      GridFold(a[..n], b[..n], width, f, g);
      SameGridSum(a, b, a[..n], b[..n], n, width, f);
      RowsApart(a[..n], b[..n], width, a[n], b[n], f, g);
      assert a == a[..n] + [a[n]] && b == b[..n] + [b[n]];
    }
  }

  lemma {:induction false} SameRowSum(x: seq<Pixel>, y: seq<Pixel>, u: seq<Pixel>, v: seq<Pixel>, n: nat, f: (int, int) -> int)
    requires n <= |x| && n <= |y| && n <= |u| && n <= |v|
    requires forall j :: 0 <= j < n ==> x[j] == u[j] && y[j] == v[j]
    ensures RowSum(x, y, n, f) == RowSum(u, v, n, f)
  {
    if n > 0 {
      SameRowSum(x, y, u, v, n - 1, f);
    }
  }

  lemma {:induction false} SameGridSum(a: Grid<Pixel>, b: Grid<Pixel>, p: Grid<Pixel>, q: Grid<Pixel>, height: nat, width: nat,
                                       f: (int, int) -> int)
    requires height <= |a| && height <= |b| && height <= |p| && height <= |q|
    requires forall i :: 0 <= i < height ==> width <= |a[i]| && width <= |b[i]| && width <= |p[i]| && width <= |q[i]|
    requires forall i, j :: 0 <= i < height && 0 <= j < width ==> a[i][j] == p[i][j] && b[i][j] == q[i][j]
    ensures GridSum(a, b, height, width, f) == GridSum(p, q, height, width, f)
  {
    if height > 0 {
      SameGridSum(a, b, p, q, height - 1, width, f);
      SameRowSum(a[height - 1], b[height - 1], p[height - 1], q[height - 1], width, f);
    }
  }

  lemma CroppedSum(a: Grid<Pixel>, b: Grid<Pixel>, height: nat, width: nat, f: (int, int) -> int, g: (real, real) -> real)
    requires IsGrid(a) && IsGrid(b) && height == Min(|a|, |b|) && width == Min(|a[0]|, |b[0]|)
    requires forall u: int, v: int :: f(u, v) as real == g(u as real, v as real)
    ensures var xs, ys := Samples(Crop(a, b)), Samples(Crop(b, a));
            |xs| == |ys| == height * width && Fold(xs, ys, g) == GridSum(a, b, height, width, f) as real
    ensures var xs := Samples(Crop(a, b)); Fold(xs, xs, g) == GridSum(a, a, height, width, f) as real
    ensures var ys := Samples(Crop(b, a)); Fold(ys, ys, g) == GridSum(b, b, height, width, f) as real
  {
    var p, q := Crop(a, b), Crop(b, a);
    SameGridSum(a, b, p, q, height, width, f);
    SameGridSum(a, a, p, p, height, width, f);
    SameGridSum(b, b, q, q, height, width, f);
    GridFold(p, q, width, f, g);
    GridFold(p, p, width, f, g);
    GridFold(q, q, width, f, g);
  }

  lemma ProductCast()
    ensures forall u: int, v: int :: PRODUCT(u, v) as real == Times()(u as real, v as real)
  {
    forall u: int, v: int ensures PRODUCT(u, v) as real == Times()(u as real, v as real) {
      assert (u * v) as real == u as real * v as real;
    }
  }

  /** The samples compared have the moments of the pixels the images share. */
  lemma CommonMoments(a: Grid<Pixel>, b: Grid<Pixel>, height: nat, width: nat)
    requires IsGrid(a) && IsGrid(b) && height == Min(|a|, |b|) && width == Min(|a[0]|, |b[0]|)
    ensures var xs, ys := Samples(Crop(a, b)), Samples(Crop(b, a));
            |xs| == |ys| && SampleMoments(xs, ys) == MomentsOf(a, b, height, width)
  {
    ProductCast();
    CroppedSum(a, b, height, width, VALUE, Left());
    CroppedSum(a, b, height, width, PRODUCT, Times());
    FoldSums(Samples(Crop(a, b)), Samples(Crop(a, b)));
    FoldSums(Samples(Crop(b, a)), Samples(Crop(b, a)));
  }

  // ----- the main results ----------------------------------------------------------------

  /** The score of any two images is the clamped ratio of two polynomials in the number of pixels
      they share and in the plain sums, sums of squares and sum of products of these pixels. */
  lemma SsimInSums(a: Grid<Pixel>, b: Grid<Pixel>)
    requires IsGrid(a) && IsGrid(b)
    ensures IsProper(SharedMoments(a, b)) && ComputeSsim(a, b) == MomentScore(SharedMoments(a, b))
  {
    var height, width := Min(|a|, |b|), Min(|a[0]|, |b[0]|);
    CommonMoments(a, b, height, width);
    SamplesLength(Crop(a, b), width);
    SamplesLength(Crop(b, a), width);
    ScoreInSums(Samples(Crop(a, b)), Samples(Crop(b, a)));
  }

  lemma {:induction false} StackedSum(a: Grid<Pixel>, b: Grid<Pixel>, height: nat, width: nat, more: nat, f: (int, int) -> int)
    requires IsGrid(a) && IsGrid(b) && height == |a| == |b| && width <= |a[0]| && width <= |b[0]| && more <= height
    ensures GridSum(a + a, b + b, height + more, width, f) == GridSum(a, b, height, width, f) + GridSum(a, b, more, width, f)
  {
    if more == 0 {
      SameGridSum(a + a, b + b, a, b, height, width, f);
    } else {
      StackedSum(a, b, height, width, more - 1, f);
      assert (a + a)[height + more - 1] == a[more - 1] && (b + b)[height + more - 1] == b[more - 1];
    }
  }

  function Twice(m: Moments): Moments {
    Moments(2.0 * m.n, 2.0 * m.A, 2.0 * m.B, 2.0 * m.AA, 2.0 * m.BB, 2.0 * m.AB)
  }

  lemma TwiceTheSums(m: Moments)
    requires IsProper(m)
    ensures IsProper(Twice(m)) && MomentScore(Twice(m)) == MomentScore(m)
  {
    TwiceTop(m.n, m.A, m.B, m.AB);
    TwiceBottom(m.n, m.A, m.B, m.AA, m.BB);
    Reduce(MomentTop(m.n, m.A, m.B, m.AB), MomentBottom(m.n, m.A, m.B, m.AA, m.BB), 16.0,
           MomentTop(2.0 * m.n, 2.0 * m.A, 2.0 * m.B, 2.0 * m.AB),
           MomentBottom(2.0 * m.n, 2.0 * m.A, 2.0 * m.B, 2.0 * m.AA, 2.0 * m.BB));
  }

  lemma FourTimes(x: real, y: real)
    ensures (2.0 * x) * (2.0 * y) == 4.0 * (x * y)
  {}

  lemma TwiceTop(n: real, A: real, B: real, AB: real)
    ensures MomentTop(2.0 * n, 2.0 * A, 2.0 * B, 2.0 * AB) == MomentTop(n, A, B, AB) * 16.0
  {
    FourTimes(A, B);
    FourTimes(n, n);
    FourTimes(n, AB);
    var x, y := 2.0 * (A * B) + 6.5025 * (n * n), 2.0 * (n * AB - A * B) + 58.5225 * (n * n);
    assert (4.0 * x) * (4.0 * y) == (x * y) * 16.0;
  }

  lemma TwiceBottom(n: real, A: real, B: real, AA: real, BB: real)
    ensures MomentBottom(2.0 * n, 2.0 * A, 2.0 * B, 2.0 * AA, 2.0 * BB) == MomentBottom(n, A, B, AA, BB) * 16.0
  {
    FourTimes(A, A);
    FourTimes(B, B);
    FourTimes(n, n);
    FourTimes(n, AA);
    FourTimes(n, BB);
    var x, y := A * A + B * B + 6.5025 * (n * n), (n * AA - A * A) + (n * BB - B * B) + 58.5225 * (n * n);
    assert (4.0 * x) * (4.0 * y) == (x * y) * 16.0;
  }

  lemma StackedMoments(a: Grid<Pixel>, b: Grid<Pixel>, height: nat, width: nat)
    requires IsGrid(a) && IsGrid(b) && height == |a| == |b| && width <= |a[0]| && width <= |b[0]|
    ensures MomentsOf(a + a, b + b, height + height, width) == Twice(MomentsOf(a, b, height, width))
  {
    StackedSum(a, a, height, width, height, VALUE);
    StackedSum(b, b, height, width, height, VALUE);
    StackedSum(a, a, height, width, height, PRODUCT);
    StackedSum(b, b, height, width, height, PRODUCT);
    StackedSum(a, b, height, width, height, PRODUCT);
    assert (height + height) * width == 2 * (height * width);
  }

  lemma StackedShare(a: Grid<Pixel>, b: Grid<Pixel>)
    requires IsGrid(a) && IsGrid(b) && |a| == |b|
    ensures IsGrid(a + a) && IsGrid(b + b) && SharedMoments(a + a, b + b) == Twice(SharedMoments(a, b))
  {
    StackedMoments(a, b, |a|, Min(|a[0]|, |b[0]|));
  }

  /** Repeating both images below themselves, so that every pixel counts twice, leaves the score as
      it is: it is a property of the distribution of pixels and not of their number. */
  lemma StackingKeepsScore(a: Grid<Pixel>, b: Grid<Pixel>)
    requires IsGrid(a) && IsGrid(b) && |a| == |b|
    ensures ComputeSsim(a + a, b + b) == ComputeSsim(a, b)
  {
    StackedShare(a, b);
    SsimInSums(a, b);
    SsimInSums(a + a, b + b);
    TwiceTheSums(SharedMoments(a, b));
  }
}
