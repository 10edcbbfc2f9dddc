/**
 * Pearson correlation sums and least-squares slopes, shared by
 * `lib/analysis/degree-days.ts`, `lib/analysis/regime-analysis.ts` and
 * `lib/analysis/feature-engineering.ts`, each of which wraps them in its own
 * guards.
 */
module Regression {
  import opened Series

  /** The three loop sums of a Pearson correlation: co-deviation and the two squared deviations. */
  datatype CorrelationSums = CorrelationSums(numerator: real, denomX: real, denomY: real)

  /**
   * The sums over the first `|x|` positions. As in the source helpers, the
   * mean of `y` divides the sum of ALL of `y` by `|x|`.
   */
  function Sums(x: seq<real>, y: seq<real>): (r: CorrelationSums)
    requires 0 < |x| <= |y|
    ensures 0.0 <= r.denomX && 0.0 <= r.denomY
    ensures Sq(r.numerator) <= Product(r)
  {
    var n := |x| as real;
    var dx := Deviations(x, Sum(x) / n);
    var dy := Deviations(y[..|x|], Sum(y) / n);
    SumsOf(dx, dy)
  }

  /** The sums of two deviation series: the squared ones are non-negative and bound the co-deviation. */
  function SumsOf(dx: seq<real>, dy: seq<real>): (r: CorrelationSums)
    requires |dx| == |dy|
    ensures 0.0 <= r.denomX && 0.0 <= r.denomY
    ensures Sq(r.numerator) <= Product(r)
  {
    DotSelfNonNegative(dx);
    DotSelfNonNegative(dy);
    CauchySchwarz(dx, dy);
    CorrelationSums(Dot(dx, dy), Dot(dx, dx), Dot(dy, dy))
  }

  /** On aligned series the sums are those of the two deviation series from their means. */
  lemma SumsAligned(x: seq<real>, y: seq<real>)
    requires 0 < |x| == |y|
    ensures Sums(x, y).denomX == SumSqDev(x, Mean(x))
    ensures Sums(x, y).denomY == SumSqDev(y, Mean(y))
  {
    assert y[..|x|] == y;
    DotDeviations(x, Mean(x));
    DotDeviations(y, Mean(y));
  }

  /** Swapping aligned series swaps the squared deviations and keeps the co-deviation. */
  lemma SumsSymmetric(x: seq<real>, y: seq<real>)
    requires 0 < |x| == |y|
    ensures Sums(y, x) == CorrelationSums(Sums(x, y).numerator, Sums(x, y).denomY, Sums(x, y).denomX)
    ensures Product(Sums(y, x)) == Product(Sums(x, y))
  {
    SumsSwap(x, y);
    ProductSwap(Sums(x, y));
  }

  lemma SumsSwap(x: seq<real>, y: seq<real>)
    requires 0 < |x| == |y|
    ensures Sums(y, x) == CorrelationSums(Sums(x, y).numerator, Sums(x, y).denomY, Sums(x, y).denomX)
  {
    assert y[..|x|] == y && x[..|y|] == x;
    DotSymmetric(Deviations(x, Mean(x)), Deviations(y, Mean(y)));
  }

  lemma ProductSwap(s: CorrelationSums)
    ensures Product(CorrelationSums(s.numerator, s.denomY, s.denomX)) == Product(s)
  {
  }

  /** A constant series has no squared deviation. */
  lemma SumsConstant(x: seq<real>, y: seq<real>)
    requires 0 < |x| == |y|
    requires Constant(x, x[0]) || Constant(y, y[0])
    ensures Product(Sums(x, y)) == 0.0
  {
    SumsAligned(x, y);
    if Constant(x, x[0]) {
      MeanConstant(x, x[0]);
      SumSqDevZero(x, Mean(x));
    } else {
      MeanConstant(y, y[0]);
      SumSqDevZero(y, Mean(y));
    }
  }

  /** The product under the root of the correlation's denominator. */
  function Product(s: CorrelationSums): real
  {
    s.denomX * s.denomY
  }

  /** `numerator / sqrt(product)` for a non-zero root: a value in [-1, 1]. */
  function Ratio(sqrt: real -> real, numerator: real, product: real): (r: real)
    requires IsSqrt(sqrt)
    requires 0.0 <= product && Sq(numerator) <= product && sqrt(product) != 0.0
    ensures -1.0 <= r <= 1.0
    ensures r * sqrt(product) == numerator
  {
    RatioBounded(numerator, sqrt(product), product);
    numerator / sqrt(product)
  }

  /** A series paired with itself: the co-deviation is its own squared deviation, positive unless it is constant. */
  lemma SumsSelf(x: seq<real>)
    requires 0 < |x| && !Constant(x, x[0])
    ensures var s := Sums(x, x);
      s.numerator == s.denomX == s.denomY == SumSqDev(x, Mean(x)) && 0.0 < s.denomX
  {
    SumsAligned(x, x);
    assert x[..|x|] == x;
    DotDeviations(x, Mean(x));
    SumSqDevNonNegative(x, Mean(x));
    SumSqDevZero(x, Mean(x));
  }

  /**
   * Pairing a series with a line through it scales the deviations of the
   * second series by the line's slope `a`.
   */
  lemma SumsAffine(x: seq<real>, a: real, b: real)
    requires 0 < |x|
    ensures var s, d := Sums(x, Affine(x, a, b)), Sums(x, x).denomX;
      s.denomX == d && s.numerator == a * d && s.denomY == a * (a * d)
  {
    var dx := Deviations(x, Mean(x));
    SumsAsDeviations(x, x);
    SumsOfLine(x, a, b);
    SumsOfScaledSeries(dx, a);
  }

  /** Against a line through it, a series' sums are those of its deviations and their multiples by the slope. */
  lemma SumsOfLine(x: seq<real>, a: real, b: real)
    requires 0 < |x|
    ensures Sums(x, Affine(x, a, b)) == SumsOf(Deviations(x, Mean(x)), Scaled(Deviations(x, Mean(x)), a))
  {
    var y := Affine(x, a, b);
    SumsAsDeviations(x, y);
    MeanAffine(x, a, b);
    AffineDeviations(x, a, b, Mean(x), Mean(y));
  }

  /** On aligned series the sums are those of the deviations from the two means. */
  lemma SumsAsDeviations(x: seq<real>, y: seq<real>)
    requires 0 < |x| == |y|
    ensures Sums(x, y) == SumsOf(Deviations(x, Mean(x)), Deviations(y, Mean(y)))
  {
    assert y[..|x|] == y;
  }

  /** The mean of a line's values is the line at the mean. */
  lemma MeanAffine(x: seq<real>, a: real, b: real)
    requires 0 < |x|
    ensures Mean(Affine(x, a, b)) == a * Mean(x) + b
  {
    SumAffine(x, a, b);
    MeanOfCombination(Sum(x), |x| as real, a, b);
  }

  /** The deviations of a line's values from the line at `m` are the slope times those of its inputs from `m`. */
  lemma AffineDeviations(x: seq<real>, a: real, b: real, m: real, c: real)
    requires c == a * m + b
    ensures Deviations(Affine(x, a, b), c) == Scaled(Deviations(x, m), a)
  {
    AffineValues(x, a, b);
    LineDeviations(x, Affine(x, a, b), a, b, m, c);
  }

  lemma SumsOfScaledSeries(dx: seq<real>, a: real)
    ensures var d := Dot(dx, dx);
      SumsOf(dx, Scaled(dx, a)) == CorrelationSums(a * d, d, a * (a * d))
  {
    SumsOfScaled(dx, Scaled(dx, a), a);
  }

  /** Every value of `v` times `a`. */
  function Scaled(v: seq<real>, a: real): (r: seq<real>)
    ensures |r| == |v| && forall i :: 0 <= i < |v| ==> r[i] == a * v[i]
  {
    seq(|v|, i requires 0 <= i < |v| => a * v[i])
  }

  /** Pointwise form of `AffineDeviations` for any series on the line. */
  lemma LineDeviations(x: seq<real>, y: seq<real>, a: real, b: real, m: real, c: real)
    requires |y| == |x| && forall i :: 0 <= i < |x| ==> y[i] == a * x[i] + b
    requires c == a * m + b
    ensures Deviations(y, c) == Scaled(Deviations(x, m), a)
  {
    var dx, dy := Deviations(x, m), Deviations(y, c);
    forall i | 0 <= i < |dx| ensures dy[i] == Scaled(dx, a)[i] {
      LineDeviation(dy[i], x[i], m, a, b, dx[i], c);
    }
  }

  /** Every value of `Affine` is on the line. */
  lemma AffineValues(x: seq<real>, a: real, b: real)
    ensures forall i :: 0 <= i < |x| ==> Affine(x, a, b)[i] == a * x[i] + b
  {
    forall i | 0 <= i < |x| ensures Affine(x, a, b)[i] == a * x[i] + b {
      AffineAt(x, a, b, i);
    }
  }

  lemma LineDeviation(dy: real, t: real, m: real, a: real, b: real, dx: real, c: real)
    requires dy == (a * t + b) - c && c == a * m + b && dx == t - m
    ensures dy == a * dx
  {
  }

  /** Deviations scaled by `a`: the co-deviation scales by `a`, the second square sum by `a^2`. */
  lemma SumsOfScaled(dx: seq<real>, dy: seq<real>, a: real)
    requires |dx| == |dy| && forall i :: 0 <= i < |dx| ==> dy[i] == a * dx[i]
    ensures var d := Dot(dx, dx);
      SumsOf(dx, dy) == CorrelationSums(a * d, d, a * (a * d))
  {
    DotScaled(dx, dx, dy, a);
    DotScaled(dy, dx, dy, a);
    DotSymmetric(dx, dy);
  }

  /** The mean of `a * t + b` is `a` times the mean of `t`, plus `b`. */
  lemma MeanOfCombination(sum: real, n: real, a: real, b: real)
    requires 0.0 < n
    ensures Combine(a, sum, b, n) / n == a * (sum / n) + b
  {
    var q := sum / n;
    assert sum == q * n;
    assert Combine(a, sum, b, n) == (a * q + b) * n;
  }

  /** Scaling one side of a product by `a` scales the product by `a`. */
  lemma {:induction false} DotScaled(u: seq<real>, v: seq<real>, w: seq<real>, a: real)
    requires |u| == |v| == |w| && forall i :: 0 <= i < |v| ==> w[i] == a * v[i]
    ensures Dot(u, w) == a * Dot(u, v)
  {
    if |u| > 0 {
      DotScaled(u[1..], v[1..], w[1..], a);
      assert Mul(u[0], w[0]) == a * Mul(u[0], v[0]);
    }
  }

  /** The ratio of a positive square sum to itself is 1. */
  lemma RatioSelf(sqrt: real -> real, d: real)
    requires IsSqrt(sqrt) && 0.0 < d
    ensures sqrt(Product(CorrelationSums(d, d, d))) == d
    ensures Ratio(sqrt, d, Product(CorrelationSums(d, d, d))) == 1.0
  {
    var p := Product(CorrelationSums(d, d, d));
    assert p == Sq(d);
    SqrtOf(sqrt, p, d);
    var r := Ratio(sqrt, d, p);
    assert r * sqrt(p) == d;
    Cancel(r, 1.0, d);
  }

  /** The correlation ratio of a line with slope `a`: 1 for a rising line, -1 for a falling one. */
  lemma RatioOfLine(sqrt: real -> real, d: real, a: real)
    requires IsSqrt(sqrt) && 0.0 < d && a != 0.0
    ensures var s := CorrelationSums(a * d, d, a * (a * d));
      Sq(s.numerator) <= Product(s) && sqrt(Product(s)) != 0.0
      && Ratio(sqrt, s.numerator, Product(s)) == if 0.0 < a then 1.0 else -1.0
  {
    var s := CorrelationSums(a * d, d, a * (a * d));
    var root := if 0.0 < a then a * d else -(a * d);
    MulPositive(root, root);
    assert Product(s) == Sq(root);
    SqrtOf(sqrt, Product(s), root);
    var r := Ratio(sqrt, s.numerator, Product(s));
    Cancel(r, if 0.0 < a then 1.0 else -1.0, root);
  }

  /** The least-squares denominator `n * sum x^2 - (sum x)^2`. */
  function LeastSquaresDenominator(x: seq<real>): real
  {
    |x| as real * Dot(x, x) - Sq(Sum(x))
  }

  /** The denominator vanishes exactly when all values are equal. */
  lemma LeastSquaresDenominatorZero(x: seq<real>)
    requires |x| > 0
    ensures LeastSquaresDenominator(x) == 0.0 <==> Constant(x, x[0])
  {
    if Constant(x, x[0]) {
      DenominatorOfConstant(x);
    }
    if LeastSquaresDenominator(x) == 0.0 {
      ConstantOfDenominator(x);
    }
  }

  lemma DenominatorOfConstant(x: seq<real>)
    requires |x| > 0 && Constant(x, x[0])
    ensures LeastSquaresDenominator(x) == 0.0
  {
    var n, t, d, q := |x| as real, Sum(x), Dot(x, x), SumSqDev(x, x[0]);
    SumSqDevZero(x, x[0]);
    SumConstant(x, x[0]);
    assert t - n * x[0] == 0.0;
    DenominatorShift(x, x[0], n, t, d, q);
  }

  lemma ConstantOfDenominator(x: seq<real>)
    requires |x| > 0 && LeastSquaresDenominator(x) == 0.0
    ensures Constant(x, x[0])
  {
    var n, t, d := |x| as real, Sum(x), Dot(x, x);
    assert n * d - Sq(t) == 0.0;
    MeanExists(x);
    var c :| IsMean(x, c);
    assert t - n * c == 0.0;
    var q := SumSqDev(x, c);
    DenominatorShift(x, c, n, t, d, q);
    VanishingShift(n, q, d, t, c);
    SumSqDevZero(x, c);
  }

  /** For any centre `c`: n * sum (x - c)^2 is the denominator plus (sum x - n c)^2. */
  lemma DenominatorShift(x: seq<real>, c: real, n: real, t: real, d: real, q: real)
    requires n == |x| as real && t == Sum(x) && d == Dot(x, x) && q == SumSqDev(x, c)
    ensures n * q == n * d - Sq(t) + Sq(t - n * c)
  {
    SumSqDevExpand(x, c);
    assert q == d - 2.0 * c * t + n * Sq(c);
    ShiftAlgebra(n, c, t, d, q);
  }

  lemma ShiftAlgebra(n: real, c: real, t: real, d: real, q: real)
    requires q == d - 2.0 * c * t + n * Sq(c)
    ensures n * q == n * d - Sq(t) + Sq(t - n * c)
  {
    assert Sq(t - n * c) == Sq(t) - 2.0 * n * c * t + n * n * Sq(c);
  }

  lemma VanishingShift(n: real, q: real, d: real, t: real, c: real)
    requires 0.0 < n && n * d - Sq(t) == 0.0 && t - n * c == 0.0
    requires n * q == n * d - Sq(t) + Sq(t - n * c)
    ensures q == 0.0
  {
    assert n * q == 0.0;
  }

  /** `a * t + b` for every `t` in `x`. */
  function Affine(x: seq<real>, a: real, b: real): (r: seq<real>)
    ensures |r| == |x|
  {
    if |x| == 0 then []
    else [Mul(a, x[0]) + b] + Affine(x[1..], a, b)
  }

  lemma AffineTail(x: seq<real>, a: real, b: real)
    requires |x| > 0
    ensures Affine(x, a, b)[1..] == Affine(x[1..], a, b)
    ensures Affine(x, a, b)[0] == Mul(a, x[0]) + b
  {
  }

  lemma {:induction false} AffineAt(x: seq<real>, a: real, b: real, i: nat)
    requires i < |x|
    ensures Affine(x, a, b)[i] == a * x[i] + b
  {
    if i > 0 {
      AffineAt(x[1..], a, b, i - 1);
    }
  }

  lemma {:induction false} SumAffine(x: seq<real>, a: real, b: real)
    ensures Sum(Affine(x, a, b)) == Combine(a, Sum(x), b, |x| as real)
  {
    if |x| > 0 {
      AffineTail(x, a, b);
      SumAffine(x[1..], a, b);
    }
  }

  lemma {:induction false} DotAffine(x: seq<real>, a: real, b: real)
    ensures Dot(x, Affine(x, a, b))
         == Combine(a, Dot(x, x), b, Sum(x))
  {
    if |x| > 0 {
      var h, tl := x[0], x[1..];
      DotAffineHead(x, a, b);
      DotAffine(tl, a, b);
      DotAffineStep(Dot(x, Affine(x, a, b)), Dot(tl, Affine(tl, a, b)), h, Dot(tl, tl), Sum(tl),
        Dot(x, x), Sum(x), a, b);
    }
  }

  /** One element of the induction: the head's contribution joins the tail's combination. */
  lemma DotAffineStep(e: real, e1: real, h: real, d1: real, s1: real, d: real, s: real, a: real, b: real)
    requires e == Mul(h, Mul(a, h) + b) + e1 && e1 == Combine(a, d1, b, s1)
    requires d == Mul(h, h) + d1 && s == h + s1
    ensures e == Combine(a, d, b, s)
  {
    assert Mul(h, Mul(a, h) + b) == a * Mul(h, h) + b * h;
  }

  lemma DotAffineHead(x: seq<real>, a: real, b: real)
    requires |x| > 0
    ensures Dot(x, Affine(x, a, b)) == Mul(x[0], Mul(a, x[0]) + b) + Dot(x[1..], Affine(x[1..], a, b))
  {
    AffineTail(x, a, b);
  }

  /** The linear combination `a * x + b * y`. */
  function Combine(a: real, x: real, b: real, y: real): real
  {
    a * x + b * y
  }

  /** `num / den` for a non-zero `den`: the solution of `q * den == num`. */
  function Quotient(num: real, den: real): (q: real)
    requires den != 0.0
    ensures q * den == num
  {
    num / den
  }

  /**
   * The least-squares slope `(n sxy - sx sy) / (n sxx - sx^2)` from the
   * sums of a fit: the count, the sums of `x` and `y`, of `x^2` and of `xy`.
   */
  function SlopeFromSums(n: real, sx: real, sy: real, sxx: real, sxy: real): real
    requires n * sxx - Sq(sx) != 0.0
  {
    Quotient(n * sxy - sx * sy, n * sxx - Sq(sx))
  }

  /** The slope solves the normal equation `slope * (n sxx - sx^2) == n sxy - sx sy`. */
  lemma SlopeFromSumsSolves(n: real, sx: real, sy: real, sxx: real, sxy: real)
    requires n * sxx - Sq(sx) != 0.0
    ensures SlopeFromSums(n, sx, sy, sxx, sxy) * (n * sxx - Sq(sx)) == n * sxy - sx * sy
  {
  }

  /** Points on the line `a * t + b` have slope `a`. */
  lemma SlopeOfLine(n: real, sx: real, sxx: real, a: real, b: real)
    requires n * sxx - Sq(sx) != 0.0
    ensures SlopeFromSums(n, sx, Combine(a, sx, b, n), sxx, Combine(a, sxx, b, sx)) == a
  {
    var den := n * sxx - Sq(sx);
    assert n * Combine(a, sxx, b, sx) - sx * Combine(a, sx, b, n) == a * den by {
      assert sx * (a * sx) == a * (sx * sx);
    }
    Cancel(SlopeFromSums(n, sx, Combine(a, sx, b, n), sxx, Combine(a, sxx, b, sx)), a, den);
  }

  /** A non-zero factor cancels. */
  lemma Cancel(p: real, q: real, d: real)
    requires d != 0.0 && p * d == q * d
    ensures p == q
  {
  }
}
