/**
 * Shared arithmetic over index-aligned number series.
 *
 * JavaScript numbers are idealised as Dafny `real`s, so sums, means and the
 * additive identities of the analysis code are exact. `Math.sqrt` has no
 * counterpart here: every operation that takes a square root receives the
 * root as a parameter `sqrt` constrained by `IsSqrt`, and `Math.random()`
 * values are drawn from the subset type `Uniform`.
 *
 * Products go through `Mul` and squares through `Sq`, so that the solver
 * sees a square as a term with known sign rather than as a bare monomial.
 */
module Series {

  /** A value returned by `Math.random()`: a real in [0, 1). */
  type Uniform = u: real | 0.0 <= u < 1.0

  /** Product of two reals. */
  function Mul(a: real, b: real): real
  {
    a * b
  }

  /** Square of a real (`Math.pow(x, 2)` and `x * x` in the source). */
  function Sq(x: real): (r: real)
    ensures 0.0 <= r
  {
    Mul(x, x)
  }

  lemma MulPositive(a: real, b: real)
    requires (0.0 < a && 0.0 < b) || (a < 0.0 && b < 0.0)
    ensures 0.0 < Mul(a, b)
  {
  }

  /** A square is zero only at zero. */
  lemma SqPositive(x: real)
    ensures x != 0.0 ==> 0.0 < Sq(x)
  {
    if x != 0.0 {
      MulPositive(x, x);
    }
  }

  lemma MulLess(a: real, b: real, c: real, d: real)
    requires 0.0 <= c < a && 0.0 <= d < b
    ensures Mul(c, d) < Mul(a, b)
  {
    assert c * d <= c * b;
    assert c * b < a * b;
  }

  /** Squaring is strictly monotone on the non-negative reals. */
  lemma SqLess(x: real, y: real)
    requires 0.0 <= x < y
    ensures Sq(x) < Sq(y)
  {
    MulLess(y, y, x, x);
  }

  /** The binomial expansion of a squared difference. */
  lemma SqDiff(x: real, c: real)
    ensures Sq(x - c) == Sq(x) - 2.0 * c * x + Sq(c)
  {
    assert (x - c) * (x - c) == x * x - 2.0 * c * x + c * c;
  }

  lemma SqNegate(x: real)
    ensures Sq(-x) == Sq(x)
  {
  }

  /** `sqrt` behaves as the non-negative square root on non-negative reals. */
  ghost predicate IsSqrt(sqrt: real -> real) {
    forall x :: 0.0 <= x ==> 0.0 <= sqrt(x) && Sq(sqrt(x)) == x
  }

  /** The non-negative root is unique: any non-negative `y` whose square is `x` is `sqrt(x)`. */
  lemma SqrtOf(sqrt: real -> real, x: real, y: real)
    requires IsSqrt(sqrt)
    requires 0.0 <= y && Sq(y) == x
    ensures sqrt(x) == y
  {
    var s := sqrt(x);
    assert 0.0 <= s && Sq(s) == x;
    if s < y {
      SqLess(s, y);
    } else if y < s {
      SqLess(y, s);
    }
  }

  /** The root of a non-negative number is zero exactly when the number is. */
  lemma SqrtZero(sqrt: real -> real, x: real)
    requires IsSqrt(sqrt) && 0.0 <= x
    ensures sqrt(x) == 0.0 <==> x == 0.0
  {
    if x == 0.0 {
      SqrtOf(sqrt, 0.0, 0.0);
    }
  }

  /** Sum of a series (the `reduce((a, b) => a + b, 0)` of the source). */
  function Sum(s: seq<real>): real
  {
    if |s| == 0 then 0.0 else s[0] + Sum(s[1..])
  }

  /** Arithmetic mean; the source divides by the length, so the series must be non-empty. */
  function Mean(s: seq<real>): real
    requires |s| > 0
  {
    Sum(s) / |s| as real
  }

  /** Sum of squared deviations from a centre `c`. */
  function SumSqDev(s: seq<real>, c: real): real
  {
    if |s| == 0 then 0.0 else Sq(s[0] - c) + SumSqDev(s[1..], c)
  }

  /** Population variance: mean squared deviation from the mean. */
  function Variance(s: seq<real>): real
    requires |s| > 0
  {
    SumSqDev(s, Mean(s)) / |s| as real
  }

  /** Sum of squared differences of two aligned series. */
  function SumSqDiff(a: seq<real>, b: seq<real>): real
    requires |a| == |b|
  {
    if |a| == 0 then 0.0 else Sq(a[0] - b[0]) + SumSqDiff(a[1..], b[1..])
  }

  /** Sum of pairwise products of two aligned series. */
  function Dot(a: seq<real>, b: seq<real>): real
    requires |a| == |b|
  {
    if |a| == 0 then 0.0 else Mul(a[0], b[0]) + Dot(a[1..], b[1..])
  }

  /** The series shifted by `-c`. */
  function Deviations(s: seq<real>, c: real): (r: seq<real>)
    ensures |r| == |s|
    ensures forall i :: 0 <= i < |s| ==> r[i] == s[i] - c
  {
    seq(|s|, i requires 0 <= i < |s| => s[i] - c)
  }

  /** Smallest element (`Math.min(...s)` for a non-empty `s`). */
  function Min(s: seq<real>): (m: real)
    requires |s| > 0
    ensures m in s
    ensures forall i :: 0 <= i < |s| ==> m <= s[i]
  {
    if |s| == 1 then s[0]
    else
      var rest := Min(s[1..]);
      if s[0] <= rest then s[0] else rest
  }

  /** Largest element (`Math.max(...s)` for a non-empty `s`). */
  function Max(s: seq<real>): (m: real)
    requires |s| > 0
    ensures m in s
    ensures forall i :: 0 <= i < |s| ==> s[i] <= m
  {
    if |s| == 1 then s[0]
    else
      var rest := Max(s[1..]);
      if s[0] >= rest then s[0] else rest
  }

  /** Every element of `s` lies in [lo, hi]. */
  ghost predicate Within(s: seq<real>, lo: real, hi: real) {
    forall i :: 0 <= i < |s| ==> lo <= s[i] <= hi
  }

  /** Every element of `s` equals `c`. */
  ghost predicate Constant(s: seq<real>, c: real) {
    forall i :: 0 <= i < |s| ==> s[i] == c
  }

  lemma ConstantTail(s: seq<real>, c: real)
    requires |s| > 0
    ensures Constant(s, c) <==> s[0] == c && Constant(s[1..], c)
  {
    if s[0] == c && Constant(s[1..], c) {
      forall i | 1 <= i < |s| ensures s[i] == c {
        assert s[i] == s[1..][i - 1];
      }
    }
  }

  lemma {:induction false} SumAppend(a: seq<real>, b: seq<real>)
    ensures Sum(a + b) == Sum(a) + Sum(b)
  {
    if |a| == 0 {
      assert a + b == b;
    } else {
      assert (a + b)[1..] == a[1..] + b;
      SumAppend(a[1..], b);
    }
  }

  /** Summing left to right: the sum of a non-empty series is the sum of its prefix plus its last element. */
  lemma SumSnoc(s: seq<real>)
    requires |s| > 0
    ensures Sum(s) == Sum(s[..|s| - 1]) + s[|s| - 1]
  {
    assert s == s[..|s| - 1] + [s[|s| - 1]];
    SumAppend(s[..|s| - 1], [s[|s| - 1]]);
  }

  lemma {:induction false} SumBounds(s: seq<real>, lo: real, hi: real)
    requires Within(s, lo, hi)
    ensures |s| as real * lo <= Sum(s) <= |s| as real * hi
  {
    if |s| > 0 {
      SumBounds(s[1..], lo, hi);
    }
  }

  lemma {:induction false} SumConstant(s: seq<real>, c: real)
    requires Constant(s, c)
    ensures Sum(s) == |s| as real * c
  {
    if |s| > 0 {
      SumConstant(s[1..], c);
    }
  }

  lemma {:induction false} SumNonNegative(s: seq<real>)
    requires forall i :: 0 <= i < |s| ==> 0.0 <= s[i]
    ensures 0.0 <= Sum(s)
  {
    if |s| > 0 {
      SumNonNegative(s[1..]);
    }
  }

  /** Summing deviations from `c` subtracts `c` once per element. */
  lemma {:induction false} SumDeviations(s: seq<real>, c: real)
    ensures Sum(Deviations(s, c)) == Sum(s) - |s| as real * c
  {
    if |s| > 0 {
      assert Deviations(s, c)[1..] == Deviations(s[1..], c);
      SumDeviations(s[1..], c);
    }
  }

  /** A mean lies between any bounds of the series it averages. */
  lemma MeanWithin(s: seq<real>, lo: real, hi: real)
    requires |s| > 0 && Within(s, lo, hi)
    ensures lo <= Mean(s) <= hi
  {
    SumBounds(s, lo, hi);
    var n := |s| as real;
    assert Sum(s) / n >= (n * lo) / n;
    assert Sum(s) / n <= (n * hi) / n;
  }

  /** A mean lies between the smallest and largest element. */
  lemma MeanBetweenMinMax(s: seq<real>)
    requires |s| > 0
    ensures Min(s) <= Mean(s) <= Max(s)
  {
    MeanWithin(s, Min(s), Max(s));
  }

  lemma MeanConstant(s: seq<real>, c: real)
    requires |s| > 0 && Constant(s, c)
    ensures Mean(s) == c
  {
    SumConstant(s, c);
  }

  lemma {:induction false} SumSqDevNonNegative(s: seq<real>, c: real)
    ensures 0.0 <= SumSqDev(s, c)
  {
    if |s| > 0 {
      SumSqDevNonNegative(s[1..], c);
    }
  }

  /** Squared deviations from `c` vanish exactly on a series constant at `c`. */
  lemma {:induction false} SumSqDevZero(s: seq<real>, c: real)
    ensures SumSqDev(s, c) == 0.0 <==> Constant(s, c)
  {
    if |s| > 0 {
      SumSqDevZero(s[1..], c);
      SumSqDevNonNegative(s[1..], c);
      SqPositive(s[0] - c);
      ConstantTail(s, c);
    }
  }

  lemma VarianceNonNegative(s: seq<real>)
    requires |s| > 0
    ensures 0.0 <= Variance(s)
  {
    SumSqDevNonNegative(s, Mean(s));
  }

  /** A series has zero variance exactly when all its elements are equal. */
  lemma VarianceZero(s: seq<real>)
    requires |s| > 0
    ensures Variance(s) == 0.0 <==> Constant(s, s[0])
  {
    var m := Mean(s);
    SumSqDevZero(s, m);
    if Constant(s, s[0]) {
      MeanConstant(s, s[0]);
    }
  }

  lemma {:induction false} SumSqDiffNonNegative(a: seq<real>, b: seq<real>)
    requires |a| == |b|
    ensures 0.0 <= SumSqDiff(a, b)
  {
    if |a| > 0 {
      SumSqDiffNonNegative(a[1..], b[1..]);
    }
  }

  /** Squared differences vanish exactly on equal series. */
  lemma {:induction false} SumSqDiffZero(a: seq<real>, b: seq<real>)
    requires |a| == |b|
    ensures SumSqDiff(a, b) == 0.0 <==> a == b
  {
    if |a| > 0 {
      SumSqDiffZero(a[1..], b[1..]);
      SumSqDiffNonNegative(a[1..], b[1..]);
      SqPositive(a[0] - b[0]);
      assert a == [a[0]] + a[1..] && b == [b[0]] + b[1..];
    }
  }

  /** Accumulating left to right: appending a pair adds its squared difference. */
  lemma {:induction false} SumSqDiffSnoc(a: seq<real>, b: seq<real>, x: real, y: real)
    requires |a| == |b|
    ensures SumSqDiff(a + [x], b + [y]) == SumSqDiff(a, b) + Sq(x - y)
  {
    if |a| > 0 {
      assert (a + [x])[1..] == a[1..] + [x];
      assert (b + [y])[1..] == b[1..] + [y];
      SumSqDiffSnoc(a[1..], b[1..], x, y);
    }
  }

  /** Expansion of the squared deviations: sum (x - c)^2 = sum x^2 - 2 c sum x + n c^2. */
  lemma {:induction false} SumSqDevExpand(s: seq<real>, c: real)
    ensures SumSqDev(s, c) == Dot(s, s) - 2.0 * c * Sum(s) + |s| as real * Sq(c)
  {
    if |s| > 0 {
      var t := s[1..];
      SumSqDevExpand(t, c);
      SqDiff(s[0], c);
      assert Dot(s, s) == Sq(s[0]) + Dot(t, t);
      assert Sum(s) == s[0] + Sum(t);
      assert 2.0 * c * Sum(s) == 2.0 * c * s[0] + 2.0 * c * Sum(t);
      assert |s| as real * Sq(c) == Sq(c) + |t| as real * Sq(c);
    }
  }

  /** `c` is the mean of `s`, stated without division. */
  ghost predicate IsMean(s: seq<real>, c: real)
  {
    |s| as real * c == Sum(s)
  }

  /** `Mean` is the mean. */
  lemma MeanIsMean(s: seq<real>)
    requires |s| > 0
    ensures IsMean(s, Mean(s))
  {
    assert IsMean(s, Sum(s) / |s| as real);
  }

  lemma MeanExists(s: seq<real>)
    requires |s| > 0
    ensures exists c :: IsMean(s, c)
  {
    assert IsMean(s, Sum(s) / |s| as real);
  }

  /** Squared deviations from one centre add up over a concatenation. */
  lemma {:induction false} SumSqDevAppend(a: seq<real>, b: seq<real>, c: real)
    ensures SumSqDev(a + b, c) == SumSqDev(a, c) + SumSqDev(b, c)
  {
    if |a| == 0 {
      assert a + b == b;
    } else {
      assert (a + b)[1..] == a[1..] + b;
      SumSqDevAppend(a[1..], b, c);
    }
  }

  /** Appending one element adds its squared deviation. */
  lemma SumSqDevSnoc(a: seq<real>, x: real, c: real)
    ensures SumSqDev(a + [x], c) == SumSqDev(a, c) + Sq(x - c)
  {
    SumSqDevAppend(a, [x], c);
    assert [x][1..] == [];
  }

  /** Moving the centre from the mean to `c` adds `n (c - mean)^2`, so the mean is the centre of least squared deviation. */
  lemma SumSqDevShift(s: seq<real>, c: real)
    requires |s| > 0
    ensures SumSqDev(s, c) == SumSqDev(s, Mean(s)) + |s| as real * Sq(c - Mean(s))
    ensures SumSqDev(s, Mean(s)) <= SumSqDev(s, c)
  {
    MeanIsMean(s);
    ShiftFromMean(s, c, Mean(s));
  }

  /** The shift identity for any centre `m` that is the mean, stated without the division. */
  lemma ShiftFromMean(s: seq<real>, c: real, m: real)
    requires |s| > 0 && IsMean(s, m)
    ensures SumSqDev(s, c) == SumSqDev(s, m) + |s| as real * Sq(c - m)
    ensures 0.0 <= |s| as real * Sq(c - m)
  {
    SumSqDevExpand(s, c);
    SumSqDevExpand(s, m);
    CentreShift(|s| as real, Sum(s), Dot(s, s), m, c);
  }

  lemma CentreShift(n: real, total: real, d: real, m: real, c: real)
    requires 0.0 < n && n * m == total
    ensures d - 2.0 * c * total + n * Sq(c) == (d - 2.0 * m * total + n * Sq(m)) + n * Sq(c - m)
    ensures 0.0 <= n * Sq(c - m)
  {
    SqDiff(c, m);
    assert 2.0 * m * total == 2.0 * n * Sq(m);
    assert 2.0 * c * total == 2.0 * n * Mul(m, c);
  }

  /** The length times the variance is the sum of squared deviations from the mean. */
  lemma VarianceTimesLength(s: seq<real>)
    requires |s| > 0
    ensures |s| as real * Variance(s) == SumSqDev(s, Mean(s))
  {
    QuotientTimes(SumSqDev(s, Mean(s)), |s| as real);
  }

  lemma QuotientTimes(x: real, n: real)
    requires 0.0 < n
    ensures n * (x / n) == x
  {
  }

  /** The length times the variance is at most the squared deviations from any centre. */
  lemma VarianceLeast(s: seq<real>, c: real)
    requires |s| > 0
    ensures |s| as real * Variance(s) <= SumSqDev(s, c)
  {
    VarianceTimesLength(s);
    SumSqDevShift(s, c);
  }

  /** The sum of squared deviations is the self-product of the deviation series. */
  lemma {:induction false} DotDeviations(s: seq<real>, c: real)
    ensures Dot(Deviations(s, c), Deviations(s, c)) == SumSqDev(s, c)
  {
    if |s| > 0 {
      assert Deviations(s, c)[1..] == Deviations(s[1..], c);
      DotDeviations(s[1..], c);
    }
  }

  lemma {:induction false} DotSymmetric(a: seq<real>, b: seq<real>)
    requires |a| == |b|
    ensures Dot(a, b) == Dot(b, a)
  {
    if |a| > 0 {
      DotSymmetric(a[1..], b[1..]);
    }
  }

  lemma DotSelfNonNegative(a: seq<real>)
    ensures 0.0 <= Dot(a, a)
  {
    DotDeviations(a, 0.0);
    assert Deviations(a, 0.0) == a;
    SumSqDevNonNegative(a, 0.0);
  }

  /** The series `a - l * b`. */
  function Combination(a: seq<real>, b: seq<real>, l: real): (r: seq<real>)
    requires |a| == |b|
    ensures |r| == |a|
    ensures forall i :: 0 <= i < |a| ==> r[i] == a[i] - l * b[i]
  {
    seq(|a|, i requires 0 <= i < |a| => a[i] - l * b[i])
  }

  /** The quadratic `a - 2 l c + l^2 b` in `l`. */
  function Quad(a: real, b: real, c: real, l: real): real
  {
    a - 2.0 * l * c + Sq(l) * b
  }

  lemma CombinationStep(x: real, y: real, l: real)
    ensures Sq(x - l * y) == Quad(Sq(x), Sq(y), Mul(x, y), l)
  {
    SqDiff(x, l * y);
    assert Sq(l * y) == Sq(l) * Sq(y);
  }

  /** `Quad` is linear in its coefficients. */
  lemma QuadAdditive(a1: real, b1: real, c1: real, a2: real, b2: real, c2: real, l: real)
    ensures Quad(a1 + a2, b1 + b2, c1 + c2, l) == Quad(a1, b1, c1, l) + Quad(a2, b2, c2, l)
  {
    assert Sq(l) * (b1 + b2) == Sq(l) * b1 + Sq(l) * b2;
    assert 2.0 * l * (c1 + c2) == 2.0 * l * c1 + 2.0 * l * c2;
  }

  lemma {:induction false} DotCombination(a: seq<real>, b: seq<real>, l: real)
    requires |a| == |b|
    ensures Dot(Combination(a, b, l), Combination(a, b, l)) == Quad(Dot(a, a), Dot(b, b), Dot(a, b), l)
  {
    if |a| > 0 {
      var r, t := Combination(a, b, l), Combination(a[1..], b[1..], l);
      CombinationTail(a, b, l);
      var aa, bb, ab := Dot(a[1..], a[1..]), Dot(b[1..], b[1..]), Dot(a[1..], b[1..]);
      calc {
        Quad(Dot(a, a), Dot(b, b), Dot(a, b), l);
        Quad(Sq(a[0]) + aa, Sq(b[0]) + bb, Mul(a[0], b[0]) + ab, l);
        { QuadAdditive(Sq(a[0]), Sq(b[0]), Mul(a[0], b[0]), aa, bb, ab, l); }
        Quad(Sq(a[0]), Sq(b[0]), Mul(a[0], b[0]), l) + Quad(aa, bb, ab, l);
        { CombinationStep(a[0], b[0], l); DotCombination(a[1..], b[1..], l); }
        Sq(a[0] - l * b[0]) + Dot(t, t);
        { DotSelfHead(r, t, a[0] - l * b[0]); }
        Dot(r, r);
      }
    }
  }

  lemma CombinationTail(a: seq<real>, b: seq<real>, l: real)
    requires |a| == |b| && |a| > 0
    ensures Combination(a, b, l)[0] == a[0] - l * b[0]
    ensures Combination(a, b, l)[1..] == Combination(a[1..], b[1..], l)
  {
    var r, t := Combination(a, b, l), Combination(a[1..], b[1..], l);
    forall i | 0 <= i < |t| ensures r[1..][i] == t[i] {
      assert r[i + 1] == a[i + 1] - l * b[i + 1];
    }
  }

  lemma DotSelfHead(r: seq<real>, t: seq<real>, x: real)
    requires |r| > 0 && r[0] == x && r[1..] == t
    ensures Dot(r, r) == Sq(x) + Dot(t, t)
  {
  }

  lemma QuadNegative(a: real, c: real, l: real)
    requires c != 0.0 && l == (a + 1.0) / (2.0 * c)
    ensures Quad(a, 0.0, c, l) < 0.0
  {
    assert 2.0 * c * l == a + 1.0;
    assert Quad(a, 0.0, c, l) == a - 2.0 * l * c;
  }

  lemma QuadAtMinimum(a: real, b: real, c: real)
    requires 0.0 < b && 0.0 <= Quad(a, b, c, c / b)
    ensures Sq(c) <= a * b
  {
    var l := c / b;
    assert l * b == c;
    assert Sq(l) * b == l * c;
    assert 0.0 <= a - l * c;
    assert b * (a - l * c) == a * b - c * c;
  }

  /** The quadratic is the squared length of `a - l * b`, so it is never negative. */
  lemma QuadNonNegative(a: seq<real>, b: seq<real>, l: real)
    requires |a| == |b|
    ensures 0.0 <= Quad(Dot(a, a), Dot(b, b), Dot(a, b), l)
  {
    DotCombination(a, b, l);
    DotSelfNonNegative(Combination(a, b, l));
  }

  /** Cauchy-Schwarz: (sum a b)^2 <= (sum a^2) (sum b^2). */
  lemma CauchySchwarz(a: seq<real>, b: seq<real>)
    requires |a| == |b|
    ensures Sq(Dot(a, b)) <= Dot(a, a) * Dot(b, b)
  {
    var aa, bb, ab := Dot(a, a), Dot(b, b), Dot(a, b);
    DotSelfNonNegative(b);
    if bb == 0.0 {
      if ab != 0.0 {
        var l := (aa + 1.0) / (2.0 * ab);
        QuadNonNegative(a, b, l);
        QuadNegative(aa, ab, l);
        assert false;
      }
    } else {
      QuadNonNegative(a, b, ab / bb);
      QuadAtMinimum(aa, bb, ab);
    }
  }

  /** A quotient by the root of a bound on the numerator's square lies in [-1, 1]. */
  lemma RatioBounded(num: real, den: real, prod: real)
    requires 0.0 < den && Sq(den) == prod && Sq(num) <= prod
    ensures -1.0 <= num / den <= 1.0
  {
    if num > den {
      SqLess(den, num);
    }
    if -num > den {
      SqLess(den, -num);
      SqNegate(num);
    }
  }
}
