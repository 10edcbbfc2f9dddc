/**
 * Error metrics and normalisations of `lib/analysis/statistics.ts`.
 *
 * The three error metrics share one guard: aligned, non-empty inputs are
 * required, and anything else yields the neutral value 0.
 */
module Statistics {
  import opened Series

  /** The guard shared by RMSE, MAPE and R-squared: the inputs are aligned and non-empty. */
  predicate Comparable(actual: seq<real>, predicted: seq<real>)
  {
    |actual| == |predicted| && |actual| > 0
  }

  /** Root mean square error (`calculateRMSE`). */
  function Rmse(sqrt: real -> real, actual: seq<real>, predicted: seq<real>): (r: real)
    requires IsSqrt(sqrt)
    ensures !Comparable(actual, predicted) ==> r == 0.0
    ensures 0.0 <= r
    ensures Comparable(actual, predicted) ==>
      Sq(r) * |actual| as real == SumSqDiff(actual, predicted)
  {
    if !Comparable(actual, predicted) then 0.0
    else
      var n := |actual| as real;
      SumSqDiffNonNegative(actual, predicted);
      var mse := SumSqDiff(actual, predicted) / n;
      assert Sq(sqrt(mse)) == mse;
      sqrt(mse)
  }

  /** The error is zero exactly when the prediction reproduces the actual series. */
  lemma RmseZero(sqrt: real -> real, actual: seq<real>, predicted: seq<real>)
    requires IsSqrt(sqrt) && Comparable(actual, predicted)
    ensures Rmse(sqrt, actual, predicted) == 0.0 <==> actual == predicted
  {
    var n := |actual| as real;
    SumSqDiffNonNegative(actual, predicted);
    SumSqDiffZero(actual, predicted);
    SqrtZero(sqrt, SumSqDiff(actual, predicted) / n);
  }

  /** Sum of the absolute relative errors, skipping terms whose actual value is 0. */
  function PercentErrorSum(actual: seq<real>, predicted: seq<real>): (r: real)
    requires |actual| == |predicted|
    ensures 0.0 <= r
  {
    if |actual| == 0 then 0.0
    else
      var rest := PercentErrorSum(actual[1..], predicted[1..]);
      if actual[0] == 0.0 then rest else Abs((actual[0] - predicted[0]) / actual[0]) + rest
  }

  function Abs(x: real): (r: real)
    ensures 0.0 <= r && (r == x || r == -x)
  {
    if x < 0.0 then -x else x
  }

  lemma {:induction false} PercentErrorSumNonNegative(actual: seq<real>, predicted: seq<real>)
    requires |actual| == |predicted|
    ensures 0.0 <= PercentErrorSum(actual, predicted)
  {
    if |actual| > 0 {
      PercentErrorSumNonNegative(actual[1..], predicted[1..]);
    }
  }

  /** Only the positions whose actual value differs from the prediction contribute. */
  lemma {:induction false} PercentErrorSumExact(actual: seq<real>, predicted: seq<real>)
    requires |actual| == |predicted|
    requires forall i :: 0 <= i < |actual| && actual[i] != 0.0 ==> predicted[i] == actual[i]
    ensures PercentErrorSum(actual, predicted) == 0.0
  {
    if |actual| > 0 {
      PercentErrorSumExact(actual[1..], predicted[1..]);
    }
  }

  /** Mean absolute percentage error (`calculateMAPE`). */
  function Mape(actual: seq<real>, predicted: seq<real>): (r: real)
    ensures !Comparable(actual, predicted) ==> r == 0.0
    ensures 0.0 <= r
    ensures Comparable(actual, predicted) ==>
      r * |actual| as real == PercentErrorSum(actual, predicted) * 100.0
  {
    if !Comparable(actual, predicted) then 0.0
    else
      PercentErrorSumNonNegative(actual, predicted);
      PercentErrorSum(actual, predicted) / |actual| as real * 100.0
  }

  /**
   * A zero actual value adds nothing to the error sum but still counts in the
   * divisor: appending one scales the MAPE by n / (n + 1).
   */
  lemma MapeZeroActualDilutes(actual: seq<real>, predicted: seq<real>, p: real)
    requires Comparable(actual, predicted)
    ensures Mape(actual + [0.0], predicted + [p]) * (|actual| + 1) as real
         == Mape(actual, predicted) * |actual| as real
  {
    PercentErrorSumSnoc(actual, predicted, 0.0, p);
  }

  /** Accumulating left to right: appending a pair adds its term, or nothing when the actual value is 0. */
  lemma {:induction false} PercentErrorSumSnoc(actual: seq<real>, predicted: seq<real>, x: real, y: real)
    requires |actual| == |predicted|
    ensures PercentErrorSum(actual + [x], predicted + [y])
         == PercentErrorSum(actual, predicted) + (if x == 0.0 then 0.0 else Abs((x - y) / x))
  {
    if |actual| > 0 {
      assert (actual + [x])[1..] == actual[1..] + [x];
      assert (predicted + [y])[1..] == predicted[1..] + [y];
      PercentErrorSumSnoc(actual[1..], predicted[1..], x, y);
    }
  }

  /** A perfect prediction has MAPE 0. */
  lemma MapeExact(actual: seq<real>)
    ensures Mape(actual, actual) == 0.0
  {
    if |actual| > 0 {
      PercentErrorSumExact(actual, actual);
    }
  }

  /** Total sum of squares of the actual series around its mean. */
  function TotalSquares(actual: seq<real>): real
    requires |actual| > 0
  {
    SumSqDev(actual, Mean(actual))
  }

  /**
   * R-squared divides by the total sum of squares without a guard, so for
   * comparable inputs the actual series must not be constant.
   */
  predicate RSquaredDefined(actual: seq<real>, predicted: seq<real>)
  {
    Comparable(actual, predicted) ==> TotalSquares(actual) != 0.0
  }

  /** Coefficient of determination (`calculateRSquared`). */
  function RSquared(actual: seq<real>, predicted: seq<real>): (r: real)
    requires RSquaredDefined(actual, predicted)
    ensures !Comparable(actual, predicted) ==> r == 0.0
    ensures Comparable(actual, predicted) ==>
      (1.0 - r) * TotalSquares(actual) == SumSqDiff(actual, predicted)
    ensures r <= 1.0
  {
    if !Comparable(actual, predicted) then 0.0
    else
      var ssTot := TotalSquares(actual);
      var ssRes := SumSqDiff(actual, predicted);
      SumSqDevNonNegative(actual, Mean(actual));
      SumSqDiffNonNegative(actual, predicted);
      assert 0.0 <= ssRes / ssTot;
      1.0 - ssRes / ssTot
  }

  /** R-squared is defined exactly when the actual series is not constant. */
  lemma RSquaredDefinedIff(actual: seq<real>, predicted: seq<real>)
    requires Comparable(actual, predicted)
    ensures RSquaredDefined(actual, predicted) <==> !Constant(actual, actual[0])
  {
    VarianceZero(actual);
    var n := |actual| as real;
    assert Variance(actual) == TotalSquares(actual) / n;
  }

  /** A perfect prediction scores R-squared 1, and only a perfect one does. */
  lemma RSquaredOne(actual: seq<real>, predicted: seq<real>)
    requires Comparable(actual, predicted) && RSquaredDefined(actual, predicted)
    ensures RSquared(actual, predicted) == 1.0 <==> actual == predicted
  {
    SumSqDiffZero(actual, predicted);
  }

  /** Min-max scaling to [0, 1] (`minMaxNormalize`). */
  function MinMaxNormalize(values: seq<real>): (r: seq<real>)
    ensures |r| == |values|
    ensures forall i :: 0 <= i < |r| ==> 0.0 <= r[i] <= 1.0
    ensures |values| > 0 && Max(values) == Min(values) ==> forall i :: 0 <= i < |r| ==> r[i] == 0.0
    ensures |values| > 0 && Max(values) != Min(values) ==>
      forall i :: 0 <= i < |r| ==> Unscale(r[i], Min(values), Max(values) - Min(values)) == values[i]
  {
    if |values| == 0 then []
    else
      var lo, hi := Min(values), Max(values);
      if hi - lo == 0.0 then Zeros(|values|)
      else
        assert Within(values, lo, lo + (hi - lo));
        ScaleAll(values, lo, hi - lo)
  }

  /** `n` zeros (`values.map(() => 0)`). */
  function Zeros(n: nat): (r: seq<real>)
    ensures |r| == n && forall i :: 0 <= i < n ==> r[i] == 0.0
  {
    seq(n, _ => 0.0)
  }

  /** The inverse of the scaling: the point at fraction `x` of [lo, lo + range]. */
  function Unscale(x: real, lo: real, range: real): real
  {
    lo + x * range
  }

  /** `(v - lo) / range` for a value in [lo, lo + range]. */
  function Scale(v: real, lo: real, range: real): (r: real)
    requires 0.0 < range && lo <= v <= lo + range
    ensures 0.0 <= r <= 1.0
    ensures Unscale(r, lo, range) == v
  {
    var r := (v - lo) / range;
    assert r * range == v - lo;
    r
  }

  /** Every value scaled from [lo, lo + range] to [0, 1]. */
  function ScaleAll(values: seq<real>, lo: real, range: real): (r: seq<real>)
    requires 0.0 < range && Within(values, lo, lo + range)
    ensures |r| == |values|
    ensures forall i :: 0 <= i < |r| ==> 0.0 <= r[i] <= 1.0 && Unscale(r[i], lo, range) == values[i]
  {
    seq(|values|, i requires 0 <= i < |values| => Scale(values[i], lo, range))
  }

  lemma ScaleOrder(x: real, y: real, lo: real, range: real)
    requires 0.0 < range
    ensures Unscale(x, lo, range) <= Unscale(y, lo, range) <==> x <= y
  {
    if x <= y {
      assert x * range <= y * range;
    } else {
      assert y * range < x * range;
    }
  }

  lemma ScaleUnit(x: real, lo: real, range: real)
    requires 0.0 < range
    ensures Unscale(x, lo, range) == lo ==> x == 0.0
    ensures Unscale(x, lo, range) == lo + range ==> x == 1.0
  {
    if Unscale(x, lo, range) == lo + range {
      assert x * range == 1.0 * range;
    }
  }

  /** Min-max scaling keeps the order of the values. */
  lemma MinMaxNormalizeMonotone(values: seq<real>, i: nat, j: nat)
    requires i < |values| && j < |values|
    requires Max(values) != Min(values)
    ensures values[i] <= values[j] <==> MinMaxNormalize(values)[i] <= MinMaxNormalize(values)[j]
  {
    ScaleOrder(MinMaxNormalize(values)[i], MinMaxNormalize(values)[j], Min(values), Max(values) - Min(values));
  }

  /** Min-max scaling sends the smallest value to 0 and the largest to 1. */
  lemma MinMaxNormalizeEnds(values: seq<real>, i: nat)
    requires i < |values|
    requires Max(values) != Min(values)
    ensures values[i] == Min(values) ==> MinMaxNormalize(values)[i] == 0.0
    ensures values[i] == Max(values) ==> MinMaxNormalize(values)[i] == 1.0
  {
    ScaleUnit(MinMaxNormalize(values)[i], Min(values), Max(values) - Min(values));
  }

  /** Normalised values already span [0, 1], so normalising them again changes nothing. */
  lemma MinMaxNormalizeIdempotent(values: seq<real>)
    ensures MinMaxNormalize(MinMaxNormalize(values)) == MinMaxNormalize(values)
  {
    var r := MinMaxNormalize(values);
    if |values| > 0 {
      if Max(values) == Min(values) {
        assert Min(r) == 0.0 && Max(r) == 0.0;
      } else {
        NormalizedSpan(values);
        UnitSpanFixed(r);
      }
    }
  }

  /** A spread-out series normalises onto exactly [0, 1]. */
  lemma NormalizedSpan(values: seq<real>)
    requires |values| > 0 && Max(values) != Min(values)
    ensures Min(MinMaxNormalize(values)) == 0.0 && Max(MinMaxNormalize(values)) == 1.0
  {
    NormalizedLow(values);
    NormalizedHigh(values);
  }

  lemma NormalizedLow(values: seq<real>)
    requires |values| > 0 && Max(values) != Min(values)
    ensures Min(MinMaxNormalize(values)) == 0.0
  {
    var i :| 0 <= i < |values| && values[i] == Min(values);
    MinMaxNormalizeEnds(values, i);
  }

  lemma NormalizedHigh(values: seq<real>)
    requires |values| > 0 && Max(values) != Min(values)
    ensures Max(MinMaxNormalize(values)) == 1.0
  {
    var j :| 0 <= j < |values| && values[j] == Max(values);
    MinMaxNormalizeEnds(values, j);
  }

  /** A series spanning exactly [0, 1] is its own normalisation. */
  lemma UnitSpanFixed(r: seq<real>)
    requires |r| > 0 && Min(r) == 0.0 && Max(r) == 1.0
    ensures MinMaxNormalize(r) == r
  {
    forall k | 0 <= k < |r|
      ensures MinMaxNormalize(r)[k] == r[k]
    {
      UnitSpanAt(r, k);
    }
  }

  lemma UnitSpanAt(r: seq<real>, k: nat)
    requires |r| > 0 && Min(r) == 0.0 && Max(r) == 1.0 && k < |r|
    ensures MinMaxNormalize(r)[k] == r[k]
  {
    ScaleIdentity(r[k], Min(r), Max(r) - Min(r));
  }

  lemma ScaleIdentity(v: real, lo: real, range: real)
    requires lo == 0.0 && range == 1.0 && 0.0 <= v <= 1.0
    ensures Scale(v, lo, range) == v
  {
  }

  /** Z-score standardisation (`zScoreStandardize`). */
  function ZScoreStandardize(sqrt: real -> real, values: seq<real>): (r: seq<real>)
    requires IsSqrt(sqrt)
    ensures |r| == |values|
    ensures |values| > 0 && Constant(values, values[0]) ==> forall i :: 0 <= i < |r| ==> r[i] == 0.0
    ensures |values| > 0 && !Constant(values, values[0]) ==>
      var m, sd := Mean(values), sqrt(Variance(values));
      0.0 < sd && forall i :: 0 <= i < |r| ==> values[i] == m + r[i] * sd
  {
    if |values| == 0 then []
    else
      VarianceNonNegative(values);
      VarianceZero(values);
      SqrtZero(sqrt, Variance(values));
      if sqrt(Variance(values)) == 0.0 then Zeros(|values|)
      else Standardized(values, Mean(values), sqrt(Variance(values)))
  }

  /** Every value shifted by `m` and divided by `sd`. */
  function Standardized(values: seq<real>, m: real, sd: real): (r: seq<real>)
    requires sd != 0.0
    ensures |r| == |values|
    ensures forall i :: 0 <= i < |r| ==> values[i] == m + r[i] * sd
  {
    seq(|values|, i requires 0 <= i < |values| => (values[i] - m) / sd)
  }

  lemma {:induction false} StandardizedSum(values: seq<real>, m: real, sd: real)
    requires sd != 0.0
    ensures Sum(Standardized(values, m, sd)) * sd == Sum(values) - |values| as real * m
  {
    if |values| > 0 {
      assert Standardized(values, m, sd)[1..] == Standardized(values[1..], m, sd);
      StandardizedSum(values[1..], m, sd);
    }
  }

  /** Standardised values are centred: they sum to zero. */
  lemma ZScoreSumZero(sqrt: real -> real, values: seq<real>)
    requires IsSqrt(sqrt)
    ensures Sum(ZScoreStandardize(sqrt, values)) == 0.0
  {
    var r := ZScoreStandardize(sqrt, values);
    if |values| > 0 {
      if Constant(values, values[0]) {
        SumConstant(r, 0.0);
      } else {
        var m := Mean(values);
        var sd := sqrt(Variance(values));
        assert r == Standardized(values, m, sd);
        StandardizedSum(values, m, sd);
        assert Sum(values) == |values| as real * m;
      }
    }
  }
}
