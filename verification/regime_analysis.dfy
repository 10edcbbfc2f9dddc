/**
 * Heating and cooling regimes of `lib/analysis/regime-analysis.ts`: the
 * piecewise-linear load model, the base-temperature grid search, the split
 * of the series at the base temperature, and the file's own slope,
 * correlation and R-squared helpers.
 */
module RegimeAnalysis {
  import opened Series
  import opened Regression
  import opened Selection
  import opened Options
  import Statistics
  import DegreeDays

  // ---------------------------------------------------------------------
  // The load model and its fit
  // ---------------------------------------------------------------------

  /**
   * The model load at temperature `temp` for base `base`: 3000 falling by
   * 100 per degree below the base, 2000 rising by 120 per degree from it.
   */
  function ModelLoad(temp: real, base: real): (r: real)
    ensures temp < base ==> r < 3000.0
    ensures base <= temp ==> 2000.0 <= r
  {
    if temp < base then 3000.0 - (base - temp) * 100.0 else 2000.0 + (temp - base) * 120.0
  }

  /** Below the base the model falls by 100 per degree, from the base on it rises by 120 per degree. */
  lemma ModelLoadRates(t1: real, t2: real, base: real)
    requires t1 <= t2
    ensures t2 < base ==> ModelLoad(t2, base) - ModelLoad(t1, base) == 100.0 * (t2 - t1)
    ensures base <= t1 ==> ModelLoad(t2, base) - ModelLoad(t1, base) == 120.0 * (t2 - t1)
    ensures ModelLoad(base, base) == 2000.0
  {
  }

  /** The model applied to every temperature (`temperatures.map(...)`). */
  function Predicted(temps: seq<real>, base: real): (r: seq<real>)
    ensures |r| == |temps|
    ensures forall i :: 0 <= i < |r| ==> r[i] == ModelLoad(temps[i], base)
  {
    seq(|temps|, i requires 0 <= i < |temps| => ModelLoad(temps[i], base))
  }

  /**
   * The file's R-squared helper reduces `actual` without an initial value,
   * reads `predicted[i]` for every actual, and divides by the total sum of
   * squares without a guard.
   */
  predicate FitDefined(actual: seq<real>, predicted: seq<real>)
  {
    0 < |actual| <= |predicted| && Statistics.TotalSquares(actual) != 0.0
  }

  /** `calculateRSquared` of this file: one minus residual over total squares. */
  function LocalRSquared(actual: seq<real>, predicted: seq<real>): (r: real)
    requires FitDefined(actual, predicted)
    ensures (1.0 - r) * Statistics.TotalSquares(actual) == SumSqDiff(actual, predicted[..|actual|])
    ensures r <= 1.0
  {
    var ssTot := Statistics.TotalSquares(actual);
    var ssRes := SumSqDiff(actual, predicted[..|actual|]);
    SumSqDevNonNegative(actual, Mean(actual));
    SumSqDiffNonNegative(actual, predicted[..|actual|]);
    assert 0.0 <= ssRes / ssTot;
    1.0 - ssRes / ssTot
  }

  /** On aligned series it agrees with the guarded `calculateRSquared` of `statistics.ts`. */
  lemma LocalRSquaredAgrees(actual: seq<real>, predicted: seq<real>)
    requires FitDefined(actual, predicted) && |actual| == |predicted|
    ensures Statistics.RSquaredDefined(actual, predicted)
    ensures LocalRSquared(actual, predicted) == Statistics.RSquared(actual, predicted)
  {
    assert predicted[..|actual|] == predicted;
  }

  // ---------------------------------------------------------------------
  // Base-temperature grid search
  // ---------------------------------------------------------------------

  /** The `k`-th candidate base temperature. */
  function GridPoint(minTemp: real, step: real, k: nat): real
  {
    minTemp + k as real * step
  }

  /** The number of candidates `minTemp, minTemp + step, ...` not above `maxTemp`. */
  function GridCount(minTemp: real, maxTemp: real, step: real): nat
    requires 0.0 < step
  {
    if maxTemp < minTemp then 0 else ((maxTemp - minTemp) / step).Floor + 1
  }

  /** A candidate is visited exactly when it does not exceed `maxTemp`. */
  lemma GridCountIff(minTemp: real, maxTemp: real, step: real, k: nat)
    requires 0.0 < step
    ensures k < GridCount(minTemp, maxTemp, step) <==> GridPoint(minTemp, step, k) <= maxTemp
  {
    var q := (maxTemp - minTemp) / step;
    assert q * step == maxTemp - minTemp;
    if GridPoint(minTemp, step, k) <= maxTemp {
      assert k as real * step <= q * step;
      assert k as real <= q;
    } else {
      assert q * step < k as real * step;
      assert q < k as real;
    }
  }

  lemma GridPointNext(minTemp: real, step: real, k: nat)
    ensures GridPoint(minTemp, step, k + 1) == GridPoint(minTemp, step, k) + step
  {
  }

  /** The fit of the model with the `k`-th candidate base. */
  function GridFit(temps: seq<real>, loads: seq<real>, minTemp: real, step: real, k: nat): real
    requires FitDefined(loads, temps)
  {
    LocalRSquared(loads, Predicted(temps, GridPoint(minTemp, step, k)))
  }

  /**
   * The loop runs while the candidate does not exceed `maxTemp`, so a
   * non-positive step never ends unless the range is empty; the fit needs
   * loads whose R-squared is defined against the model.
   */
  predicate SearchDefined(temps: seq<real>, loads: seq<real>, minTemp: real, maxTemp: real, step: real)
  {
    minTemp <= maxTemp ==> 0.0 < step && FitDefined(loads, temps)
  }

  /**
   * `optimizeBaseTemperature`: scans the candidates in order and keeps one
   * only when its fit is strictly better, so the result is the EARLIEST
   * candidate of maximal fit; an empty range returns `minTemp` with no score.
   */
  method OptimizeBaseTemperature(temps: seq<real>, loads: seq<real>, minTemp: real, maxTemp: real, step: real)
    returns (baseTemp: real, rSquared: Score)
    requires SearchDefined(temps, loads, minTemp, maxTemp, step)
    ensures maxTemp < minTemp ==> baseTemp == minTemp && rSquared == NegInf
    ensures minTemp <= maxTemp ==>
      exists k :: 0 <= k < GridCount(minTemp, maxTemp, step)
        && baseTemp == GridPoint(minTemp, step, k)
        && rSquared == Finite(GridFit(temps, loads, minTemp, step, k))
        && (forall j :: 0 <= j < GridCount(minTemp, maxTemp, step) ==>
              GridFit(temps, loads, minTemp, step, j) <= rSquared.value)
        && (forall j :: 0 <= j < k ==> GridFit(temps, loads, minTemp, step, j) < rSquared.value)
    ensures minTemp <= baseTemp && (minTemp <= maxTemp ==> baseTemp <= maxTemp)
  {
    baseTemp, rSquared := minTemp, NegInf;
    if maxTemp < minTemp {
      return;
    }
    var count := GridCount(minTemp, maxTemp, step);
    GridCountIff(minTemp, maxTemp, step, 0);
    var k: nat := 0;
    var best: nat := 0;
    var candidate := minTemp;
    while candidate <= maxTemp
      invariant k <= count
      invariant candidate == GridPoint(minTemp, step, k) && minTemp <= candidate
      invariant minTemp <= baseTemp <= maxTemp
      invariant k == 0 ==> rSquared == NegInf && baseTemp == minTemp
      invariant 0 < k ==> (best < k && baseTemp == GridPoint(minTemp, step, best)
        && rSquared == Finite(GridFit(temps, loads, minTemp, step, best)))
      invariant 0 < k ==> forall j :: 0 <= j < k ==> GridFit(temps, loads, minTemp, step, j) <= rSquared.value
      invariant 0 < k ==> forall j :: 0 <= j < best ==> GridFit(temps, loads, minTemp, step, j) < rSquared.value
      decreases count - k
    {
      GridCountIff(minTemp, maxTemp, step, k);
      var fit := LocalRSquared(loads, Predicted(temps, candidate));
      if rSquared.NegInf? || fit > rSquared.value {
        rSquared, baseTemp, best := Finite(fit), candidate, k;
      }
      GridPointNext(minTemp, step, k);
      k := k + 1;
      candidate := candidate + step;
    }
    GridCountIff(minTemp, maxTemp, step, k);
    assert 0 < k;
  }

  // ---------------------------------------------------------------------
  // The file's slope and correlation helpers
  // ---------------------------------------------------------------------

  /**
   * `calculateSlope`: least-squares slope over the first `|x|` pairs, 0 on
   * empty input and on a zero denominator.
   */
  function Slope(x: seq<real>, y: seq<real>): (r: real)
    requires |x| <= |y|
    ensures |x| == 0 || LeastSquaresDenominator(x) == 0.0 ==> r == 0.0
    ensures |x| > 0 && LeastSquaresDenominator(x) != 0.0 ==>
      r * LeastSquaresDenominator(x) == |x| as real * Dot(x, y[..|x|]) - Sum(x) * Sum(y[..|x|])
  {
    if |x| == 0 || LeastSquaresDenominator(x) == 0.0 then 0.0
    else
      SlopeFromSumsSolves(|x| as real, Sum(x), Sum(y[..|x|]), Dot(x, x), Dot(x, y[..|x|]));
      SlopeFromSums(|x| as real, Sum(x), Sum(y[..|x|]), Dot(x, x), Dot(x, y[..|x|]))
  }

  /** Loads exactly linear in non-constant temperatures have that line's slope. */
  lemma SlopeOfLinear(x: seq<real>, a: real, b: real)
    requires |x| > 0 && !Constant(x, x[0])
    ensures Slope(x, Affine(x, a, b)) == a
  {
    var y := Affine(x, a, b);
    LeastSquaresDenominatorZero(x);
    SlopeOfLine(|x| as real, Sum(x), Dot(x, x), a, b);
    assert y[..|x|] == y;
    SumAffine(x, a, b);
    DotAffine(x, a, b);
  }

  /** On aligned series of two or more points the slope is the degree-day thermal elasticity. */
  lemma SlopeIsElasticity(temps: seq<real>, loads: seq<real>)
    requires 2 <= |temps| == |loads|
    requires DegreeDays.ElasticityDefined(temps, loads)
    ensures Slope(temps, loads) == DegreeDays.ThermalElasticity(temps, loads)
  {
    assert loads[..|temps|] == loads;
  }

  /**
   * The file's correlation helper reduces both arrays without an initial
   * value and divides by the root of the product of squared deviations
   * without a guard.
   */
  predicate CorrelationDefined(x: seq<real>, y: seq<real>)
  {
    0 < |x| ==> |x| <= |y| && Product(Sums(x, y)) != 0.0
  }

  /** `calculateCorrelation` of this file: 0 on empty input, else a value in [-1, 1]. */
  function Correlation(sqrt: real -> real, x: seq<real>, y: seq<real>): (r: real)
    requires IsSqrt(sqrt) && CorrelationDefined(x, y)
    ensures |x| == 0 ==> r == 0.0
    ensures -1.0 <= r <= 1.0
    ensures 0 < |x| ==> r * sqrt(Product(Sums(x, y))) == Sums(x, y).numerator
  {
    if |x| == 0 then 0.0
    else
      var s := Sums(x, y);
      SqrtZero(sqrt, Product(s));
      Ratio(sqrt, s.numerator, Product(s))
  }

  /** On aligned series the correlation is defined exactly when neither series is constant. */
  lemma CorrelationDefinedIff(x: seq<real>, y: seq<real>)
    requires 0 < |x| == |y|
    ensures CorrelationDefined(x, y) <==> !Constant(x, x[0]) && !Constant(y, y[0])
  {
    var s := Sums(x, y);
    SumsAligned(x, y);
    if Product(s) == 0.0 {
      ZeroFactor(s.denomX, s.denomY);
      if s.denomX == 0.0 {
        SumSqDevZero(x, Mean(x));
      } else {
        SumSqDevZero(y, Mean(y));
      }
    } else if Constant(x, x[0]) || Constant(y, y[0]) {
      SumsConstant(x, y);
    }
  }

  lemma ZeroFactor(a: real, b: real)
    requires a * b == 0.0
    ensures a == 0.0 || b == 0.0
  {
  }

  /** Where both are defined it agrees with the guarded correlation of `degree-days.ts`. */
  lemma CorrelationAgrees(sqrt: real -> real, x: seq<real>, y: seq<real>)
    requires IsSqrt(sqrt) && 0 < |x| == |y| && CorrelationDefined(x, y)
    ensures Correlation(sqrt, x, y) == DegreeDays.Correlation(sqrt, x, y)
  {
    SqrtZero(sqrt, Product(Sums(x, y)));
  }

  // ---------------------------------------------------------------------
  // Regime split and analysis
  // ---------------------------------------------------------------------

  /** The temperatures and their paired loads of one regime. */
  datatype Regime = Regime(temps: seq<real>, loads: seq<real>)

  /** Both regimes, as filled by the `forEach` loop. */
  datatype Split = Split(heating: Regime, cooling: Regime)

  /**
   * The first `n` steps of the `forEach`: a temperature below the base is
   * pushed, with its load, onto the heating regime, one above it onto the
   * cooling regime, one equal to it onto neither.
   */
  function SplitPrefix(temps: seq<real>, loads: seq<real>, base: real, n: nat): (r: Split)
    requires n <= |temps| <= |loads|
    ensures |r.heating.temps| == |r.heating.loads| && |r.cooling.temps| == |r.cooling.loads|
    ensures |r.heating.temps| + |r.cooling.temps| <= n
    ensures forall j :: 0 <= j < |r.heating.temps| ==> r.heating.temps[j] < base
    ensures forall j :: 0 <= j < |r.cooling.temps| ==> r.cooling.temps[j] > base
  {
    if n == 0 then Split(Regime([], []), Regime([], []))
    else
      var prev := SplitPrefix(temps, loads, base, n - 1);
      var t, l := temps[n - 1], loads[n - 1];
      if t < base then
        Split(Regime(prev.heating.temps + [t], prev.heating.loads + [l]), prev.cooling)
      else if t > base then
        Split(prev.heating, Regime(prev.cooling.temps + [t], prev.cooling.loads + [l]))
      else prev
  }

  /** The split of the whole series. */
  function SplitAt(temps: seq<real>, loads: seq<real>, base: real): Split
    requires |temps| <= |loads|
  {
    SplitPrefix(temps, loads, base, |temps|)
  }

  /** The positions of heating temperatures, in order. */
  function HeatingIndices(temps: seq<real>, base: real, n: nat): seq<nat>
  {
    Where(n, (i: nat) => i < |temps| && temps[i] < base)
  }

  /** The positions of cooling temperatures, in order. */
  function CoolingIndices(temps: seq<real>, base: real, n: nat): seq<nat>
  {
    Where(n, (i: nat) => i < |temps| && temps[i] > base)
  }

  /**
   * The heating regime holds exactly the temperatures below the base and the
   * loads at the same positions, in their original order.
   */
  lemma {:induction false} HeatingIsFilter(temps: seq<real>, loads: seq<real>, base: real, n: nat)
    requires n <= |temps| <= |loads|
    ensures SplitPrefix(temps, loads, base, n).heating
      == Regime(Pick(temps, HeatingIndices(temps, base, n)), Pick(loads, HeatingIndices(temps, base, n)))
  {
    if n > 0 {
      HeatingIsFilter(temps, loads, base, n - 1);
      var h := HeatingIndices(temps, base, n - 1);
      PickSnoc(temps, h, n - 1);
      PickSnoc(loads, h, n - 1);
    }
  }

  /**
   * The cooling regime holds exactly the temperatures above the base and the
   * loads at the same positions, in their original order.
   */
  lemma {:induction false} CoolingIsFilter(temps: seq<real>, loads: seq<real>, base: real, n: nat)
    requires n <= |temps| <= |loads|
    ensures SplitPrefix(temps, loads, base, n).cooling
      == Regime(Pick(temps, CoolingIndices(temps, base, n)), Pick(loads, CoolingIndices(temps, base, n)))
  {
    if n > 0 {
      CoolingIsFilter(temps, loads, base, n - 1);
      var c := CoolingIndices(temps, base, n - 1);
      PickSnoc(temps, c, n - 1);
      PickSnoc(loads, c, n - 1);
    }
  }

  /** A position lands in the heating regime iff below the base, cooling iff above; at the base in neither. */
  lemma SplitSides(temps: seq<real>, base: real, i: nat)
    requires i < |temps|
    ensures i in HeatingIndices(temps, base, |temps|) <==> temps[i] < base
    ensures i in CoolingIndices(temps, base, |temps|) <==> temps[i] > base
    ensures temps[i] == base ==> i !in HeatingIndices(temps, base, |temps|) + CoolingIndices(temps, base, |temps|)
  {
  }

  /** The minimum-load band of temperatures. */
  datatype ComfortZone = ComfortZone(min: real, max: real)

  /** The record `analyzeRegimes` returns. */
  datatype ThermalRegimeAnalysis = ThermalRegimeAnalysis(
    baseTemperature: real,
    heatingCorrelation: real,
    coolingCorrelation: real,
    heatingSlope: real,
    coolingSlope: real,
    comfortZone: Option<ComfortZone>)

  /** Positions of temperatures whose load equals the minimum of ALL loads. */
  function MinimumLoadIndices(temps: seq<real>, loads: seq<real>): (r: seq<nat>)
    ensures forall j :: 0 <= j < |r| ==> r[j] < |temps| && r[j] < |loads| && loads[r[j]] == Min(loads)
    ensures forall i :: 0 <= i < |temps| && i < |loads| && loads[i] == Min(loads) ==> i in r
  {
    Where(|temps|, (i: nat) => i < |temps| && 0 < |loads| && i < |loads| && loads[i] == Min(loads))
  }

  /**
   * The comfort zone: least and greatest temperature at a minimum-load
   * position. With no such position the source yields `Infinity` and
   * `-Infinity`, modelled as `None`.
   */
  function ComfortZoneOf(temps: seq<real>, loads: seq<real>): (r: Option<ComfortZone>)
    ensures r.None? <==> |MinimumLoadIndices(temps, loads)| == 0
    ensures r.Some? ==> r.value.min <= r.value.max
    ensures r.Some? ==> forall j :: 0 <= j < |MinimumLoadIndices(temps, loads)| ==>
      r.value.min <= temps[MinimumLoadIndices(temps, loads)[j]] <= r.value.max
    ensures r.Some? ==>
      exists i, k :: 0 <= i < |temps| && 0 <= k < |temps|
        && i < |loads| && k < |loads| && loads[i] == Min(loads) && loads[k] == Min(loads)
        && r.value.min == temps[i] && r.value.max == temps[k]
  {
    var idx := MinimumLoadIndices(temps, loads);
    if |idx| == 0 then None
    else
      BandExtremes(temps, idx);
      Some(ComfortZone(Min(Pick(temps, idx)), Max(Pick(temps, idx))))
  }

  /** The least and greatest of the picked values are picked values that bound all the others. */
  lemma BandExtremes(s: seq<real>, idx: seq<nat>)
    requires 0 < |idx| && forall j :: 0 <= j < |idx| ==> idx[j] < |s|
    ensures forall j :: 0 <= j < |idx| ==> Min(Pick(s, idx)) <= s[idx[j]] <= Max(Pick(s, idx))
    ensures exists a :: 0 <= a < |idx| && s[idx[a]] == Min(Pick(s, idx))
    ensures exists b :: 0 <= b < |idx| && s[idx[b]] == Max(Pick(s, idx))
  {
    var band := Pick(s, idx);
    assert forall j :: 0 <= j < |idx| ==> band[j] == s[idx[j]];
    var a :| 0 <= a < |band| && band[a] == Min(band);
    var b :| 0 <= b < |band| && band[b] == Max(band);
    assert s[idx[a]] == Min(band) && s[idx[b]] == Max(band);
  }

  /** Aligned non-empty series always have a comfort zone. */
  lemma ComfortZoneExists(temps: seq<real>, loads: seq<real>)
    requires 0 < |temps| == |loads|
    ensures ComfortZoneOf(temps, loads).Some?
  {
    var m := Min(loads);
    var i :| 0 <= i < |loads| && loads[i] == m;
    assert i in MinimumLoadIndices(temps, loads);
  }

  /** The source reads `loads[i]` for every temperature and divides by both regimes' correlation denominators. */
  predicate RegimesDefined(temps: seq<real>, loads: seq<real>, base: real)
  {
    |temps| <= |loads|
    && CorrelationDefined(SplitAt(temps, loads, base).heating.temps, SplitAt(temps, loads, base).heating.loads)
    && CorrelationDefined(SplitAt(temps, loads, base).cooling.temps, SplitAt(temps, loads, base).cooling.loads)
  }

  /** `analyzeRegimes`: correlation and slope per regime, and the comfort zone. */
  function AnalyzeRegimes(sqrt: real -> real, temps: seq<real>, loads: seq<real>, base: real)
    : (r: ThermalRegimeAnalysis)
    requires IsSqrt(sqrt) && RegimesDefined(temps, loads, base)
    ensures r.baseTemperature == base
    ensures -1.0 <= r.heatingCorrelation <= 1.0 && -1.0 <= r.coolingCorrelation <= 1.0
    ensures (forall i :: 0 <= i < |temps| ==> base <= temps[i]) ==> r.heatingCorrelation == 0.0 && r.heatingSlope == 0.0
    ensures (forall i :: 0 <= i < |temps| ==> temps[i] <= base) ==> r.coolingCorrelation == 0.0 && r.coolingSlope == 0.0
    ensures r.comfortZone == ComfortZoneOf(temps, loads)
    ensures var s := SplitAt(temps, loads, base);
      && r.heatingCorrelation == Correlation(sqrt, s.heating.temps, s.heating.loads)
      && r.heatingSlope == Slope(s.heating.temps, s.heating.loads)
      && r.coolingCorrelation == Correlation(sqrt, s.cooling.temps, s.cooling.loads)
      && r.coolingSlope == Slope(s.cooling.temps, s.cooling.loads)
  {
    var split := SplitAt(temps, loads, base);
    HeatingIsFilter(temps, loads, base, |temps|);
    CoolingIsFilter(temps, loads, base, |temps|);
    var h, c := split.heating, split.cooling;
    ThermalRegimeAnalysis(
      base,
      Correlation(sqrt, h.temps, h.loads),
      Correlation(sqrt, c.temps, c.loads),
      Slope(h.temps, h.loads),
      Slope(c.temps, c.loads),
      ComfortZoneOf(temps, loads))
  }
}
