/**
 * Multi-step forecasting of `lib/models/forecast-engine.ts`.
 *
 * `makeForecast` repeatedly predicts from the latest feature row, attaches
 * a normal-approximation interval built from the spread of the trees'
 * predictions, and rolls the row forward by a small random step in
 * temperature. `Math.random()` becomes the parameter `walk`, the draw used
 * after step `s` being `walk(s)`. The source reads `Date.now()` afresh in
 * every step; it becomes the parameter `clock`, the reading in step `s`
 * being `clock(s)`, and timestamps stay milliseconds rather than ISO
 * strings.
 */
module ForecastEngine {
  import opened Series
  import opened Options
  import opened Selection
  import opened RandomForest
  import opened Statistics
  import FeatureEngineering

  /** Milliseconds between consecutive forecast steps (one hour). */
  const HourMillis: int := 3600000

  /** The 97.5% normal quantile: the interval is the mean plus or minus this many standard deviations. */
  const Z95: real := 1.96

  datatype ForecastResult = ForecastResult(
    timestamp: int,
    predicted: real,
    /** `None` where the source divides by a zero mean and gets a non-finite value. */
    confidence: Option<real>,
    lowerBound: real,
    upperBound: real)

  // ---------------------------------------------------------------------
  // One forecast step
  // ---------------------------------------------------------------------

  /** Population standard deviation of the trees' predictions for `row`. */
  function Spread(sqrt: real -> real, row: seq<real>, trees: seq<Tree>): (r: real)
    requires IsSqrt(sqrt) && |trees| > 0
    ensures 0.0 <= r && Sq(r) == Variance(TreePredictions(row, trees))
  {
    VarianceNonNegative(TreePredictions(row, trees));
    sqrt(Variance(TreePredictions(row, trees)))
  }

  /** How far a confidence falls short of 1, in units of the prediction. */
  function Shortfall(f: ForecastResult): real
    requires f.confidence.Some?
  {
    (1.0 - f.confidence.value) * f.predicted
  }

  /**
   * The entry built from the forest mean and the spread: the confidence
   * `1 - std / mean` and the interval `mean -/+ 1.96 std`. The confidence
   * falls short of 1 by the interval's half-width relative to 1.96 times
   * the mean.
   */
  function Entry(timestamp: int, mean: real, std: real): (f: ForecastResult)
    requires 0.0 <= std
    ensures f.timestamp == timestamp && f.predicted == mean
    ensures f.lowerBound <= f.predicted <= f.upperBound
    ensures f.upperBound - f.predicted == f.predicted - f.lowerBound == Z95 * std
    ensures f.confidence.None? <==> mean == 0.0
    ensures f.confidence.Some? ==> Z95 * (1.0 - f.confidence.value) * mean == f.upperBound - f.predicted
    ensures f.confidence.Some? ==> Shortfall(f) == std
  {
    ForecastResult(
      timestamp,
      mean,
      if mean == 0.0 then None else Some(1.0 - std / mean),
      mean - Z95 * std,
      mean + Z95 * std)
  }

  /** One entry of the forecast for the feature row `row`. */
  function ForecastAt(sqrt: real -> real, trees: seq<Tree>, row: seq<real>, timestamp: int): (f: ForecastResult)
    requires IsSqrt(sqrt) && |trees| > 0
    ensures f.timestamp == timestamp
    ensures f.predicted == Mean(TreePredictions(row, trees))
    ensures f.lowerBound <= f.predicted <= f.upperBound
    ensures f.upperBound - f.predicted == f.predicted - f.lowerBound == Z95 * Spread(sqrt, row, trees)
    ensures f.confidence.None? <==> f.predicted == 0.0
    ensures f.confidence.Some? ==> Shortfall(f) == Spread(sqrt, row, trees)
  {
    Entry(timestamp, ForestMean(row, trees), Spread(sqrt, row, trees))
  }

  /** Where the mean prediction is not zero, the confidence is 1 exactly when every tree predicts the same value. */
  lemma FullConfidence(sqrt: real -> real, trees: seq<Tree>, row: seq<real>, timestamp: int)
    requires IsSqrt(sqrt) && |trees| > 0
    ensures var f := ForecastAt(sqrt, trees, row, timestamp);
      f.predicted != 0.0 ==>
        (f.confidence == Some(1.0) <==> Constant(TreePredictions(row, trees), PredictTree(row, trees[0])))
  {
    var p := TreePredictions(row, trees);
    var std := Spread(sqrt, row, trees);
    VarianceZero(p);
    SqPositive(std);
  }

  /** The interval's half-width is 1.96 standard deviations of the trees' predictions. */
  lemma ForecastSpread(sqrt: real -> real, trees: seq<Tree>, row: seq<real>, timestamp: int)
    requires IsSqrt(sqrt) && |trees| > 0
    ensures var f := ForecastAt(sqrt, trees, row, timestamp);
      Sq(f.upperBound - f.predicted) == Sq(Z95) * Variance(TreePredictions(row, trees))
  {
    HalfWidth(Spread(sqrt, row, trees));
  }

  lemma HalfWidth(std: real)
    requires 0.0 <= std
    ensures 0.0 <= Z95 * std && Sq(Z95 * std) == Sq(Z95) * Sq(std)
  {
  }

  /** The interval shrinks to a point exactly when every tree predicts the same value. */
  lemma IntervalCollapses(sqrt: real -> real, trees: seq<Tree>, row: seq<real>, timestamp: int)
    requires IsSqrt(sqrt) && |trees| > 0
    ensures var f := ForecastAt(sqrt, trees, row, timestamp);
      f.lowerBound == f.upperBound <==> Constant(TreePredictions(row, trees), PredictTree(row, trees[0]))
  {
    var p := TreePredictions(row, trees);
    var f := ForecastAt(sqrt, trees, row, timestamp);
    VarianceZero(p);
    VarianceNonNegative(p);
    ForecastSpread(sqrt, trees, row, timestamp);
    SqPositive(f.upperBound - f.predicted);
  }

  // ---------------------------------------------------------------------
  // Rolling the features forward
  // ---------------------------------------------------------------------

  /** `(Math.random() - 0.5) * 0.5`: a temperature step in [-0.25, 0.25). */
  function Perturb(u: Uniform): (d: real)
    ensures -0.25 <= d < 0.25
  {
    (u - 0.5) * 0.5
  }

  /** A copy of `row` whose temperature is moved by `d`. */
  function WithTemperature(row: seq<real>, d: real): (r: seq<real>)
    requires FeatureEngineering.Temperature < |row|
    ensures |r| == |row|
    ensures r[FeatureEngineering.Temperature] == row[FeatureEngineering.Temperature] + d
    ensures forall k :: 0 <= k < |row| && k != FeatureEngineering.Temperature ==> r[k] == row[k]
  {
    row[FeatureEngineering.Temperature := row[FeatureEngineering.Temperature] + d]
  }

  /** The total temperature step after `s` steps of the walk. */
  function Drift(walk: nat -> Uniform, s: nat): (d: real)
    ensures -0.25 * s as real <= d <= 0.25 * s as real
  {
    if s == 0 then 0.0 else Drift(walk, s - 1) + Perturb(walk(s - 1))
  }

  /**
   * The feature row the forecast uses at step `s`, starting from `last`:
   * only the temperature has moved, by the steps drawn so far.
   */
  function Row(last: seq<real>, walk: nat -> Uniform, s: nat): (r: seq<real>)
    requires FeatureEngineering.Temperature < |last|
    ensures |r| == |last|
    ensures forall k :: 0 <= k < |last| && k != FeatureEngineering.Temperature ==> r[k] == last[k]
    ensures var t := FeatureEngineering.Temperature;
      last[t] - 0.25 * s as real <= r[t] <= last[t] + 0.25 * s as real
    ensures r[FeatureEngineering.Temperature] == last[FeatureEngineering.Temperature] + Drift(walk, s)
  {
    WithTemperature(last, Drift(walk, s))
  }

  /** Rolling the row one step further moves its temperature by the next draw. */
  lemma RowStep(last: seq<real>, walk: nat -> Uniform, s: nat)
    requires FeatureEngineering.Temperature < |last|
    ensures Row(last, walk, s + 1) == WithTemperature(Row(last, walk, s), Perturb(walk(s)))
  {
  }

  /** The time of step `s`: `s` hours after the clock's reading in that step. */
  function Stamp(clock: nat -> int, s: nat): (r: int)
    ensures r == clock(s) + s * 3600000
    ensures clock(s) <= r
    ensures s == 0 ==> r == clock(0)
  {
    clock(s) + s * HourMillis
  }

  /**
   * Consecutive stamps lie at least an hour apart while the clock does not
   * run backwards, and exactly an hour apart when it reads the same in both
   * steps.
   */
  lemma StampSpacing(clock: nat -> int, s: nat)
    requires clock(s) <= clock(s + 1)
    ensures Stamp(clock, s + 1) - Stamp(clock, s) >= HourMillis
    ensures clock(s + 1) == clock(s) <==> Stamp(clock, s + 1) - Stamp(clock, s) == HourMillis
  {
  }

  /** The last element of a non-empty sequence. */
  function Last<T>(s: seq<T>): T
    requires |s| > 0
  {
    s[|s| - 1]
  }

  /**
   * `makeForecast`: `steps` hourly entries (none when `steps` is not
   * positive). Entry `s` predicts from the current features rolled forward
   * `s` times. The source reads the last row and the trees only when a step
   * runs, so only then must they exist.
   */
  method MakeForecast(
    sqrt: real -> real, trees: seq<Tree>, currentFeatures: seq<seq<real>>, steps: int, clock: nat -> int, walk: nat -> Uniform)
    returns (forecast: seq<ForecastResult>)
    requires IsSqrt(sqrt)
    requires steps > 0 ==>
      |trees| > 0 && |currentFeatures| > 0 && FeatureEngineering.Temperature < |Last(currentFeatures)|
    ensures steps <= 0 ==> forecast == []
    ensures steps > 0 ==> |forecast| == steps && forall s: nat :: s < steps ==>
      forecast[s] == ForecastAt(sqrt, trees, Row(Last(currentFeatures), walk, s), Stamp(clock, s))
  {
    if steps <= 0 {
      return [];
    }
    forecast := Roll(sqrt, trees, currentFeatures, steps, clock, walk);
  }

  /**
   * The loop of `makeForecast`: each step predicts from the newest feature
   * row, then appends that row with its temperature moved by the step's
   * draw. After `n` steps the entries are the rollout of `n` steps.
   */
  method Roll(
    sqrt: real -> real, trees: seq<Tree>, currentFeatures: seq<seq<real>>, steps: nat, clock: nat -> int, walk: nat -> Uniform)
    returns (forecast: seq<ForecastResult>)
    requires IsSqrt(sqrt) && |trees| > 0
    requires |currentFeatures| > 0 && FeatureEngineering.Temperature < |Last(currentFeatures)|
    ensures forecast == Rollout(sqrt, trees, Last(currentFeatures), walk, clock, steps)
  {
    forecast := [];
    var last := Last(currentFeatures);
    var features := currentFeatures;
    var step := 0;
    while step < steps
      invariant 0 <= step <= steps
      invariant |features| == |currentFeatures| + step
      invariant Last(features) == Row(last, walk, step)
      invariant forecast == Rollout(sqrt, trees, last, walk, clock, step)
    {
      var lastFeature := features[|features| - 1];
      var entry := ForecastAt(sqrt, trees, lastFeature, Stamp(clock, step));
      forecast := forecast + [entry];
      var updatedFeature := WithTemperature(lastFeature, Perturb(walk(step)));
      features := features + [updatedFeature];
      RowStep(last, walk, step);
      step := step + 1;
    }
  }

  /** The first `n` entries of a forecast from `last`, built one step at a time. */
  function Rollout(sqrt: real -> real, trees: seq<Tree>, last: seq<real>, walk: nat -> Uniform, clock: nat -> int, n: nat)
    : (r: seq<ForecastResult>)
    requires IsSqrt(sqrt) && |trees| > 0 && FeatureEngineering.Temperature < |last|
    ensures |r| == n
    ensures forall s: nat :: s < n ==> r[s] == ForecastAt(sqrt, trees, Row(last, walk, s), Stamp(clock, s))
  {
    if n == 0 then [] else Rollout(sqrt, trees, last, walk, clock, n - 1) + [ForecastAt(sqrt, trees, Row(last, walk, n - 1), Stamp(clock, n - 1))]
  }

  // ---------------------------------------------------------------------
  // Forecast accuracy
  // ---------------------------------------------------------------------

  datatype Interval = Interval(lower: real, upper: real)

  /**
   * The metrics of `evaluateForecastAccuracy`. `mape` is `None` where an
   * actual value is 0 and the source's division yields a non-finite value.
   */
  datatype Accuracy = Accuracy(mape: Option<real>, rmse: real, picp: real)

  predicate Covers(b: Interval, x: real)
  {
    b.lower <= x <= b.upper
  }

  /** Whether position `k` of the actual series falls inside its interval. */
  function Hit(actual: seq<real>, bounds: seq<Interval>): (nat -> bool)
    requires |actual| <= |bounds|
  {
    (k: nat) => k < |actual| && Covers(bounds[k], actual[k])
  }

  /** The positions whose actual value lies inside its interval. */
  function Covered(actual: seq<real>, bounds: seq<Interval>): (r: seq<nat>)
    requires |actual| <= |bounds|
    ensures forall k: nat :: k in r <==> k < |actual| && Covers(bounds[k], actual[k])
  {
    Where(|actual|, Hit(actual, bounds))
  }

  /** Every actual value is covered exactly when the covered positions number all of them. */
  lemma FullCoverage(actual: seq<real>, bounds: seq<Interval>)
    requires |actual| <= |bounds|
    ensures |Covered(actual, bounds)| == |actual| <==> forall k :: 0 <= k < |actual| ==> Covers(bounds[k], actual[k])
  {
    var n := |actual|;
    var keep := Hit(actual, bounds);
    if forall k :: 0 <= k < n ==> Covers(bounds[k], actual[k]) {
      WhereAll(n, keep);
    } else {
      var k :| 0 <= k < n && !Covers(bounds[k], actual[k]);
      var drop := (i: nat) => !keep(i);
      WhereSizes(n, keep, drop);
      assert k in Where(n, drop);
    }
  }

  /**
   * The prediction-interval coverage probability: the share of actual
   * values inside their intervals. It is 1 exactly when every value is covered.
   */
  function CoverageProbability(actual: seq<real>, bounds: seq<Interval>): (p: real)
    requires 0 < |actual| <= |bounds|
    ensures p * |actual| as real == |Covered(actual, bounds)| as real
    ensures 0.0 <= p <= 1.0
    ensures p == 1.0 <==> forall k :: 0 <= k < |actual| ==> Covers(bounds[k], actual[k])
  {
    var p := |Covered(actual, bounds)| as real / |actual| as real;
    Coverage(|Covered(actual, bounds)|, |actual|, p);
    FullCoverage(actual, bounds);
    p
  }

  ghost predicate NoZero(s: seq<real>)
  {
    forall i :: 0 <= i < |s| ==> s[i] != 0.0
  }

  /**
   * `evaluateForecastAccuracy`: MAPE in percent, RMSE, and the share of
   * actual values inside their intervals. With no actual values the source
   * divides 0 by 0; the model answers `None`. Positions past the actual
   * series are ignored; the predictions and intervals must reach that far.
   */
  method EvaluateForecastAccuracy(sqrt: real -> real, actual: seq<real>, predicted: seq<real>, bounds: seq<Interval>)
    returns (r: Option<Accuracy>)
    requires IsSqrt(sqrt)
    requires |actual| <= |predicted| && |actual| <= |bounds|
    ensures r.None? <==> |actual| == 0
    ensures r.Some? ==> r.value.rmse == Rmse(sqrt, actual, predicted[..|actual|])
    ensures r.Some? ==> (r.value.mape.Some? <==> NoZero(actual))
    ensures r.Some? && r.value.mape.Some? ==> r.value.mape.value == Mape(actual, predicted[..|actual|])
    ensures r.Some? ==> r.value.picp == CoverageProbability(actual, bounds)
  {
    var finite, mape, rmse, coverage := Accumulate(actual, predicted, bounds);
    if |actual| == 0 {
      return None;
    }
    var picp := coverage as real / |actual| as real;
    assert actual[..|actual|] == actual && predicted[..|actual|][..|actual|] == predicted[..|actual|];
    r := Some(Accuracy(if finite then Some(mape / |actual| as real * 100.0) else None, sqrt(rmse / |actual| as real), picp));
  }

  /**
   * The loop of `evaluateForecastAccuracy`: running totals of the relative
   * errors, the squared errors and the covered positions.
   */
  method Accumulate(actual: seq<real>, predicted: seq<real>, bounds: seq<Interval>)
    returns (finite: bool, mape: real, rmse: real, coverage: nat)
    requires |actual| <= |predicted| && |actual| <= |bounds|
    ensures rmse == SumSqDiff(actual, predicted[..|actual|])
    ensures finite <==> NoZero(actual)
    ensures finite ==> mape == PercentErrorSum(actual, predicted[..|actual|])
    ensures coverage == |Covered(actual, bounds)|
  {
    var n := |actual|;
    mape, finite, rmse, coverage := 0.0, true, 0.0, 0;
    var i := 0;
    while i < n
      invariant 0 <= i <= n
      invariant rmse == SumSqDiff(actual[..i], predicted[..i])
      invariant finite <==> NoZero(actual[..i])
      invariant finite ==> mape == PercentErrorSum(actual[..i], predicted[..i])
      invariant coverage == |Where(i, Hit(actual, bounds))|
    {
      AccumulateStep(actual, predicted, bounds, i);
      if actual[i] == 0.0 {
        finite := false;
      } else {
        mape := mape + Abs((actual[i] - predicted[i]) / actual[i]);
      }
      rmse := rmse + Sq(actual[i] - predicted[i]);
      if Covers(bounds[i], actual[i]) {
        coverage := coverage + 1;
      }
      i := i + 1;
    }
    assert actual[..n] == actual;
  }

  /** How each running total of `Accumulate` changes when position `i` is added. */
  lemma AccumulateStep(actual: seq<real>, predicted: seq<real>, bounds: seq<Interval>, i: nat)
    requires i < |actual| <= |predicted| && |actual| <= |bounds|
    ensures SumSqDiff(actual[..i + 1], predicted[..i + 1])
         == SumSqDiff(actual[..i], predicted[..i]) + Sq(actual[i] - predicted[i])
    ensures NoZero(actual[..i + 1]) <==> NoZero(actual[..i]) && actual[i] != 0.0
    ensures PercentErrorSum(actual[..i + 1], predicted[..i + 1])
         == PercentErrorSum(actual[..i], predicted[..i])
            + (if actual[i] == 0.0 then 0.0 else Abs((actual[i] - predicted[i]) / actual[i]))
    ensures |Where(i + 1, Hit(actual, bounds))|
         == |Where(i, Hit(actual, bounds))| + (if Covers(bounds[i], actual[i]) then 1 else 0)
  {
    assert actual[..i + 1] == actual[..i] + [actual[i]];
    assert predicted[..i + 1] == predicted[..i] + [predicted[i]];
    SumSqDiffSnoc(actual[..i], predicted[..i], actual[i], predicted[i]);
    PercentErrorSumSnoc(actual[..i], predicted[..i], actual[i], predicted[i]);
  }

  lemma Coverage(coverage: nat, n: nat, picp: real)
    requires coverage <= n && 0 < n && picp == coverage as real / n as real
    ensures picp * n as real == coverage as real && 0.0 <= picp <= 1.0
    ensures picp == 1.0 <==> coverage == n
  {
  }
}
