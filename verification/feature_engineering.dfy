/**
 * The feature builder of `lib/analysis/feature-engineering.ts`. A feature
 * vector is a row of 16 reals indexed by the positions below, in the order
 * the record declares its fields; boolean flags are stored as 0 or 1, as
 * `buildFeatureVector` does.
 */
module FeatureEngineering {
  import opened Series
  import opened Regression
  import Statistics

  const Temperature: nat := 0
  const Humidity: nat := 1
  const ThermalMomentum3h: nat := 2
  const ThermalMomentum24h: nat := 3
  const HourOfDay: nat := 4
  const DayOfWeek: nat := 5
  const DayOfYear: nat := 6
  const IsBusinessHour: nat := 7
  const IsPeakHour: nat := 8
  const IsWeekend: nat := 9
  const TemperatureSin: nat := 10
  const TemperatureCos: nat := 11
  const HourSin: nat := 12
  const HourCos: nat := 13
  const MonthSin: nat := 14
  const MonthCos: nat := 15
  /** Number of fields of a feature vector. */
  const FeatureCount: nat := 16

  // ---------------------------------------------------------------------
  // Trailing windows: thermal momentum and anomalies
  // ---------------------------------------------------------------------

  /** `Math.max(0, i - windowSize + 1)`. */
  function WindowStart(i: nat, windowSize: int): nat
  {
    if i - windowSize + 1 > 0 then i - windowSize + 1 else 0
  }

  /** `values.slice(start, i + 1)`: empty when the start lies past `i`. */
  function Window(values: seq<real>, i: nat, windowSize: int): (r: seq<real>)
    requires i < |values|
    ensures 1 <= windowSize ==> |r| > 0
  {
    var start := WindowStart(i, windowSize);
    if start <= i then values[start..i + 1] else []
  }

  /** The mean of one trailing window, bounded by the window's extremes. */
  function MomentumAt(values: seq<real>, i: nat, windowSize: int): (r: real)
    requires i < |values| && 1 <= windowSize
    ensures Min(Window(values, i, windowSize)) <= r <= Max(Window(values, i, windowSize))
    ensures IsMean(Window(values, i, windowSize), r)
  {
    var w := Window(values, i, windowSize);
    MeanBetweenMinMax(w);
    MeanIsMean(w);
    Mean(w)
  }

  /**
   * `calculateThermalMomentum`: the mean of each trailing window of
   * `windowSize` readings (fewer at the start of the series).
   */
  function ThermalMomentum(temperatures: seq<real>, windowSize: int): (r: seq<real>)
    requires 1 <= windowSize
    ensures |r| == |temperatures|
    ensures forall i :: 0 <= i < |r| ==>
      Min(Window(temperatures, i, windowSize)) <= r[i] <= Max(Window(temperatures, i, windowSize))
    ensures forall i :: 0 <= i < |r| ==> IsMean(Window(temperatures, i, windowSize), r[i])
  {
    seq(|temperatures|, i requires 0 <= i < |temperatures| => MomentumAt(temperatures, i, windowSize))
  }

  /** The momentum at `i` never reads a later reading: appending data does not change it. */
  lemma MomentumCausal(temperatures: seq<real>, later: seq<real>, windowSize: int, i: nat)
    requires 1 <= windowSize && i < |temperatures|
    ensures ThermalMomentum(temperatures + later, windowSize)[i] == ThermalMomentum(temperatures, windowSize)[i]
  {
    assert Window(temperatures + later, i, windowSize) == Window(temperatures, i, windowSize);
  }

  /** A window of one reading reproduces the series. */
  lemma MomentumUnitWindow(temperatures: seq<real>)
    ensures ThermalMomentum(temperatures, 1) == temperatures
  {
    forall i | 0 <= i < |temperatures|
      ensures ThermalMomentum(temperatures, 1)[i] == temperatures[i]
    {
      assert Window(temperatures, i, 1) == [temperatures[i]];
    }
  }

  /**
   * Whether reading `i` deviates from its trailing window's mean by more
   * than `threshold` standard deviations. An empty window makes the mean
   * `NaN`, and a comparison with `NaN` is false.
   */
  function AnomalyAt(sqrt: real -> real, values: seq<real>, i: nat, windowSize: int, threshold: real): bool
    requires i < |values|
  {
    var w := Window(values, i, windowSize);
    if |w| == 0 then false
    else Statistics.Abs(values[i] - Mean(w)) > Mul(threshold, sqrt(Variance(w)))
  }

  /** `detectAnomalies`: one flag per reading; the first reading is never flagged. */
  function DetectAnomalies(sqrt: real -> real, values: seq<real>, windowSize: int, threshold: real): (r: seq<bool>)
    requires IsSqrt(sqrt)
    ensures |r| == |values|
    ensures |values| > 0 ==> !r[0]
    ensures windowSize <= 0 ==> forall i :: 0 <= i < |r| ==> !r[i]
  {
    if |values| > 0 then
      FirstReadingQuiet(sqrt, values, windowSize, threshold);
      seq(|values|, i requires 0 <= i < |values| => AnomalyAt(sqrt, values, i, windowSize, threshold))
    else []
  }

  /** A window holding only the reading itself has mean equal to it and no spread. */
  lemma FirstReadingQuiet(sqrt: real -> real, values: seq<real>, windowSize: int, threshold: real)
    requires IsSqrt(sqrt) && |values| > 0
    ensures !AnomalyAt(sqrt, values, 0, windowSize, threshold)
  {
    var w := Window(values, 0, windowSize);
    if |w| > 0 {
      assert w == [values[0]];
      assert Constant(w, values[0]);
      MeanConstant(w, values[0]);
      VarianceZero(w);
      SqrtZero(sqrt, 0.0);
    }
  }

  /**
   * Without the root: for a non-negative threshold a reading is flagged
   * exactly when its squared deviation exceeds threshold squared times the
   * window's variance.
   */
  lemma AnomalySquared(sqrt: real -> real, values: seq<real>, windowSize: int, threshold: real, i: nat)
    requires IsSqrt(sqrt) && 0.0 <= threshold && 1 <= windowSize && i < |values|
    ensures DetectAnomalies(sqrt, values, windowSize, threshold)[i]
      <==> Sq(values[i] - Mean(Window(values, i, windowSize)))
           > Mul(Sq(threshold), Variance(Window(values, i, windowSize)))
  {
    var w := Window(values, i, windowSize);
    var v := Variance(w);
    assert 0.0 <= sqrt(v) && Sq(sqrt(v)) == v by {
      VarianceNonNegative(w);
    }
    assert DetectAnomalies(sqrt, values, windowSize, threshold)[i]
      == (Statistics.Abs(values[i] - Mean(w)) > Mul(threshold, sqrt(v)));
    AbsVersusBound(values[i] - Mean(w), threshold, sqrt(v), v);
  }

  /** `|d| > t * sd` compared in squares, where `sd` is the root of `v`. */
  lemma AbsVersusBound(d: real, t: real, sd: real, v: real)
    requires 0.0 <= t && 0.0 <= sd && Sq(sd) == v
    ensures Statistics.Abs(d) > Mul(t, sd) <==> Sq(d) > Mul(Sq(t), v)
  {
    var bound := Mul(t, sd);
    assert 0.0 <= bound by {
      MulNonNegative(t, sd);
    }
    assert Sq(bound) == Mul(Sq(t), v) by {
      SqProduct(t, sd);
    }
    var a := Statistics.Abs(d);
    assert Sq(a) == Sq(d) by {
      SqNegate(d);
    }
    if a > bound {
      SqLess(bound, a);
    } else {
      SqMonotone(a, bound);
    }
  }

  lemma MulNonNegative(a: real, b: real)
    requires 0.0 <= a && 0.0 <= b
    ensures 0.0 <= Mul(a, b)
  {
  }

  lemma SqProduct(a: real, b: real)
    ensures Sq(Mul(a, b)) == Sq(a) * Sq(b)
  {
  }

  lemma SqMonotone(x: real, y: real)
    requires 0.0 <= x <= y
    ensures Sq(x) <= Sq(y)
  {
    if x < y {
      SqLess(x, y);
    }
  }

  // ---------------------------------------------------------------------
  // Calendar flags and cyclical encoding
  // ---------------------------------------------------------------------

  /** The three calendar flags of `extractTemporalFeatures`. */
  datatype TemporalFlags = TemporalFlags(isBusinessHour: bool, isPeakHour: bool, isWeekend: bool)

  /** Business hours are 9 to 17 inclusive, peaks at 8, 12 and 18, weekends Sunday (0) and Saturday (6). */
  function Flags(hour: int, dayOfWeek: int): (r: TemporalFlags)
    ensures r.isBusinessHour || r.isPeakHour <==> 8 <= hour <= 18
    ensures r.isBusinessHour && r.isPeakHour <==> hour == 12
    ensures r.isPeakHour && !r.isBusinessHour <==> hour == 8 || hour == 18
    ensures 0 <= dayOfWeek < 7 ==> (r.isWeekend <==> dayOfWeek % 6 == 0)
  {
    TemporalFlags(9 <= hour <= 17, hour in {8, 12, 18}, dayOfWeek == 0 || dayOfWeek == 6)
  }

  /** Of a day's 24 hours, 9 are business hours and 3 are peaks; of a week's 7 days, 2 are weekend days. */
  lemma FlagCounts()
    ensures |set h | 0 <= h < 24 && Flags(h, 0).isBusinessHour| == 9
    ensures |set h | 0 <= h < 24 && Flags(h, 0).isPeakHour| == 3
    ensures |set d | 0 <= d < 7 && Flags(0, d).isWeekend| == 2
  {
    BusinessHours();
    PeakHours();
    assert (set d | 0 <= d < 7 && Flags(0, d).isWeekend) == {0, 6};
  }

  /** The business hours of a day. */
  lemma BusinessHours()
    ensures (set h | 0 <= h < 24 && Flags(h, 0).isBusinessHour) == {9, 10, 11, 12, 13, 14, 15, 16, 17}
  {
  }

  /** The peak hours of a day. */
  lemma PeakHours()
    ensures (set h | 0 <= h < 24 && Flags(h, 0).isPeakHour) == {8, 12, 18}
  {
  }

  /** A flag as the number `buildFeatureVector` stores. */
  function Indicator(b: bool): (r: real)
    ensures r == 0.0 || r == 1.0
    ensures r == 1.0 <==> b
  {
    if b then 1.0 else 0.0
  }

  /** `Math.PI` to the precision of a double. */
  const PI: real := 3.141592653589793

  /** The sine and cosine of an angle. */
  datatype Cyclical = Cyclical(sin: real, cos: real)

  /** The angle of `value` on a circle of circumference `max`. */
  function Radians(value: real, max: real): real
    requires max != 0.0
  {
    (2.0 * PI * value) / max
  }

  /** Zero is no turn, `max` one full turn and half of `max` half a turn. */
  lemma RadiansTurns(value: real, max: real)
    requires max != 0.0
    ensures value == 0.0 ==> Radians(value, max) == 0.0
    ensures value == max ==> Radians(value, max) == 2.0 * PI
    ensures 2.0 * value == max ==> Radians(value, max) == PI
  {
  }

  /** `cyclicalEncode`, with the trigonometric functions as parameters. */
  function CyclicalEncode(sin: real -> real, cos: real -> real, value: real, max: real): (r: Cyclical)
    requires max != 0.0
    ensures value == 0.0 ==> r == Cyclical(sin(0.0), cos(0.0))
    ensures value == max ==> r == Cyclical(sin(2.0 * PI), cos(2.0 * PI))
    ensures 2.0 * value == max ==> r == Cyclical(sin(PI), cos(PI))
  {
    RadiansTurns(value, max);
    Cyclical(sin(Radians(value, max)), cos(Radians(value, max)))
  }

  /** One full turn further. */
  function Turn(x: real): real
  {
    x + 2.0 * PI
  }

  /** A function with period two pi, as sine and cosine are. */
  ghost predicate Periodic(f: real -> real)
  {
    forall x {:trigger f(Turn(x))} :: f(Turn(x)) == f(x)
  }

  /** The point of the encoding: `value` and `value + max` (hour 24 and hour 0) get the same code. */
  lemma CyclicalWraps(sin: real -> real, cos: real -> real, value: real, max: real)
    requires max != 0.0 && Periodic(sin) && Periodic(cos)
    ensures CyclicalEncode(sin, cos, value + max, max) == CyclicalEncode(sin, cos, value, max)
  {
    var x := Radians(value, max);
    assert Radians(value + max, max) == Turn(x);
    assert sin(Turn(x)) == sin(x);
    assert cos(Turn(x)) == cos(x);
  }

  /**
   * `buildFeatureVector` for the hour, weekday, day of year and month that
   * `extractTemporalFeatures` reads off the date.
   */
  function BuildFeatureVector(
    sin: real -> real, cos: real -> real,
    temperature: real, humidity: real, thermalMom3h: real, thermalMom24h: real,
    hour: int, dayOfWeek: int, dayOfYear: int, month: int): (r: seq<real>)
    ensures |r| == FeatureCount
    ensures r[Temperature] == temperature && r[Humidity] == humidity
    ensures r[ThermalMomentum3h] == thermalMom3h && r[ThermalMomentum24h] == thermalMom24h
    ensures r[HourOfDay] == hour as real && r[DayOfWeek] == dayOfWeek as real && r[DayOfYear] == dayOfYear as real
    ensures (r[IsBusinessHour] == 0.0 || r[IsBusinessHour] == 1.0) && (r[IsBusinessHour] == 1.0 <==> 9 <= hour <= 17)
    ensures (r[IsPeakHour] == 0.0 || r[IsPeakHour] == 1.0) && (r[IsPeakHour] == 1.0 <==> hour == 8 || hour == 12 || hour == 18)
    ensures (r[IsWeekend] == 0.0 || r[IsWeekend] == 1.0) && (r[IsWeekend] == 1.0 <==> dayOfWeek == 0 || dayOfWeek == 6)
    ensures Cyclical(r[TemperatureSin], r[TemperatureCos]) == CyclicalEncode(sin, cos, temperature, 50.0)
    ensures Cyclical(r[HourSin], r[HourCos]) == CyclicalEncode(sin, cos, hour as real, 24.0)
    ensures Cyclical(r[MonthSin], r[MonthCos]) == CyclicalEncode(sin, cos, month as real, 12.0)
  {
    var flags := Flags(hour, dayOfWeek);
    var t := CyclicalEncode(sin, cos, temperature, 50.0);
    var h := CyclicalEncode(sin, cos, hour as real, 24.0);
    var m := CyclicalEncode(sin, cos, month as real, 12.0);
    [temperature, humidity, thermalMom3h, thermalMom24h,
     hour as real, dayOfWeek as real, dayOfYear as real,
     Indicator(flags.isBusinessHour), Indicator(flags.isPeakHour), Indicator(flags.isWeekend),
     t.sin, t.cos, h.sin, h.cos, m.sin, m.cos]
  }

  /** Midnight of the next day encodes like midnight: hour 24 and hour 0 share their sine and cosine. */
  lemma HourEncodingWraps(
    sin: real -> real, cos: real -> real,
    temperature: real, humidity: real, thermalMom3h: real, thermalMom24h: real,
    hour: int, dayOfWeek: int, dayOfYear: int, month: int)
    requires Periodic(sin) && Periodic(cos)
    ensures
      var a := BuildFeatureVector(sin, cos, temperature, humidity, thermalMom3h, thermalMom24h, hour, dayOfWeek, dayOfYear, month);
      var b := BuildFeatureVector(sin, cos, temperature, humidity, thermalMom3h, thermalMom24h, hour + 24, dayOfWeek, dayOfYear, month);
      a[HourSin] == b[HourSin] && a[HourCos] == b[HourCos]
  {
    CyclicalWraps(sin, cos, hour as real, 24.0);
    assert (hour + 24) as real == hour as real + 24.0;
  }

  // ---------------------------------------------------------------------
  // Columns: normalisation and importance
  // ---------------------------------------------------------------------

  /**
   * A non-empty list of vectors with the key set of the first one; the
   * source reads its keys off `features[0]`.
   */
  predicate Rectangular(features: seq<seq<real>>)
  {
    |features| > 0 && forall i :: 0 <= i < |features| ==> |features[i]| == |features[0]|
  }

  /** The values of key `k` across all vectors (`features.map(f => f[key])`). */
  function Column(features: seq<seq<real>>, k: nat): (r: seq<real>)
    requires Rectangular(features) && k < |features[0]|
    ensures |r| == |features| && forall i :: 0 <= i < |r| ==> r[i] == features[i][k]
  {
    seq(|features|, i requires 0 <= i < |features| => features[i][k])
  }

  /** One key's scaler entry. */
  datatype ScalerEntry = ScalerEntry(min: real, max: real, range: real)

  /** The normalised vectors and the scaler, keyed by position. */
  datatype Normalization = Normalization(normalized: seq<seq<real>>, scaler: seq<ScalerEntry>)

  /** The scaler entry of one column: its extremes and their distance. */
  function ScalerOf(column: seq<real>): (r: ScalerEntry)
    requires |column| > 0
    ensures r.range == r.max - r.min
    ensures forall i :: 0 <= i < |column| ==> r.min <= column[i] <= r.max
    ensures r.min in column && r.max in column
  {
    ScalerEntry(Min(column), Max(column), Max(column) - Min(column))
  }

  /** The scaler entry is the only one whose bounds are values of the column enclosing all of it. */
  lemma ScalerUnique(column: seq<real>, e: ScalerEntry)
    requires |column| > 0 && e.range == e.max - e.min
    requires forall i :: 0 <= i < |column| ==> e.min <= column[i] <= e.max
    requires e.min in column && e.max in column
    ensures e == ScalerOf(column)
  {
  }

  /**
   * `normalizeFeatures`: every key min-max scaled over all vectors; a key
   * whose values are all equal scales to 0.
   */
  function NormalizeFeatures(features: seq<seq<real>>): (r: Normalization)
    requires Rectangular(features)
    ensures |r.normalized| == |features| && |r.scaler| == |features[0]|
    ensures r.scaler == Scalers(features)
    ensures forall i :: 0 <= i < |features| ==> |r.normalized[i]| == |features[0]|
    ensures forall k :: 0 <= k < |r.scaler| ==> r.scaler[k].range == r.scaler[k].max - r.scaler[k].min
    ensures forall i, k :: 0 <= i < |features| && 0 <= k < |r.scaler| ==>
      r.scaler[k].min <= features[i][k] <= r.scaler[k].max
    ensures forall i, k :: 0 <= i < |features| && 0 <= k < |r.scaler| ==>
      0.0 <= r.normalized[i][k] <= 1.0
    ensures forall i, k :: 0 <= i < |features| && 0 <= k < |r.scaler| && r.scaler[k].range == 0.0 ==>
      r.normalized[i][k] == 0.0
    ensures forall i, k :: 0 <= i < |features| && 0 <= k < |r.scaler| && r.scaler[k].range != 0.0 ==>
      Statistics.Unscale(r.normalized[i][k], r.scaler[k].min, r.scaler[k].range) == features[i][k]
  {
    var r := Normalization(NormalizedRows(features), Scalers(features));
    NormalizationEntries(features, r);
    r
  }

  /** The scaler entry of every key. */
  function Scalers(features: seq<seq<real>>): (r: seq<ScalerEntry>)
    requires Rectangular(features)
    ensures |r| == |features[0]|
    ensures forall k :: 0 <= k < |r| ==> r[k] == ScalerOf(Column(features, k))
  {
    seq(|features[0]|, k requires 0 <= k < |features[0]| => ScalerOf(Column(features, k)))
  }

  /** The vectors rebuilt from the min-max normalised columns. */
  function NormalizedRows(features: seq<seq<real>>): (r: seq<seq<real>>)
    requires Rectangular(features)
    ensures |r| == |features| && forall i :: 0 <= i < |r| ==> |r[i]| == |features[0]|
    ensures forall i, k :: 0 <= i < |features| && 0 <= k < |features[0]| ==>
      r[i][k] == Statistics.MinMaxNormalize(Column(features, k))[i]
  {
    var width := |features[0]|;
    var columns := seq(width, k requires 0 <= k < width => Statistics.MinMaxNormalize(Column(features, k)));
    seq(|features|, i requires 0 <= i < |features| =>
      seq(width, k requires 0 <= k < width => columns[k][i]))
  }

  /** What the scaler and the normalised value of one vector's key satisfy. */
  ghost predicate EntryFacts(v: real, x: real, e: ScalerEntry)
  {
    e.range == e.max - e.min && e.min <= x <= e.max && 0.0 <= v <= 1.0
    && (e.range == 0.0 ==> v == 0.0)
    && (e.range != 0.0 ==> Statistics.Unscale(v, e.min, e.range) == x)
  }

  lemma NormalizationEntries(features: seq<seq<real>>, r: Normalization)
    requires Rectangular(features) && r == Normalization(NormalizedRows(features), Scalers(features))
    ensures forall i, k :: 0 <= i < |features| && 0 <= k < |r.scaler| ==>
      EntryFacts(r.normalized[i][k], features[i][k], r.scaler[k])
  {
    forall i, k | 0 <= i < |features| && 0 <= k < |r.scaler|
      ensures EntryFacts(r.normalized[i][k], features[i][k], r.scaler[k])
    {
      var c := Column(features, k);
      assert c[i] == features[i][k];
      assert r.normalized[i][k] == Statistics.MinMaxNormalize(c)[i];
    }
  }

  /** Each normalised column is the min-max normalisation of the original column. */
  lemma NormalizedColumn(features: seq<seq<real>>, k: nat)
    requires Rectangular(features) && k < |features[0]|
    ensures Rectangular(NormalizeFeatures(features).normalized)
    ensures Column(NormalizeFeatures(features).normalized, k) == Statistics.MinMaxNormalize(Column(features, k))
  {
  }

  /** Normalising normalised features changes nothing. */
  lemma NormalizeIdempotent(features: seq<seq<real>>)
    requires Rectangular(features)
    ensures Rectangular(NormalizeFeatures(features).normalized)
    ensures NormalizeFeatures(NormalizeFeatures(features).normalized).normalized
      == NormalizeFeatures(features).normalized
  {
    var once := NormalizeFeatures(features).normalized;
    var twice := NormalizeFeatures(once).normalized;
    forall i | 0 <= i < |features|
      ensures twice[i] == once[i]
    {
      forall k | 0 <= k < |features[0]|
        ensures twice[i][k] == once[i][k]
      {
        NormalizedColumn(features, k);
        NormalizedColumn(once, k);
        Statistics.MinMaxNormalizeIdempotent(Column(features, k));
        assert twice[i][k] == Column(twice, k)[i];
      }
    }
  }

  /** The correlation helper of this file: no guard at all, so a defined result needs a non-zero denominator. */
  function Correlation(sqrt: real -> real, x: seq<real>, y: seq<real>): (r: real)
    requires IsSqrt(sqrt) && 0 < |x| <= |y| && Product(Sums(x, y)) != 0.0
    ensures -1.0 <= r <= 1.0
    ensures r * sqrt(Product(Sums(x, y))) == Sums(x, y).numerator
  {
    var s := Sums(x, y);
    SqrtZero(sqrt, Product(s));
    Ratio(sqrt, s.numerator, Product(s))
  }

  /** A column that is not constant correlates with itself at 1. */
  lemma CorrelationSelf(sqrt: real -> real, x: seq<real>)
    requires IsSqrt(sqrt) && 0 < |x| && !Constant(x, x[0])
    ensures Product(Sums(x, x)) != 0.0 && Correlation(sqrt, x, x) == 1.0
  {
    SumsSelf(x);
    RatioSelf(sqrt, Sums(x, x).denomX);
  }

  /** A feature key and its score. */
  datatype FeatureImportance = FeatureImportance(feature: nat, score: real)

  /**
   * The source computes every key's correlation with the targets: it reads
   * `features[0]` and `targets[i]` for every vector, and each correlation
   * divides by its denominator without a guard.
   */
  predicate ImportanceDefined(features: seq<seq<real>>, targets: seq<real>)
  {
    Rectangular(features) && |features| <= |targets|
    && forall k :: 0 <= k < |features[0]| ==> Product(Sums(Column(features, k), targets)) != 0.0
  }

  /** The unsorted scores: the absolute correlation of each key with the targets, in key order. */
  function RawScores(sqrt: real -> real, features: seq<seq<real>>, targets: seq<real>): (r: seq<FeatureImportance>)
    requires IsSqrt(sqrt) && ImportanceDefined(features, targets)
    ensures |r| == |features[0]|
    ensures forall k :: 0 <= k < |r| ==> r[k].feature == k && 0.0 <= r[k].score <= 1.0
    ensures forall k :: 0 <= k < |r| ==>
      r[k].score == Statistics.Abs(Correlation(sqrt, Column(features, k), targets))
  {
    seq(|features[0]|, k requires 0 <= k < |features[0]| =>
      FeatureImportance(k, Statistics.Abs(Correlation(sqrt, Column(features, k), targets))))
  }

  /** A key whose column reproduces the targets gets the top score, 1. */
  lemma TargetColumnScoresOne(sqrt: real -> real, features: seq<seq<real>>, targets: seq<real>, k: nat)
    requires IsSqrt(sqrt) && ImportanceDefined(features, targets) && 0 < |features|
    requires k < |features[0]| && Column(features, k) == targets
    ensures RawScores(sqrt, features, targets)[k].score == 1.0
  {
    var x := Column(features, k);
    if Constant(x, x[0]) {
      SumsConstant(x, x);
      assert false;
    }
    CorrelationSelf(sqrt, x);
  }

  /** `a` comes first in the ranking: higher score, or an equal score and an earlier key. */
  predicate Before(a: FeatureImportance, b: FeatureImportance)
  {
    a.score > b.score || (a.score == b.score && a.feature < b.feature)
  }

  /** Ranked by `Before`: scores non-increasing, ties in key order. */
  ghost predicate Ranked(s: seq<FeatureImportance>)
  {
    forall j, k :: 0 <= j < k < |s| ==> Before(s[j], s[k])
  }

  /** Keys strictly increasing. */
  ghost predicate KeysAscending(s: seq<FeatureImportance>)
  {
    forall j, k :: 0 <= j < k < |s| ==> s[j].feature < s[k].feature
  }

  /** Inserts `x` into a ranked list ahead of every entry it does not score below. */
  function Insert(x: FeatureImportance, t: seq<FeatureImportance>): (r: seq<FeatureImportance>)
    requires Ranked(t) && forall j :: 0 <= j < |t| ==> x.feature < t[j].feature
    ensures multiset(r) == multiset(t) + multiset{x}
    ensures forall e :: e in r ==> e == x || e in t
    ensures Ranked(r)
  {
    if |t| == 0 then [x]
    else if x.score >= t[0].score then
      InsertFront(x, t);
      [x] + t
    else
      var rest := Insert(x, t[1..]);
      InsertBehind(x, t, rest);
      assert t == [t[0]] + t[1..];
      [t[0]] + rest
  }

  /** A ranked list stays ranked under an entry that precedes all of it. */
  lemma RankedCons(a: FeatureImportance, s: seq<FeatureImportance>)
    requires Ranked(s) && forall j :: 0 <= j < |s| ==> Before(a, s[j])
    ensures Ranked([a] + s)
  {
    var r := [a] + s;
    forall j, k | 0 <= j < k < |r|
      ensures Before(r[j], r[k])
    {
      assert r[k] == s[k - 1];
      if j > 0 {
        assert r[j] == s[j - 1];
      }
    }
  }

  lemma InsertFront(x: FeatureImportance, t: seq<FeatureImportance>)
    requires |t| > 0 && Ranked(t) && x.score >= t[0].score
    requires forall j :: 0 <= j < |t| ==> x.feature < t[j].feature
    ensures Ranked([x] + t)
  {
    forall j | 0 <= j < |t|
      ensures Before(x, t[j])
    {
      if j > 0 {
        assert Before(t[0], t[j]);
      }
    }
    RankedCons(x, t);
  }

  lemma InsertBehind(x: FeatureImportance, t: seq<FeatureImportance>, rest: seq<FeatureImportance>)
    requires |t| > 0 && Ranked(t) && x.score < t[0].score && Ranked(rest)
    requires forall e :: e in rest ==> e == x || e in t[1..]
    ensures Ranked([t[0]] + rest)
  {
    forall j | 0 <= j < |rest|
      ensures Before(t[0], rest[j])
    {
      if rest[j] != x {
        assert rest[j] in t[1..];
        var m :| 0 <= m < |t[1..]| && t[1..][m] == rest[j];
        assert Before(t[0], t[m + 1]);
      }
    }
    RankedCons(t[0], rest);
  }

  /**
   * The stable descending sort of `scores.sort((a, b) => b.score - a.score)`:
   * on keys in ascending order, stability means ties stay in key order.
   */
  function SortByScore(s: seq<FeatureImportance>): (r: seq<FeatureImportance>)
    requires KeysAscending(s)
    ensures multiset(r) == multiset(s)
    ensures Ranked(r)
  {
    if |s| == 0 then []
    else
      var rest := SortByScore(s[1..]);
      FirstKeyLeast(s, rest);
      assert s == [s[0]] + s[1..];
      Insert(s[0], rest)
  }

  /** Any rearrangement of the entries after the first has greater keys than the first. */
  lemma FirstKeyLeast(s: seq<FeatureImportance>, rest: seq<FeatureImportance>)
    requires |s| > 0 && KeysAscending(s) && multiset(rest) == multiset(s[1..])
    ensures forall j :: 0 <= j < |rest| ==> s[0].feature < rest[j].feature
  {
    forall j | 0 <= j < |rest| ensures s[0].feature < rest[j].feature {
      assert rest[j] in multiset(s[1..]);
      var m :| 0 <= m < |s[1..]| && s[1..][m] == rest[j];
      assert s[m + 1] == rest[j];
    }
  }

  /**
   * `scoreFeatureImportance`: every key exactly once with its absolute
   * correlation, highest score first.
   */
  function ScoreFeatureImportance(sqrt: real -> real, features: seq<seq<real>>, targets: seq<real>)
    : (r: seq<FeatureImportance>)
    requires IsSqrt(sqrt) && ImportanceDefined(features, targets)
    ensures multiset(r) == multiset(RawScores(sqrt, features, targets))
    ensures Ranked(r)
  {
    SortByScore(RawScores(sqrt, features, targets))
  }

  /** The ranking lists every key with a score in [0, 1], and scores never increase along it. */
  lemma ImportanceRanking(sqrt: real -> real, features: seq<seq<real>>, targets: seq<real>)
    requires IsSqrt(sqrt) && ImportanceDefined(features, targets)
    ensures |ScoreFeatureImportance(sqrt, features, targets)| == |features[0]|
    ensures forall k :: 0 <= k < |features[0]| ==>
      RawScores(sqrt, features, targets)[k] in ScoreFeatureImportance(sqrt, features, targets)
    ensures forall j :: 0 <= j < |features[0]| ==> 0.0 <= ScoreFeatureImportance(sqrt, features, targets)[j].score <= 1.0
    ensures forall j, k :: 0 <= j < k < |features[0]| ==>
      ScoreFeatureImportance(sqrt, features, targets)[j].score >= ScoreFeatureImportance(sqrt, features, targets)[k].score
  {
    var raw := RawScores(sqrt, features, targets);
    var r := ScoreFeatureImportance(sqrt, features, targets);
    assert |r| == |multiset(r)| == |multiset(raw)| == |raw|;
    forall k | 0 <= k < |raw|
      ensures raw[k] in r
    {
      assert raw[k] in multiset(r);
    }
    forall j | 0 <= j < |r|
      ensures 0.0 <= r[j].score <= 1.0
    {
      assert r[j] in multiset(raw);
    }
    forall j, k | 0 <= j < k < |r|
      ensures r[j].score >= r[k].score
    {
      assert Before(r[j], r[k]);
    }
  }
}
