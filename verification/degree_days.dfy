/**
 * Degree days, Pearson correlation and thermal elasticity of
 * `lib/analysis/degree-days.ts`.
 */
module DegreeDays {
  import opened Series
  import opened Regression

  /** Heating and cooling degree days of one day; the ISO `date` stamp is left out. */
  datatype DegreeDayResult = DegreeDayResult(hdd: real, cdd: real)

  /** Mean of the day's extreme temperatures. */
  function DailyAverage(maxTemp: real, minTemp: real): real
  {
    (maxTemp + minTemp) / 2.0
  }

  function MaxZero(x: real): real
  {
    if x > 0.0 then x else 0.0
  }

  /** `calculateDegreeDays`: heating days below the base, cooling days above it. */
  function DegreeDays(maxTemp: real, minTemp: real, baseTemperature: real): (r: DegreeDayResult)
    ensures 0.0 <= r.hdd && 0.0 <= r.cdd
    ensures r.hdd == 0.0 || r.cdd == 0.0
    ensures r.hdd - r.cdd == baseTemperature - DailyAverage(maxTemp, minTemp)
  {
    var avg := DailyAverage(maxTemp, minTemp);
    DegreeDayResult(MaxZero(baseTemperature - avg), MaxZero(avg - baseTemperature))
  }

  /** The three properties of `DegreeDays` determine its result. */
  lemma DegreeDaysUnique(maxTemp: real, minTemp: real, baseTemperature: real, hdd: real, cdd: real)
    requires 0.0 <= hdd && 0.0 <= cdd && (hdd == 0.0 || cdd == 0.0)
    requires hdd - cdd == baseTemperature - DailyAverage(maxTemp, minTemp)
    ensures DegreeDays(maxTemp, minTemp, baseTemperature) == DegreeDayResult(hdd, cdd)
  {
  }

  /** Only the average matters, so the two extremes may be given in either order. */
  lemma DegreeDaysSymmetric(maxTemp: real, minTemp: real, baseTemperature: real)
    ensures DegreeDays(maxTemp, minTemp, baseTemperature) == DegreeDays(minTemp, maxTemp, baseTemperature)
  {
  }

  /** A cool day: extremes 10 and 6 around a base of 18.3 give 10.3 heating degree days. */
  lemma DegreeDaysExample()
    ensures DegreeDays(10.0, 6.0, 18.3) == DegreeDayResult(10.3, 0.0)
  {
  }

  /** `calculateCorrelation`: Pearson correlation, 0 on mismatched or empty input and on a zero denominator. */
  function Correlation(sqrt: real -> real, temperatures: seq<real>, loads: seq<real>): (r: real)
    requires IsSqrt(sqrt)
    ensures -1.0 <= r <= 1.0
    ensures |temperatures| != |loads| || |temperatures| == 0 ==> r == 0.0
    ensures |temperatures| == |loads| > 0 ==>
      var s := Sums(temperatures, loads);
      if sqrt(Product(s)) == 0.0 then r == 0.0 else r * sqrt(Product(s)) == s.numerator
  {
    if |temperatures| != |loads| || |temperatures| == 0 then 0.0
    else
      var s := Sums(temperatures, loads);
      if sqrt(Product(s)) == 0.0 then 0.0 else Ratio(sqrt, s.numerator, Product(s))
  }

  /** A series that is not constant is perfectly correlated with itself. */
  lemma CorrelationSelf(sqrt: real -> real, x: seq<real>)
    requires IsSqrt(sqrt) && 0 < |x| && !Constant(x, x[0])
    ensures Correlation(sqrt, x, x) == 1.0
  {
    var d := Sums(x, x).denomX;
    SumsSelf(x);
    RatioSelf(sqrt, d);
  }

  /** Loads on a rising line of temperature correlate at 1, on a falling line at -1. */
  lemma CorrelationOfLine(sqrt: real -> real, x: seq<real>, a: real, b: real)
    requires IsSqrt(sqrt) && 0 < |x| && !Constant(x, x[0]) && a != 0.0
    ensures Correlation(sqrt, x, Affine(x, a, b)) == if 0.0 < a then 1.0 else -1.0
  {
    var d := Sums(x, x).denomX;
    SumsSelf(x);
    SumsAffine(x, a, b);
    assert Sums(x, Affine(x, a, b)) == CorrelationSums(a * d, d, a * (a * d));
    RatioOfLine(sqrt, d, a);
  }

  /** Temperatures 1, 2, 3 against loads 2, 4, 6 correlate at exactly 1. */
  lemma CorrelationExample(sqrt: real -> real)
    requires IsSqrt(sqrt)
    ensures Correlation(sqrt, [1.0, 2.0, 3.0], [2.0, 4.0, 6.0]) == 1.0
  {
    var x := [1.0, 2.0, 3.0];
    assert x[1] != x[0];
    assert Affine(x, 2.0, 0.0) == [2.0, 4.0, 6.0] by {
      AffineValues(x, 2.0, 0.0);
    }
    CorrelationOfLine(sqrt, x, 2.0, 0.0);
  }

  /** The correlation is zero whenever either series is constant. */
  lemma CorrelationConstant(sqrt: real -> real, temperatures: seq<real>, loads: seq<real>)
    requires IsSqrt(sqrt) && |temperatures| == |loads| > 0
    requires Constant(temperatures, temperatures[0]) || Constant(loads, loads[0])
    ensures Correlation(sqrt, temperatures, loads) == 0.0
  {
    SumsConstant(temperatures, loads);
    SqrtZero(sqrt, 0.0);
  }

  /** Correlation does not depend on the order of its arguments. */
  lemma CorrelationSymmetric(sqrt: real -> real, temperatures: seq<real>, loads: seq<real>)
    requires IsSqrt(sqrt)
    ensures Correlation(sqrt, temperatures, loads) == Correlation(sqrt, loads, temperatures)
  {
    if |temperatures| == |loads| > 0 {
      SumsSymmetric(temperatures, loads);
    }
  }

  /**
   * The elasticity formula divides without a guard and reads `loads[i]` for
   * every temperature, so from two points on the loads must cover the
   * temperatures and the temperatures must not all be equal.
   */
  predicate ElasticityDefined(temperatures: seq<real>, loads: seq<real>)
  {
    |temperatures| >= 2 ==> |loads| >= |temperatures| && LeastSquaresDenominator(temperatures) != 0.0
  }

  /**
   * `calculateThermalElasticity`: least-squares slope of load on temperature,
   * 0 below two points. The sum of loads runs over the whole `loads` array.
   */
  function ThermalElasticity(temperatures: seq<real>, loads: seq<real>): (r: real)
    requires ElasticityDefined(temperatures, loads)
    ensures |temperatures| < 2 ==> r == 0.0
    ensures |temperatures| >= 2 ==>
      var n := |temperatures|;
      r * LeastSquaresDenominator(temperatures)
        == n as real * Dot(temperatures, loads[..n]) - Sum(temperatures) * Sum(loads)
  {
    if |temperatures| < 2 then 0.0
    else
      SlopeFromSumsSolves(|temperatures| as real, Sum(temperatures), Sum(loads),
        Dot(temperatures, temperatures), Dot(temperatures, loads[..|temperatures|]));
      SlopeFromSums(|temperatures| as real, Sum(temperatures), Sum(loads),
        Dot(temperatures, temperatures), Dot(temperatures, loads[..|temperatures|]))
  }

  /** From two points on, the elasticity is defined exactly when the temperatures are not all equal. */
  lemma ElasticityDefinedIff(temperatures: seq<real>, loads: seq<real>)
    requires 2 <= |temperatures| <= |loads|
    ensures ElasticityDefined(temperatures, loads) <==> !Constant(temperatures, temperatures[0])
  {
    LeastSquaresDenominatorZero(temperatures);
  }

  /** Loads that are exactly linear in temperature have that line's slope as elasticity. */
  lemma ElasticityOfLinearLoads(temperatures: seq<real>, a: real, b: real)
    requires |temperatures| >= 2 && !Constant(temperatures, temperatures[0])
    ensures ElasticityDefined(temperatures, Affine(temperatures, a, b))
    ensures ThermalElasticity(temperatures, Affine(temperatures, a, b)) == a
  {
    var loads := Affine(temperatures, a, b);
    LeastSquaresDenominatorZero(temperatures);
    SlopeOfLine(|temperatures| as real, Sum(temperatures), Dot(temperatures, temperatures), a, b);
    assert loads[..|temperatures|] == loads;
    SumAffine(temperatures, a, b);
    DotAffine(temperatures, a, b);
  }
}
