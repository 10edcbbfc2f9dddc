/**
 * Additive seasonal decomposition of `lib/models/seasonal-adjustment.ts`:
 * a moving-average trend, a seasonal component that averages the detrended
 * series over each phase of the period, and the residual left over.
 *
 * Window sizes and periods are integers. For an integer `w`,
 * `Math.floor(w / 2)` is `w / 2` and `Math.ceil(w / 2)` is `(w + 1) / 2`
 * (Dafny's division rounds down for a positive divisor).
 */
module SeasonalAdjustment {
  import opened Series

  // ---------------------------------------------------------------------
  // Moving average
  // ---------------------------------------------------------------------

  /** First index of the window around `i`: `max(0, i - floor(w / 2))`. */
  function WindowStart(w: int, i: nat): (r: nat)
    requires w >= 1
    ensures r <= i
  {
    if i - w / 2 < 0 then 0 else i - w / 2
  }

  /** One past the last index of the window around `i`: `min(n, i + ceil(w / 2))`. */
  function WindowEnd(n: nat, w: int, i: nat): (r: nat)
    requires w >= 1 && i < n
    ensures i < r <= n
  {
    if n < i + (w + 1) / 2 then n else i + (w + 1) / 2
  }

  /** Away from the ends of the series, the window holds exactly `w` values. */
  lemma WindowFull(n: nat, w: int, i: nat)
    requires w >= 1 && i < n
    requires w / 2 <= i && i + (w + 1) / 2 <= n
    ensures WindowEnd(n, w, i) - WindowStart(w, i) == w
  {
  }

  /** The mean of the window around `i`; it lies between the window's extremes. */
  function WindowMean(data: seq<real>, w: int, i: nat): (m: real)
    requires w >= 1 && i < |data|
    ensures var win := data[WindowStart(w, i)..WindowEnd(|data|, w, i)];
      |win| > 0 && Min(win) <= m <= Max(win) && IsMean(win, m)
  {
    var win := data[WindowStart(w, i)..WindowEnd(|data|, w, i)];
    MeanBetweenMinMax(win);
    MeanIsMean(win);
    Mean(win)
  }

  /**
   * `movingAverage`: the mean of each position's window. The source sums
   * the window without an initial value, which fails on an empty window,
   * so a non-empty series needs a window of at least one value.
   */
  function MovingAverage(data: seq<real>, w: int): (r: seq<real>)
    requires |data| > 0 ==> w >= 1
    ensures |r| == |data|
    ensures forall i :: 0 <= i < |r| ==> r[i] == WindowMean(data, w, i)
    ensures forall i :: 0 <= i < |r| ==> IsMean(data[WindowStart(w, i)..WindowEnd(|data|, w, i)], r[i])
  {
    seq(|data|, i requires 0 <= i < |data| => WindowMean(data, w, i))
  }

  /** Smoothing a series that stays within [lo, hi] stays within [lo, hi]. */
  lemma MovingAverageWithin(data: seq<real>, w: int, lo: real, hi: real)
    requires |data| > 0 ==> w >= 1
    requires Within(data, lo, hi)
    ensures Within(MovingAverage(data, w), lo, hi)
  {
    forall i | 0 <= i < |data|
      ensures lo <= MovingAverage(data, w)[i] <= hi
    {
      var win := data[WindowStart(w, i)..WindowEnd(|data|, w, i)];
      assert Within(win, lo, hi) by {
        forall k | 0 <= k < |win| ensures lo <= win[k] <= hi {
          assert win[k] == data[WindowStart(w, i) + k];
        }
      }
      MeanWithin(win, lo, hi);
    }
  }

  /** A constant series is its own moving average. */
  lemma MovingAverageConstant(data: seq<real>, w: int, c: real)
    requires |data| > 0 ==> w >= 1
    requires Constant(data, c)
    ensures MovingAverage(data, w) == data
  {
    forall i | 0 <= i < |data|
      ensures MovingAverage(data, w)[i] == data[i]
    {
      var win := data[WindowStart(w, i)..WindowEnd(|data|, w, i)];
      assert Constant(win, c) by {
        forall k | 0 <= k < |win| ensures win[k] == c {
          assert win[k] == data[WindowStart(w, i) + k];
        }
      }
      MeanConstant(win, c);
    }
  }

  // ---------------------------------------------------------------------
  // Phases of the period
  // ---------------------------------------------------------------------

  /** Sum of `d[j], d[j + p], d[j + 2p], ...` up to the end of `d`. */
  function PhaseSum(d: seq<real>, p: int, j: nat): real
    requires p >= 1
    decreases |d| - j
  {
    if j >= |d| then 0.0 else d[j] + PhaseSum(d, p, j + p)
  }

  /** Number of positions `j, j + p, j + 2p, ...` below `n`. */
  function PhaseCount(n: nat, p: int, j: nat): (r: nat)
    requires p >= 1
    ensures r > 0 <==> j < n
    decreases n - j
  {
    if j >= n then 0 else 1 + PhaseCount(n, p, j + p)
  }

  /**
   * The phase of position `k`: the first position of the period that the
   * source's stride loops reach `k` from (the remainder of `k` modulo `p`).
   */
  function Phase(k: nat, p: int): (r: nat)
    requires p >= 1
    ensures r < p && r <= k
    decreases k
  {
    if k < p then k else Phase(k - p, p)
  }

  /** Two positions less than a period apart lie in different phases. */
  lemma {:induction false} PhaseApart(j: nat, k: nat, p: int)
    requires p >= 1 && j < k < j + p
    ensures Phase(k, p) != Phase(j, p)
    decreases j
  {
    if j >= p {
      PhaseApart(j - p, k - p, p);
    }
  }

  /** The mean of the detrended values in phase `j` (the source's `sum / count`). */
  function PhaseMean(d: seq<real>, p: int, j: nat): real
    requires p >= 1 && j < |d|
  {
    PhaseSum(d, p, j) / PhaseCount(|d|, p, j) as real
  }

  /**
   * The seasonal component: each position takes the mean of the detrended
   * values in its phase, so the component repeats with the period.
   */
  function SeasonalOf(d: seq<real>, p: int): (r: seq<real>)
    requires |d| > 0 ==> p >= 1
    ensures |r| == |d|
    ensures forall k :: 0 <= k < |d| ==> r[k] == PhaseMean(d, p, Phase(k, p))
    ensures forall k :: 0 <= k < |d| && k + p < |d| ==> r[k] == r[k + p]
  {
    if |d| == 0 then []
    else
      PhasesRepeat(|d|, p);
      seq(|d|, k requires 0 <= k < |d| => PhaseMean(d, p, Phase(k, p)))
  }

  /** Positions a period apart lie in the same phase. */
  lemma PhasesRepeat(n: nat, p: int)
    requires p >= 1
    ensures forall k: nat :: k + p < n ==> Phase(k + p, p) == Phase(k, p)
  {
    forall k: nat | k + p < n ensures Phase(k + p, p) == Phase(k, p) {
      assert Phase(k + p, p) == Phase(k, p);
    }
  }

  /** Subtracting `c` throughout a phase subtracts `c` once per position from its sum. */
  lemma {:induction false} PhaseSumShift(d: seq<real>, e: seq<real>, p: int, j: nat, c: real)
    requires p >= 1 && |e| == |d|
    requires forall k :: j <= k < |d| && Phase(k, p) == Phase(j, p) ==> e[k] == d[k] - c
    ensures PhaseSum(e, p, j) == PhaseSum(d, p, j) - PhaseCount(|d|, p, j) as real * c
    decreases |d| - j
  {
    if j < |d| {
      PhaseSumShift(d, e, p, j + p, c);
    }
  }

  /** The residual of one phase: detrended values minus the phase's mean. */
  lemma PhaseCentred(d: seq<real>, e: seq<real>, p: int, j: nat)
    requires p >= 1 && j < p && j < |d| && |e| == |d|
    requires forall k :: 0 <= k < |d| ==> e[k] == d[k] - SeasonalOf(d, p)[k]
    ensures PhaseSum(e, p, j) == 0.0
  {
    var c := PhaseMean(d, p, j);
    forall k | j <= k < |d| && Phase(k, p) == Phase(j, p) ensures e[k] == d[k] - c {
    }
    PhaseSumShift(d, e, p, j, c);
    var n := PhaseCount(|d|, p, j) as real;
    assert n * (PhaseSum(d, p, j) / n) == PhaseSum(d, p, j);
  }

  // ---------------------------------------------------------------------
  // Decomposition
  // ---------------------------------------------------------------------

  datatype Decomposition = Decomposition(original: seq<real>, trend: seq<real>, seasonal: seq<real>, residual: seq<real>)

  /** The three components add up to the original series, position by position. */
  ghost predicate Additive(r: Decomposition)
  {
    |r.trend| == |r.original| && |r.seasonal| == |r.original| && |r.residual| == |r.original|
    && forall k :: 0 <= k < |r.original| ==> r.original[k] == r.trend[k] + r.seasonal[k] + r.residual[k]
  }

  /** The series with its trend removed. */
  function Detrended(data: seq<real>, trend: seq<real>): (r: seq<real>)
    requires |trend| == |data|
    ensures |r| == |data| && forall k :: 0 <= k < |r| ==> r[k] + trend[k] == data[k]
  {
    seq(|data|, k requires 0 <= k < |data| => data[k] - trend[k])
  }

  /**
   * `seasonalDecompose`: the trend is the moving average over one period,
   * the seasonal component averages the detrended series per phase, and the
   * residual is what remains. Each phase's residuals sum to zero.
   */
  method SeasonalDecompose(data: seq<real>, period: int) returns (r: Decomposition)
    requires |data| > 0 ==> period >= 1
    ensures r.original == data && Additive(r)
    ensures r.trend == MovingAverage(data, period)
    ensures r.seasonal == SeasonalOf(Detrended(data, r.trend), period)
    ensures forall j: nat :: j < |data| && j < period ==> PhaseSum(r.residual, period, j) == 0.0
  {
    var trend := MovingAverage(data, period);
    var detrended := Detrended(data, trend);
    var seasonal := SeasonalComponent(detrended, period);
    var residual := seq(|data|, k requires 0 <= k < |data| => data[k] - trend[k] - seasonal[k]);
    forall j: nat | j < |data| && j < period ensures PhaseSum(residual, period, j) == 0.0 {
      PhaseCentred(detrended, residual, period, j);
    }
    r := Decomposition(data, trend, seasonal, residual);
  }

  /**
   * The phase loops of `seasonalDecompose`: for each phase, the sum and
   * count of its detrended values, then their quotient written to each of
   * its positions. A phase at or past the end of the series has no
   * positions; the source's `0 / 0` there is never stored.
   */
  method SeasonalComponent(detrended: seq<real>, period: int) returns (seasonal: seq<real>)
    requires |detrended| > 0 ==> period >= 1
    ensures seasonal == SeasonalOf(detrended, period)
  {
    var n := |detrended|;
    seasonal := seq(n, _ => 0.0);
    var i := 0;
    while i < period
      invariant 0 <= i && (i == 0 || i <= period)
      invariant |seasonal| == n
      invariant forall k :: 0 <= k < n ==>
        seasonal[k] == (if Phase(k, period) < i then PhaseMean(detrended, period, Phase(k, period)) else 0.0)
    {
      var sum, count := 0.0, 0;
      var j := i;
      while j < n
        invariant i <= j
        invariant sum + PhaseSum(detrended, period, j) == PhaseSum(detrended, period, i)
        invariant count + PhaseCount(n, period, j) == PhaseCount(n, period, i)
        decreases n - j
      {
        sum := sum + detrended[j];
        count := count + 1;
        j := j + period;
      }
      var seasonalValue := if count == 0 then 0.0 else sum / count as real;
      j := i;
      while j < n
        invariant i <= j && Phase(j, period) == i
        invariant |seasonal| == n
        invariant forall k :: 0 <= k < n ==>
          seasonal[k] == (if Phase(k, period) < i || (Phase(k, period) == i && k < j) then PhaseMean(detrended, period, Phase(k, period)) else 0.0)
        decreases n - j
      {
        seasonal := seasonal[j := seasonalValue];
        forall k | j < k < j + period ensures Phase(k, period) != i {
          PhaseApart(j, k, period);
        }
        j := j + period;
      }
      i := i + 1;
    }
  }

  /** `seasonallyAdjustData`: trend plus residual, position by position. */
  function SeasonallyAdjust(d: Decomposition): (r: seq<real>)
    requires |d.trend| <= |d.residual|
    ensures |r| == |d.trend|
  {
    seq(|d.trend|, k requires 0 <= k < |d.trend| => d.trend[k] + d.residual[k])
  }

  /** Adjusting an additive decomposition removes exactly the seasonal component. */
  lemma AdjustRemovesSeason(d: Decomposition)
    requires Additive(d)
    ensures forall k :: 0 <= k < |d.original| ==> SeasonallyAdjust(d)[k] == d.original[k] - d.seasonal[k]
  {
  }
}
