/**
 * The training pipeline of `lib/models/training.ts`: the chronological
 * train/test split, the contiguous k-fold cross-validation, and the grid
 * search over the forest size.
 *
 * Timing (`performance.now()`) and the ISO training date are left out. The
 * file's private `predictSample` is the same descent as the predictor's and
 * is `RandomForest.PredictTree` here.
 */
module Training {
  import opened Series
  import opened Options
  import opened RandomForest
  import opened Selection
  import Statistics

  // ---------------------------------------------------------------------
  // Array slices
  // ---------------------------------------------------------------------

  /** How `Array.prototype.slice` resolves an index: a negative one counts from the end, then it is clamped to [0, n]. */
  function Resolve(i: int, n: nat): (r: nat)
    ensures r <= n
    ensures 0 <= i <= n ==> r == i
    ensures i < 0 ==> r == if n + i < 0 then 0 else n + i
  {
    if i < 0 then (if n + i < 0 then 0 else n + i) else if i > n then n else i
  }

  /** `s.slice(start, end)`. */
  function Slice<T>(s: seq<T>, start: int, end: int): (r: seq<T>)
    ensures |r| <= |s|
    ensures 0 <= start <= end <= |s| ==> r == s[start..end]
    ensures forall j :: 0 <= j < |r| ==> Resolve(start, |s|) + j < |s| && r[j] == s[Resolve(start, |s|) + j]
  {
    var a := Resolve(start, |s|);
    var b := Resolve(end, |s|);
    if a < b then s[a..b] else []
  }

  /** `s.slice(start)`. */
  function SliceFrom<T>(s: seq<T>, start: int): seq<T>
  {
    Slice(s, start, |s|)
  }

  /** Slicing before and from the same index, whatever it is, splits a sequence into two halves that reassemble it. */
  lemma SliceSplit<T>(s: seq<T>, i: int)
    ensures Slice(s, 0, i) + SliceFrom(s, i) == s
    ensures 0 <= i <= |s| ==> Slice(s, 0, i) == s[..i] && SliceFrom(s, i) == s[i..]
  {
    var a := Resolve(i, |s|);
    assert Slice(s, 0, i) == s[..a];
    assert SliceFrom(s, i) == s[a..];
  }

  /** A slice with in-range bounds is the plain subsequence. */
  lemma SliceInRange<T>(s: seq<T>, a: nat, b: nat)
    requires a <= b <= |s|
    ensures Slice(s, a, b) == s[a..b] && SliceFrom(s, b) == s[b..]
  {
  }

  /** The three in-range slices around [a, b) of a sequence of length `n`. */
  lemma SlicesAt<T>(s: seq<T>, a: nat, b: nat, n: nat)
    requires a <= b <= n
    ensures |s| == n ==> Slice(s, 0, a) == s[..a] && Slice(s, a, b) == s[a..b] && SliceFrom(s, b) == s[b..]
  {
  }

  /** A contiguous run of aligned training rows is aligned. */
  lemma AlignedRange(features: seq<seq<real>>, targets: seq<real>, a: nat, b: nat)
    requires Aligned(features, targets) && a <= b <= |features|
    ensures Aligned(features[a..b], targets[a..b])
  {
    if a < b {
      assert |features[a..b][0]| == |features[0]|;
    }
  }

  /** Two aligned runs of rows of the same width are aligned together. */
  lemma AlignedJoin(features: seq<seq<real>>, targets: seq<real>, a: nat, b: nat)
    requires Aligned(features, targets) && a <= b <= |features|
    ensures Aligned(features[..a] + features[b..], targets[..a] + targets[b..])
  {
    var joined := features[..a] + features[b..];
    if |joined| > 0 {
      forall i | 0 <= i < |joined|
        ensures |joined[i]| == |features[0]|
      {
        if i < a {
          assert joined[i] == features[i];
        } else {
          assert joined[i] == features[b + (i - a)];
        }
      }
    }
  }

  // ---------------------------------------------------------------------
  // Chronological split
  // ---------------------------------------------------------------------

  /** Training rows followed by the held-out rows. */
  datatype DataSplit = DataSplit(
    trainFeatures: seq<seq<real>>, trainTargets: seq<real>,
    testFeatures: seq<seq<real>>, testTargets: seq<real>)

  /** The default share of rows `chronologicalSplit` trains on. */
  const DefaultTrainRatio: real := 0.7

  /** The share `trainModel` asks for instead. */
  const TrainModelRatio: real := 0.8

  /** `Math.floor(features.length * trainRatio)`. */
  function SplitIndex(n: nat, ratio: real): (r: int)
    ensures 0.0 <= ratio <= 1.0 ==> 0 <= r <= n
  {
    assert 0.0 <= ratio <= 1.0 ==> 0.0 <= Mul(n as real, ratio) <= n as real by {
      if 0.0 <= ratio <= 1.0 {
        MulNonNegative(n as real, ratio);
        MulNonNegative(n as real, 1.0 - ratio);
      }
    }
    Mul(n as real, ratio).Floor
  }

  lemma MulNonNegative(a: real, b: real)
    requires 0.0 <= a && 0.0 <= b
    ensures 0.0 <= Mul(a, b)
  {
    if 0.0 < a && 0.0 < b {
      MulPositive(a, b);
    }
  }

  /**
   * `chronologicalSplit`: the first rows train and the rest test, with no
   * shuffling. Both arrays are cut at the index computed from the feature
   * count.
   */
  function ChronologicalSplit(features: seq<seq<real>>, targets: seq<real>, trainRatio: real): (r: DataSplit)
    ensures r.trainFeatures + r.testFeatures == features
    ensures r.trainTargets + r.testTargets == targets
    ensures |features| == |targets| ==> |r.trainFeatures| == |r.trainTargets| && |r.testFeatures| == |r.testTargets|
    ensures 0.0 <= trainRatio <= 1.0 ==> |r.trainFeatures| == SplitIndex(|features|, trainRatio)
  {
    var splitIdx := SplitIndex(|features|, trainRatio);
    SliceSplit(features, splitIdx);
    SliceSplit(targets, splitIdx);
    DataSplit(Slice(features, 0, splitIdx), Slice(targets, 0, splitIdx), SliceFrom(features, splitIdx), SliceFrom(targets, splitIdx))
  }

  /** With a share in [0, 1] the training rows are exactly the first `SplitIndex` rows and the test rows the others. */
  lemma ChronologicalSplitPrefix(features: seq<seq<real>>, targets: seq<real>, trainRatio: real)
    requires 0.0 <= trainRatio <= 1.0 && |features| == |targets|
    ensures var m := SplitIndex(|features|, trainRatio);
      var split := ChronologicalSplit(features, targets, trainRatio);
      split.trainFeatures == features[..m] && split.testFeatures == features[m..]
      && split.trainTargets == targets[..m] && split.testTargets == targets[m..]
  {
    var m := SplitIndex(|features|, trainRatio);
    SliceSplit(features, m);
    SliceSplit(targets, m);
  }

  /** With the default share, ten rows split into the first seven for training and the last three for testing. */
  lemma DefaultSplitOfTen(features: seq<seq<real>>, targets: seq<real>)
    requires |features| == |targets| == 10
    ensures var split := ChronologicalSplit(features, targets, DefaultTrainRatio);
      split.trainFeatures == features[..7] && split.testFeatures == features[7..]
      && split.trainTargets == targets[..7] && split.testTargets == targets[7..]
  {
    assert SplitIndex(10, DefaultTrainRatio) == 7;
    ChronologicalSplitPrefix(features, targets, DefaultTrainRatio);
  }

  // ---------------------------------------------------------------------
  // Metrics and training
  // ---------------------------------------------------------------------

  /** RMSE, MAPE and R-squared of a prediction; the training time is left out. */
  datatype ModelMetrics = ModelMetrics(rmse: real, mape: real, rSquared: real)

  /** A trained forest with its test metrics; the training date is left out. */
  datatype TrainedModel = TrainedModel(model: RandomForestModel, metrics: ModelMetrics)

  /** R-squared divides by the spread of the test targets, so a non-empty test set must not be constant. */
  predicate Scorable(targets: seq<real>)
  {
    |targets| > 0 ==> Statistics.TotalSquares(targets) != 0.0
  }

  /** The three metrics of `predicted` against `actual`. */
  function Assess(sqrt: real -> real, actual: seq<real>, predicted: seq<real>): (r: ModelMetrics)
    requires IsSqrt(sqrt) && |actual| == |predicted| && Scorable(actual)
    ensures 0.0 <= r.rmse && 0.0 <= r.mape && r.rSquared <= 1.0
    ensures |actual| == 0 ==> r == ModelMetrics(0.0, 0.0, 0.0)
    ensures r.rmse == Statistics.Rmse(sqrt, actual, predicted)
    ensures r.mape == Statistics.Mape(actual, predicted)
    ensures r.rSquared == Statistics.RSquared(actual, predicted)
  {
    ModelMetrics(Statistics.Rmse(sqrt, actual, predicted), Statistics.Mape(actual, predicted), Statistics.RSquared(actual, predicted))
  }

  /**
   * On a non-empty test set the metrics detect a perfect prediction: RMSE
   * is 0 and R-squared is 1 exactly when every prediction is right, and then
   * MAPE is 0 too.
   */
  lemma AssessPerfect(sqrt: real -> real, actual: seq<real>, predicted: seq<real>)
    requires IsSqrt(sqrt) && 0 < |actual| == |predicted| && Scorable(actual)
    ensures var r := Assess(sqrt, actual, predicted);
      && (r.rmse == 0.0 <==> predicted == actual)
      && (r.rSquared == 1.0 <==> predicted == actual)
      && (predicted == actual ==> r == ModelMetrics(0.0, 0.0, 1.0))
  {
    Statistics.RmseZero(sqrt, actual, predicted);
    Statistics.RSquaredOne(actual, predicted);
    Statistics.MapeExact(actual);
  }

  /**
   * What `trainModel` needs of its data: aligned rows, at least one
   * training row (the forest reads its feature names off the first), a tree
   * to average when there is a test row, and a scorable test set.
   */
  ghost predicate Trainable(features: seq<seq<real>>, targets: seq<real>, numTrees: int)
  {
    var m := SplitIndex(|features|, TrainModelRatio);
    Aligned(features, targets) && 0 < m
    && (m < |features| ==> 0 < numTrees)
    && Scorable(targets[m..])
  }

  /**
   * `trainModel`: a forest grown on the first 80% of the rows only, scored on
   * the remaining rows with one prediction per test row.
   */
  function TrainModel(
    sqrt: real -> real, features: seq<seq<real>>, targets: seq<real>, numTrees: int, random: (nat, nat) -> Uniform)
    : (r: TrainedModel)
    requires IsSqrt(sqrt) && Trainable(features, targets, numTrees)
    ensures var m := SplitIndex(|features|, TrainModelRatio);
      |r.model.trees| == (if numTrees < 0 then 0 else numTrees)
      && (forall t :: 0 <= t < |r.model.trees| ==>
            r.model.trees[t] == BuildTree(Pick(features[..m], Bootstrap(random, t, m)), Pick(targets[..m], Bootstrap(random, t, m)), DefaultMaxDepth, 0))
      && r.metrics == Assess(sqrt, targets[m..], PredictRandomForest(features[m..], r.model))
    ensures 0.0 <= r.metrics.rmse && 0.0 <= r.metrics.mape && r.metrics.rSquared <= 1.0
  {
    var m := SplitIndex(|features|, TrainModelRatio);
    ChronologicalSplitPrefix(features, targets, TrainModelRatio);
    var split := ChronologicalSplit(features, targets, TrainModelRatio);
    AlignedRange(features, targets, 0, m);
    assert features[0..m] == features[..m] && targets[0..m] == targets[..m];
    var model := BuildRandomForest(split.trainFeatures, split.trainTargets, numTrees, random);
    var predictions := PredictRandomForest(split.testFeatures, model);
    TrainedModel(model, Assess(sqrt, split.testTargets, predictions))
  }

  /** The test predictions of `trainModel` stay within the range of the training targets. */
  lemma TrainModelPredictionsWithinTraining(
    sqrt: real -> real, features: seq<seq<real>>, targets: seq<real>, numTrees: int, random: (nat, nat) -> Uniform)
    requires IsSqrt(sqrt) && Trainable(features, targets, numTrees) && 0 < numTrees
    ensures var m := SplitIndex(|features|, TrainModelRatio);
      var p := PredictRandomForest(features[m..], TrainModel(sqrt, features, targets, numTrees, random).model);
      forall i :: 0 <= i < |p| ==> Min(targets[..m]) <= p[i] <= Max(targets[..m])
  {
    var m := SplitIndex(|features|, TrainModelRatio);
    AlignedRange(features, targets, 0, m);
    assert features[0..m] == features[..m] && targets[0..m] == targets[..m];
    ChronologicalSplitPrefix(features, targets, TrainModelRatio);
    ForestPredictionsWithinTargets(features[..m], targets[..m], numTrees, random, features[m..]);
  }

  // ---------------------------------------------------------------------
  // k-fold cross-validation
  // ---------------------------------------------------------------------

  /**
   * The product `a * b`, spelt as repeated addition so that the fold
   * arithmetic stays linear for the solver.
   */
  function Times(a: nat, b: nat): nat
  {
    if a == 0 then 0 else Times(a - 1, b) + b
  }

  lemma {:induction false} TimesIsProduct(a: nat, b: nat)
    ensures Times(a, b) == a * b
  {
    if a > 0 {
      TimesIsProduct(a - 1, b);
    }
  }

  lemma {:induction false} TimesMonotone(a: nat, b: nat, c: nat)
    requires a <= b
    ensures Times(a, c) <= Times(b, c)
  {
    if a < b {
      TimesMonotone(a, b - 1, c);
    }
  }

  /** `i / d >= q` exactly when `q` copies of `d` fit in `i`. */
  lemma DivAtLeast(i: nat, d: nat, q: nat)
    requires 0 < d
    ensures i / d >= q <==> Times(q, d) <= i
  {
    var r := i / d;
    TimesIsProduct(r, d);
    TimesIsProduct(r + 1, d);
    assert i == r * d + i % d;
    assert Times(r, d) <= i < Times(r + 1, d);
    if r >= q {
      TimesMonotone(q, r, d);
    } else {
      TimesMonotone(r + 1, q, d);
    }
  }

  /** `Math.floor(n / k)`. */
  function FoldSize(n: nat, k: nat): (q: nat)
    requires 0 < k
    ensures Times(k, q) <= n
  {
    DivAtLeast(n, k, n / k);
    TimesIsProduct(n / k, k);
    TimesIsProduct(k, n / k);
    n / k
  }

  /** First test row of fold `f`. */
  function TestStart(n: nat, k: nat, f: nat): (r: nat)
    requires 0 < k
    ensures r == f * FoldSize(n, k)
    ensures f == 0 ==> r == 0
  {
    TimesIsProduct(f, FoldSize(n, k));
    Times(f, FoldSize(n, k))
  }

  /** End (exclusive) of the test rows of fold `f`; the last fold runs to the end. */
  function TestEnd(n: nat, k: nat, f: nat): (r: nat)
    requires 0 < k
    ensures f + 1 < k ==> r == TestStart(n, k, f + 1)
    ensures f == k - 1 ==> r == n
  {
    if f == k - 1 then n else Times(f + 1, FoldSize(n, k))
  }

  /** Each test range lies within the rows, the first starts at 0, the last ends at `n`, and each ends where the next starts. */
  lemma FoldsContiguous(n: nat, k: nat, f: nat)
    requires 0 < k && f < k
    ensures TestStart(n, k, f) <= TestEnd(n, k, f) <= n
    ensures TestStart(n, k, 0) == 0 && TestEnd(n, k, k - 1) == n
    ensures f + 1 < k ==> TestEnd(n, k, f) == TestStart(n, k, f + 1)
  {
    var q := FoldSize(n, k);
    TimesMonotone(f, k, q);
    TimesMonotone(f + 1, k, q);
  }

  /** The fold whose test range holds row `i`. */
  function FoldOf(n: nat, k: nat, i: nat): (f: nat)
    requires 0 < k
    ensures f < k
  {
    var q := FoldSize(n, k);
    if q == 0 || i / q >= k - 1 then k - 1 else i / q
  }

  /** Every row is tested in exactly one fold: the test ranges are disjoint and cover all rows. */
  lemma FoldMembership(n: nat, k: nat, i: nat, f: nat)
    requires 0 < k && i < n && f < k
    ensures TestStart(n, k, f) <= i < TestEnd(n, k, f) <==> f == FoldOf(n, k, i)
  {
    var q := FoldSize(n, k);
    if q == 0 {
      TimesIsProduct(f, q);
      TimesIsProduct(f + 1, q);
    } else {
      DivAtLeast(i, q, f);
      DivAtLeast(i, q, f + 1);
      DivAtLeast(i, q, k - 1);
    }
  }

  /**
   * Fold `f` of `kFoldCrossValidation`: the rows of its test range are held
   * out, and the rows before and after it train.
   */
  function FoldSplit(features: seq<seq<real>>, targets: seq<real>, k: nat, f: nat): (r: DataSplit)
    requires 0 < k && f < k
    ensures var n, a, b := |features|, TestStart(|features|, k, f), TestEnd(|features|, k, f);
      a <= b <= n
      && r.testFeatures == features[a..b] && r.trainFeatures == features[..a] + features[b..]
      && |r.trainFeatures| + |r.testFeatures| == n
      && (|targets| == n ==> r.testTargets == targets[a..b] && r.trainTargets == targets[..a] + targets[b..])
  {
    var n := |features|;
    var testStart := TestStart(n, k, f);
    var testEnd := TestEnd(n, k, f);
    FoldsContiguous(n, k, f);
    SlicesAt(features, testStart, testEnd, n);
    SlicesAt(targets, testStart, testEnd, n);
    DataSplit(
      Slice(features, 0, testStart) + SliceFrom(features, testEnd), Slice(targets, 0, testStart) + SliceFrom(targets, testEnd),
      Slice(features, testStart, testEnd), Slice(targets, testStart, testEnd))
  }

  /**
   * What `kFoldCrossValidation` needs: aligned rows, at least two folds and
   * no more folds than rows (otherwise some fold trains on nothing), and a
   * scorable test range in every fold.
   */
  ghost predicate Foldable(features: seq<seq<real>>, targets: seq<real>, k: nat)
  {
    Aligned(features, targets) && 2 <= k <= |features|
    && forall f :: 0 <= f < k ==> Scorable(Slice(targets, TestStart(|features|, k, f), TestEnd(|features|, k, f)))
  }

  /** With at least two folds and no more folds than rows, every fold has training and test rows. */
  lemma FoldSides(n: nat, k: nat, f: nat)
    requires 2 <= k <= n && f < k
    ensures TestStart(n, k, f) < TestEnd(n, k, f)
    ensures 0 < TestStart(n, k, f) || TestEnd(n, k, f) < n
  {
    var q := FoldSize(n, k);
    DivAtLeast(n, k, 1);
    assert Times(1, k) == k;
    assert 1 <= q;
    TimesMonotone(2, k, q);
    assert Times(1, q) == q;
    assert Times(2, q) == q + q;
    if f == k - 1 {
      TimesMonotone(f + 1, k, q);
    } else if f > 0 {
      TimesMonotone(1, f, q);
      assert Times(1, q) == q;
    }
  }

  /** The metrics of fold `f`: a forest grown on its training rows, scored on its test rows. */
  function FoldScore(
    sqrt: real -> real, features: seq<seq<real>>, targets: seq<real>, k: nat, numTrees: int, random: (nat, nat) -> Uniform, f: nat)
    : (r: ModelMetrics)
    requires IsSqrt(sqrt) && Foldable(features, targets, k) && 0 < numTrees && f < k
    ensures 0.0 <= r.rmse && 0.0 <= r.mape && r.rSquared <= 1.0
    ensures (FoldTrainable(features, targets, k, f);
      var split := FoldSplit(features, targets, k, f);
      r == Assess(sqrt, split.testTargets,
        PredictRandomForest(split.testFeatures, BuildRandomForest(split.trainFeatures, split.trainTargets, numTrees, random))))
  {
    var split := FoldSplit(features, targets, k, f);
    FoldTrainable(features, targets, k, f);
    var model := BuildRandomForest(split.trainFeatures, split.trainTargets, numTrees, random);
    Assess(sqrt, split.testTargets, PredictRandomForest(split.testFeatures, model))
  }

  /** Every fold of a foldable data set trains on aligned, non-empty rows and tests on a scorable, non-empty range. */
  lemma FoldTrainable(features: seq<seq<real>>, targets: seq<real>, k: nat, f: nat)
    requires Foldable(features, targets, k) && f < k
    ensures var split := FoldSplit(features, targets, k, f);
      Aligned(split.trainFeatures, split.trainTargets) && 0 < |split.trainFeatures|
      && 0 < |split.testFeatures| && |split.testFeatures| == |split.testTargets| && Scorable(split.testTargets)
  {
    var n := |features|;
    FoldsContiguous(n, k, f);
    FoldSides(n, k, f);
    AlignedJoin(features, targets, TestStart(n, k, f), TestEnd(n, k, f));
    SliceInRange(targets, TestStart(n, k, f), TestEnd(n, k, f));
  }

  /** RMSE and MAPE are never negative and R-squared never exceeds 1. */
  ghost predicate WellScored(ms: seq<ModelMetrics>)
  {
    forall i :: 0 <= i < |ms| ==> 0.0 <= ms[i].rmse && 0.0 <= ms[i].mape && ms[i].rSquared <= 1.0
  }

  /** The metrics of every fold; fold `f` draws its bootstrap samples from `draws(f)`. */
  function FoldScores(
    sqrt: real -> real, features: seq<seq<real>>, targets: seq<real>, k: nat, numTrees: int, draws: nat -> (nat, nat) -> Uniform)
    : (r: seq<ModelMetrics>)
    requires IsSqrt(sqrt) && Foldable(features, targets, k) && 0 < numTrees
    ensures |r| == k && forall f :: 0 <= f < k ==> r[f] == FoldScore(sqrt, features, targets, k, numTrees, draws(f), f)
    ensures WellScored(r)
  {
    seq(k, f requires 0 <= f < k => FoldScore(sqrt, features, targets, k, numTrees, draws(f), f))
  }

  function Rmses(ms: seq<ModelMetrics>): (r: seq<real>)
    ensures |r| == |ms| && forall i :: 0 <= i < |ms| ==> r[i] == ms[i].rmse
  {
    seq(|ms|, i requires 0 <= i < |ms| => ms[i].rmse)
  }

  function Mapes(ms: seq<ModelMetrics>): (r: seq<real>)
    ensures |r| == |ms| && forall i :: 0 <= i < |ms| ==> r[i] == ms[i].mape
  {
    seq(|ms|, i requires 0 <= i < |ms| => ms[i].mape)
  }

  function RSquares(ms: seq<ModelMetrics>): (r: seq<real>)
    ensures |r| == |ms| && forall i :: 0 <= i < |ms| ==> r[i] == ms[i].rSquared
  {
    seq(|ms|, i requires 0 <= i < |ms| => ms[i].rSquared)
  }

  /** Averaging keeps the bounds of the metrics. */
  lemma AveragesBounded(ms: seq<ModelMetrics>)
    requires |ms| > 0 && WellScored(ms)
    ensures 0.0 <= Mean(Rmses(ms)) && 0.0 <= Mean(Mapes(ms)) && Mean(RSquares(ms)) <= 1.0
  {
    var rmses, mapes, rSquares := Rmses(ms), Mapes(ms), RSquares(ms);
    assert Within(rmses, 0.0, Max(rmses));
    MeanWithin(rmses, 0.0, Max(rmses));
    assert Within(mapes, 0.0, Max(mapes));
    MeanWithin(mapes, 0.0, Max(mapes));
    assert Within(rSquares, Min(rSquares), 1.0);
    MeanWithin(rSquares, Min(rSquares), 1.0);
  }

  /** Adding fold `i` to the running totals. */
  lemma TotalsStep(ms: seq<ModelMetrics>, i: nat)
    requires i < |ms|
    ensures Sum(Rmses(ms[..i + 1])) == Sum(Rmses(ms[..i])) + ms[i].rmse
    ensures Sum(Mapes(ms[..i + 1])) == Sum(Mapes(ms[..i])) + ms[i].mape
    ensures Sum(RSquares(ms[..i + 1])) == Sum(RSquares(ms[..i])) + ms[i].rSquared
  {
    assert ms[..i + 1][..i] == ms[..i];
    SumSnoc(Rmses(ms[..i + 1]));
    SumSnoc(Mapes(ms[..i + 1]));
    SumSnoc(RSquares(ms[..i + 1]));
    assert Rmses(ms[..i + 1])[..i] == Rmses(ms[..i]);
    assert Mapes(ms[..i + 1])[..i] == Mapes(ms[..i]);
    assert RSquares(ms[..i + 1])[..i] == RSquares(ms[..i]);
  }

  /** Dividing the totals by the number of folds gives the fold means, within the metrics' bounds. */
  lemma Averages(ms: seq<ModelMetrics>, totalRmse: real, totalMape: real, totalRSquared: real)
    requires |ms| > 0 && WellScored(ms)
    requires totalRmse == Sum(Rmses(ms)) && totalMape == Sum(Mapes(ms)) && totalRSquared == Sum(RSquares(ms))
    ensures var n := |ms| as real;
      CrossValidation(totalRmse / n, totalMape / n, totalRSquared / n)
        == CrossValidation(Mean(Rmses(ms)), Mean(Mapes(ms)), Mean(RSquares(ms)))
    ensures 0.0 <= Mean(Rmses(ms)) && 0.0 <= Mean(Mapes(ms)) && Mean(RSquares(ms)) <= 1.0
  {
    AveragesBounded(ms);
  }

  /** The averaged metrics of the folds. */
  datatype CrossValidation = CrossValidation(avgRmse: real, avgMape: real, avgRSquared: real)

  /** The cross-validated R-squared: the mean over the folds. */
  function CvRSquared(
    sqrt: real -> real, features: seq<seq<real>>, targets: seq<real>, k: nat, numTrees: int, draws: nat -> (nat, nat) -> Uniform)
    : (r: real)
    requires IsSqrt(sqrt) && Foldable(features, targets, k) && 0 < numTrees
    ensures r <= 1.0
  {
    var scores := FoldScores(sqrt, features, targets, k, numTrees, draws);
    AveragesBounded(scores);
    Mean(RSquares(scores))
  }

  /**
   * `kFoldCrossValidation`: each metric summed over the folds in order and
   * divided by `k`. The folds are scored first and then summed, which
   * computes the same totals as the source's single loop.
   */
  method KFoldCrossValidation(
    sqrt: real -> real, features: seq<seq<real>>, targets: seq<real>, k: nat, numTrees: int, draws: nat -> (nat, nat) -> Uniform)
    returns (r: CrossValidation)
    requires IsSqrt(sqrt) && Foldable(features, targets, k) && 0 < numTrees
    ensures var scores := FoldScores(sqrt, features, targets, k, numTrees, draws);
      r == CrossValidation(Mean(Rmses(scores)), Mean(Mapes(scores)), Mean(RSquares(scores)))
    ensures r.avgRSquared == CvRSquared(sqrt, features, targets, k, numTrees, draws)
    ensures 0.0 <= r.avgRmse && 0.0 <= r.avgMape && r.avgRSquared <= 1.0
  {
    var scores := FoldScores(sqrt, features, targets, k, numTrees, draws);
    var totalRmse, totalMape, totalRSquared := Totals(scores);
    r := CrossValidation(totalRmse / k as real, totalMape / k as real, totalRSquared / k as real);
    Averages(scores, totalRmse, totalMape, totalRSquared);
  }

  /** The running totals of the fold loop: each metric summed over the folds in order. */
  method Totals(ms: seq<ModelMetrics>) returns (totalRmse: real, totalMape: real, totalRSquared: real)
    ensures totalRmse == Sum(Rmses(ms)) && totalMape == Sum(Mapes(ms)) && totalRSquared == Sum(RSquares(ms))
  {
    totalRmse, totalMape, totalRSquared := 0.0, 0.0, 0.0;
    var fold := 0;
    while fold < |ms|
      invariant fold <= |ms|
      invariant totalRmse == Sum(Rmses(ms[..fold]))
      invariant totalMape == Sum(Mapes(ms[..fold]))
      invariant totalRSquared == Sum(RSquares(ms[..fold]))
    {
      TotalsStep(ms, fold);
      totalRmse := totalRmse + ms[fold].rmse;
      totalMape := totalMape + ms[fold].mape;
      totalRSquared := totalRSquared + ms[fold].rSquared;
      fold := fold + 1;
    }
    assert ms[..|ms|] == ms;
  }

  // ---------------------------------------------------------------------
  // Grid search
  // ---------------------------------------------------------------------

  /** The forest sizes tried by default. */
  const DefaultTreeOptions: seq<int> := [5, 10, 20, 50]

  /** The grid search scores each forest size by 3-fold cross-validation. */
  const GridFolds: nat := 3

  /** The cross-validated R-squared of every option; option `j` draws from `draws(j)`. */
  function OptionScores(
    sqrt: real -> real, features: seq<seq<real>>, targets: seq<real>, options: seq<int>,
    draws: nat -> nat -> (nat, nat) -> Uniform)
    : (r: seq<real>)
    requires IsSqrt(sqrt) && Foldable(features, targets, GridFolds)
    requires forall j :: 0 <= j < |options| ==> 0 < options[j]
    ensures |r| == |options|
    ensures forall j :: 0 <= j < |options| ==> r[j] == CvRSquared(sqrt, features, targets, GridFolds, options[j], draws(j)) <= 1.0
  {
    seq(|options|, j requires 0 <= j < |options| => CvRSquared(sqrt, features, targets, GridFolds, options[j], draws(j)))
  }

  /** The default forest sizes are valid options, scored in the order 5, 10, 20, 50. */
  lemma DefaultOptionScores(
    sqrt: real -> real, features: seq<seq<real>>, targets: seq<real>, draws: nat -> nat -> (nat, nat) -> Uniform)
    requires IsSqrt(sqrt) && Foldable(features, targets, GridFolds)
    ensures forall j :: 0 <= j < |DefaultTreeOptions| ==> 0 < DefaultTreeOptions[j]
    ensures var r := OptionScores(sqrt, features, targets, DefaultTreeOptions, draws);
      |r| == 4 && r[0] == CvRSquared(sqrt, features, targets, GridFolds, 5, draws(0))
      && r[3] == CvRSquared(sqrt, features, targets, GridFolds, 50, draws(3))
  {
  }

  /** Position `j` holds the greatest score, and every earlier score is strictly smaller. */
  ghost predicate FirstMaximum(scores: seq<real>, j: nat)
  {
    j < |scores| && (forall i :: 0 <= i < |scores| ==> scores[i] <= scores[j]) && (forall i :: 0 <= i < j ==> scores[i] < scores[j])
  }

  /**
   * `gridSearchHyperparameters`: the option of greatest cross-validated
   * R-squared, the earliest one on ties. An empty option list leaves the
   * answer `undefined` and the score at negative infinity.
   */
  method GridSearchHyperparameters(
    sqrt: real -> real, features: seq<seq<real>>, targets: seq<real>, options: seq<int>,
    draws: nat -> nat -> (nat, nat) -> Uniform)
    returns (bestNumTrees: Option<int>, bestRSquared: Score)
    requires IsSqrt(sqrt) && Foldable(features, targets, GridFolds)
    requires forall j :: 0 <= j < |options| ==> 0 < options[j]
    ensures |options| == 0 ==> bestNumTrees == None && bestRSquared == NegInf
    ensures |options| > 0 ==>
      var scores := OptionScores(sqrt, features, targets, options, draws);
      exists j: nat :: FirstMaximum(scores, j) && bestNumTrees == Some(options[j]) && bestRSquared == Finite(scores[j])
  {
    ghost var expected := OptionScores(sqrt, features, targets, options, draws);
    var scores: seq<real> := [];
    var j := 0;
    while j < |options|
      invariant j <= |options| && |scores| == j
      invariant forall i :: 0 <= i < j ==> scores[i] == expected[i]
    {
      var cv := KFoldCrossValidation(sqrt, features, targets, GridFolds, options[j], draws(j));
      assert cv.avgRSquared == expected[j];
      AppendAgrees(scores, expected, cv.avgRSquared);
      scores := scores + [cv.avgRSquared];
      j := j + 1;
    }
    SameElements(scores, expected);
    var best;
    best, bestRSquared := FirstBestScore(scores);
    bestNumTrees := if best.Some? then Some(options[best.value]) else None;
    if |options| > 0 {
      assert FirstMaximum(expected, best.value) && bestNumTrees == Some(options[best.value]);
    }
  }

  lemma AppendAgrees(a: seq<real>, b: seq<real>, x: real)
    requires |a| < |b| && x == b[|a|] && forall i :: 0 <= i < |a| ==> a[i] == b[i]
    ensures forall i :: 0 <= i < |a| + 1 ==> (a + [x])[i] == b[i]
  {
  }

  lemma SameElements(a: seq<real>, b: seq<real>)
    requires |a| == |b| && forall i :: 0 <= i < |a| ==> a[i] == b[i]
    ensures a == b
  {
  }

  /**
   * The scan of the grid search over the options' scores: starting from
   * negative infinity, a score replaces the best only when strictly greater.
   */
  method FirstBestScore(scores: seq<real>) returns (best: Option<nat>, bestScore: Score)
    ensures |scores| == 0 ==> best == None && bestScore == NegInf
    ensures |scores| > 0 ==> best.Some? && FirstMaximum(scores, best.value) && bestScore == Finite(scores[best.value])
  {
    best, bestScore := None, NegInf;
    var j := 0;
    while j < |scores|
      invariant j <= |scores|
      invariant j == 0 ==> best == None && bestScore == NegInf
      invariant j > 0 ==> best.Some? && FirstMaximum(scores[..j], best.value) && bestScore == Finite(scores[best.value])
    {
      if bestScore.NegInf? || scores[j] > bestScore.value {
        best, bestScore := Some(j), Finite(scores[j]);
      }
      j := j + 1;
    }
    assert scores[..|scores|] == scores;
  }
}
