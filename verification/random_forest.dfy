/**
 * The regression-tree ensemble of `lib/models/random-forest-predictor.ts`.
 * Samples are feature rows indexed by position; a node names the position
 * it splits on. `Math.random` is a parameter giving, for each tree and each
 * draw, a number in [0, 1).
 */
module RandomForest {
  import opened Series
  import opened Selection
  import opened Options

  /** A decision tree: a leaf predicts a value, a node sends `row[feature] <= threshold` left. */
  datatype Tree = Leaf(value: real) | Node(feature: nat, threshold: real, left: Tree, right: Tree)

  /** The trees and the feature keys (positions) of the first training row. */
  datatype RandomForestModel = RandomForestModel(trees: seq<Tree>, featureNames: seq<nat>)

  /** Number of edges on the longest path from the root to a leaf. */
  function Depth(t: Tree): nat
  {
    match t
    case Leaf(_) => 0
    case Node(_, _, l, r) => 1 + if Depth(l) < Depth(r) then Depth(r) else Depth(l)
  }

  /** The leaf values, left to right. */
  function LeafValues(t: Tree): seq<real>
  {
    match t
    case Leaf(v) => [v]
    case Node(_, _, l, r) => LeafValues(l) + LeafValues(r)
  }

  /** Every leaf value lies in [lo, hi]. */
  ghost predicate LeavesWithin(t: Tree, lo: real, hi: real)
  {
    forall v :: v in LeafValues(t) ==> lo <= v <= hi
  }

  // ---------------------------------------------------------------------
  // Training rows, partitions and split candidates
  // ---------------------------------------------------------------------

  /** Every row has `width` features. */
  ghost predicate SameWidth(features: seq<seq<real>>, width: nat)
  {
    forall i :: 0 <= i < |features| ==> |features[i]| == width
  }

  /**
   * One target per row, and every row with the keys of the first (the
   * source reads the feature names off `features[0]`).
   */
  ghost predicate Aligned(features: seq<seq<real>>, targets: seq<real>)
  {
    |features| == |targets| && (|features| > 0 ==> SameWidth(features, |features[0]|))
  }

  /** Rows picked by index keep the width of the rows they come from. */
  lemma PickAligned(features: seq<seq<real>>, targets: seq<real>, idx: seq<nat>)
    requires Aligned(features, targets) && forall j :: 0 <= j < |idx| ==> idx[j] < |features|
    ensures Aligned(Pick(features, idx), Pick(targets, idx))
  {
    if |idx| > 0 {
      assert idx[0] < |features|;
      assert |Pick(features, idx)[0]| == |features[idx[0]]| == |features[0]|;
    }
  }

  /** Whether row `i` goes left: its value at `feature` does not exceed `threshold`. */
  predicate GoesLeft(features: seq<seq<real>>, feature: nat, threshold: real, i: nat)
    ensures GoesLeft(features, feature, threshold, i) ==> i < |features|
    ensures i < |features| && |features[i]| <= feature ==> !GoesLeft(features, feature, threshold, i)
  {
    i < |features| && feature < |features[i]| && features[i][feature] <= threshold
  }

  /** The rows sent left, in order (`leftIndices`). */
  function LeftIndices(features: seq<seq<real>>, feature: nat, threshold: real): (r: seq<nat>)
    ensures forall i: nat :: i in r <==> i < |features| && GoesLeft(features, feature, threshold, i)
    ensures Ascending(r)
  {
    Where(|features|, (i: nat) => GoesLeft(features, feature, threshold, i))
  }

  /** The remaining rows, in order (`rightIndices`). */
  function RightIndices(features: seq<seq<real>>, feature: nat, threshold: real): (r: seq<nat>)
    ensures forall i: nat :: i in r <==> i < |features| && i !in LeftIndices(features, feature, threshold)
    ensures Ascending(r)
  {
    Where(|features|, (i: nat) => !GoesLeft(features, feature, threshold, i))
  }

  /** Each row goes to exactly one side: left iff its value does not exceed the threshold. */
  lemma PartitionExact(features: seq<seq<real>>, feature: nat, threshold: real, i: nat)
    requires i < |features| && feature < |features[i]|
    ensures i in LeftIndices(features, feature, threshold) <==> features[i][feature] <= threshold
    ensures i in RightIndices(features, feature, threshold) <==> features[i][feature] > threshold
  {
  }

  /** The two sides together hold every row once. */
  lemma PartitionSizes(features: seq<seq<real>>, feature: nat, threshold: real)
    ensures |LeftIndices(features, feature, threshold)| + |RightIndices(features, feature, threshold)| == |features|
  {
    WhereSizes(|features|, (i: nat) => GoesLeft(features, feature, threshold, i),
      (i: nat) => !GoesLeft(features, feature, threshold, i));
  }

  /**
   * The right-hand targets as the gain computation sees them: the targets
   * of right rows with every ZERO target dropped, because the source marks
   * left rows with 0 and then filters out all falsy values.
   */
  function RightGainTargets(features: seq<seq<real>>, targets: seq<real>, feature: nat, threshold: real): (r: seq<real>)
    requires |features| == |targets|
    ensures 0.0 !in r
    ensures forall i: nat :: i in RightIndices(features, feature, threshold) && targets[i] != 0.0 ==> targets[i] in r
    ensures |r| <= |RightIndices(features, feature, threshold)|
  {
    var kept := Where(|targets|, (i: nat) => i < |targets| && !GoesLeft(features, feature, threshold, i) && targets[i] != 0.0);
    PickHas(targets, kept);
    WhereNarrower(|targets|, (i: nat) => i < |targets| && !GoesLeft(features, feature, threshold, i) && targets[i] != 0.0,
      (i: nat) => !GoesLeft(features, feature, threshold, i));
    Pick(targets, kept)
  }

  /** A candidate split. */
  datatype Candidate = Candidate(feature: nat, threshold: real)

  /**
   * The variance reduction of splitting `all` into `left` and `right`: the
   * variance of `all` less the size-weighted variance of the two sides.
   */
  function Gain(all: seq<real>, left: seq<real>, right: seq<real>): real
    requires 0 < |all| && 0 < |left| && 0 < |right|
  {
    Variance(all) - (|left| as real * Variance(left) + |right| as real * Variance(right)) / |all| as real
  }

  /** The number of targets times the variance a split leaves is the size-weighted sum of its sides' variances. */
  lemma GainRemainder(all: seq<real>, left: seq<real>, right: seq<real>)
    requires 0 < |all| && 0 < |left| && 0 < |right|
    ensures |all| as real * (Variance(all) - Gain(all, left, right))
      == |left| as real * Variance(left) + |right| as real * Variance(right)
  {
    RemainderTimesCount(|all| as real, Variance(all), |left| as real * Variance(left) + |right| as real * Variance(right));
  }

  /**
   * The variance reduction of a candidate, if the source does not skip it:
   * the candidate is scored exactly when both the left targets and the
   * gain's right targets are non-empty.
   */
  function Evaluate(features: seq<seq<real>>, targets: seq<real>, c: Candidate): (r: Option<real>)
    requires |features| == |targets|
    ensures r.Some? <==>
      0 < |LeftIndices(features, c.feature, c.threshold)| && 0 < |RightGainTargets(features, targets, c.feature, c.threshold)|
    ensures r.Some? ==> 0 < |RightIndices(features, c.feature, c.threshold)|
    ensures r.Some? ==> 0 < |targets| && r.value == Gain(
      targets, Pick(targets, LeftIndices(features, c.feature, c.threshold)), RightGainTargets(features, targets, c.feature, c.threshold))
  {
    var leftIdx := LeftIndices(features, c.feature, c.threshold);
    var left := Pick(targets, leftIdx);
    var right := RightGainTargets(features, targets, c.feature, c.threshold);
    if |left| == 0 || |right| == 0 then None
    else
      RightGainNonEmpty(features, targets, c);
      Some(Gain(targets, left, right))
  }

  lemma RemainderTimesCount(n: real, total: real, w: real)
    requires 0.0 < n
    ensures n * (total - (total - w / n)) == w
  {
  }

  /**
   * Law of total variance: a candidate's gain is never negative. Left rows
   * and the gain's right rows are disjoint, so their squared deviations
   * from the overall mean add up to at most the overall ones, and each
   * side's own mean deviates less still.
   */
  lemma GainNonNegative(features: seq<seq<real>>, targets: seq<real>, c: Candidate)
    requires |features| == |targets| && 0 < |LeftIndices(features, c.feature, c.threshold)|
    requires 0 < |RightGainTargets(features, targets, c.feature, c.threshold)|
    ensures Evaluate(features, targets, c).Some? && 0.0 <= Evaluate(features, targets, c).value
  {
    var n := |targets|;
    var left := Pick(targets, LeftIndices(features, c.feature, c.threshold));
    var right := RightGainTargets(features, targets, c.feature, c.threshold);
    DisjointPicksDeviation(targets, n,
      (i: nat) => GoesLeft(features, c.feature, c.threshold, i),
      (i: nat) => i < |targets| && !GoesLeft(features, c.feature, c.threshold, i) && targets[i] != 0.0, Mean(targets));
    assert targets[..n] == targets;
    GainOfDisjointSides(targets, left, right);
  }

  /** Two sides whose squared deviations from the overall mean fit within the overall ones leave a non-negative gain. */
  lemma GainOfDisjointSides(all: seq<real>, left: seq<real>, right: seq<real>)
    requires 0 < |all| && 0 < |left| && 0 < |right|
    requires SumSqDev(left, Mean(all)) + SumSqDev(right, Mean(all)) <= SumSqDev(all, Mean(all))
    ensures 0.0 <= Gain(all, left, right)
  {
    SidesWithinTotal(all, left, right);
    GainOfSmallerSpread(all, left, right);
  }

  /** Sides whose size-weighted variance is at most that of the whole leave a non-negative gain. */
  lemma GainOfSmallerSpread(all: seq<real>, left: seq<real>, right: seq<real>)
    requires 0 < |all| && 0 < |left| && 0 < |right|
    requires |left| as real * Variance(left) + |right| as real * Variance(right) <= |all| as real * Variance(all)
    ensures 0.0 <= Gain(all, left, right)
  {
    QuotientAtMost(|left| as real * Variance(left) + |right| as real * Variance(right), |all| as real, Variance(all));
  }

  /** Under the same condition the size-weighted variance of the sides is at most that of the whole. */
  lemma SidesWithinTotal(all: seq<real>, left: seq<real>, right: seq<real>)
    requires 0 < |all| && 0 < |left| && 0 < |right|
    requires SumSqDev(left, Mean(all)) + SumSqDev(right, Mean(all)) <= SumSqDev(all, Mean(all))
    ensures |left| as real * Variance(left) + |right| as real * Variance(right) <= |all| as real * Variance(all)
  {
    VarianceLeast(left, Mean(all));
    VarianceLeast(right, Mean(all));
    VarianceTimesLength(all);
  }

  lemma QuotientAtMost(x: real, n: real, y: real)
    requires 0.0 < n && x <= n * y
    ensures x / n <= y
  {
  }

  /** A candidate that leaves each side constant removes all the variance. */
  lemma PureSplitGain(features: seq<seq<real>>, targets: seq<real>, c: Candidate)
    requires |features| == |targets| && 0 < |LeftIndices(features, c.feature, c.threshold)|
    requires 0 < |RightGainTargets(features, targets, c.feature, c.threshold)|
    requires var left := Pick(targets, LeftIndices(features, c.feature, c.threshold));
      Constant(left, left[0])
    requires var right := RightGainTargets(features, targets, c.feature, c.threshold);
      Constant(right, right[0])
    ensures Evaluate(features, targets, c).Some? && Evaluate(features, targets, c).value == Variance(targets)
  {
    var left := Pick(targets, LeftIndices(features, c.feature, c.threshold));
    var right := RightGainTargets(features, targets, c.feature, c.threshold);
    VarianceZero(left);
    VarianceZero(right);
    GainOfPureSides(targets, left, right);
  }

  lemma GainOfPureSides(all: seq<real>, left: seq<real>, right: seq<real>)
    requires 0 < |all| && 0 < |left| && 0 < |right| && Variance(left) == 0.0 && Variance(right) == 0.0
    ensures Gain(all, left, right) == Variance(all)
  {
  }

  /** Squared deviations of two disjoint selections of the first `n` elements add up to at most those of all `n`. */
  lemma {:induction false} DisjointPicksDeviation(s: seq<real>, n: nat, keep: nat -> bool, other: nat -> bool, c: real)
    requires n <= |s|
    requires forall i: nat :: i < n ==> !(keep(i) && other(i))
    ensures SumSqDev(Pick(s, Where(n, keep)), c) + SumSqDev(Pick(s, Where(n, other)), c) <= SumSqDev(s[..n], c)
  {
    if n > 0 {
      DisjointPicksDeviation(s, n - 1, keep, other, c);
      PrefixStep(s, n, c);
      var a := PickStep(s, n, keep, c);
      var b := PickStep(s, n, other, c);
      assert a + b <= Sq(s[n - 1] - c);
    }
  }

  lemma PrefixStep(s: seq<real>, n: nat, c: real)
    requires 0 < n <= |s|
    ensures SumSqDev(s[..n], c) == SumSqDev(s[..n - 1], c) + Sq(s[n - 1] - c)
  {
    assert s[..n] == s[..n - 1] + [s[n - 1]];
    SumSqDevSnoc(s[..n - 1], s[n - 1], c);
  }

  /** Extending the range by one element adds its squared deviation to a selection that keeps it, and nothing otherwise. */
  lemma PickStep(s: seq<real>, n: nat, keep: nat -> bool, c: real) returns (d: real)
    requires 0 < n <= |s|
    ensures d == if keep(n - 1) then Sq(s[n - 1] - c) else 0.0
    ensures SumSqDev(Pick(s, Where(n, keep)), c) == SumSqDev(Pick(s, Where(n - 1, keep)), c) + d
  {
    if keep(n - 1) {
      PickKept(s, n, keep, c);
      d := Sq(s[n - 1] - c);
    } else {
      assert Where(n, keep) == Where(n - 1, keep);
      d := 0.0;
    }
  }

  lemma PickKept(s: seq<real>, n: nat, keep: nat -> bool, c: real)
    requires 0 < n <= |s| && keep(n - 1)
    ensures SumSqDev(Pick(s, Where(n, keep)), c) == SumSqDev(Pick(s, Where(n - 1, keep)), c) + Sq(s[n - 1] - c)
  {
    var w := Where(n - 1, keep);
    assert Where(n, keep) == w + [n - 1];
    PickSnoc(s, w, n - 1);
    SumSqDevSnoc(Pick(s, w), s[n - 1], c);
  }


  /** Rows counted on the right of the gain are right rows of the partition. */
  lemma RightGainNonEmpty(features: seq<seq<real>>, targets: seq<real>, c: Candidate)
    requires |features| == |targets| && 0 < |RightGainTargets(features, targets, c.feature, c.threshold)|
    ensures 0 < |RightIndices(features, c.feature, c.threshold)|
  {
    var idx := Where(|targets|, (i: nat) => i < |targets| && !GoesLeft(features, c.feature, c.threshold, i) && targets[i] != 0.0);
    assert idx[0] in RightIndices(features, c.feature, c.threshold);
  }

  /**
   * Because zero targets are dropped from the gain's right side, a split
   * whose right rows all have target 0 is never considered, although its
   * partition is not empty.
   */
  lemma ZeroRightTargetsSkipped(features: seq<seq<real>>, targets: seq<real>, c: Candidate)
    requires |features| == |targets|
    requires forall i :: 0 <= i < |targets| && !GoesLeft(features, c.feature, c.threshold, i) ==> targets[i] == 0.0
    ensures Evaluate(features, targets, c) == None
  {
  }

  /** Strictly increasing. */
  ghost predicate Increasing(s: seq<real>)
  {
    forall j, k :: 0 <= j < k < |s| ==> s[j] < s[k]
  }

  /** Inserts `x` into a strictly increasing list unless it is already there. */
  function InsertDistinct(x: real, s: seq<real>): (r: seq<real>)
    requires Increasing(s)
    ensures Increasing(r)
    ensures forall y :: y in r <==> y == x || y in s
  {
    if |s| == 0 then [x]
    else if x < s[0] then [x] + s
    else if x == s[0] then s
    else
      var rest := InsertDistinct(x, s[1..]);
      assert forall j :: 0 <= j < |rest| ==> rest[j] == x || rest[j] in s[1..];
      [s[0]] + rest
  }

  /** `[...new Set(values)].sort((a, b) => a - b)`. */
  function SortedDistinct(values: seq<real>): (r: seq<real>)
    ensures Increasing(r)
    ensures forall y :: y in r <==> y in values
  {
    if |values| == 0 then [] else InsertDistinct(values[0], SortedDistinct(values[1..]))
  }

  /** Midpoints of consecutive sorted distinct values. */
  function Midpoints(sorted: seq<real>): (r: seq<real>)
    requires Increasing(sorted)
    ensures |r| == if |sorted| == 0 then 0 else |sorted| - 1
    ensures forall i :: 0 <= i < |r| ==> sorted[i] < r[i] < sorted[i + 1]
    ensures forall i :: 0 <= i < |r| ==> 2.0 * r[i] == sorted[i] + sorted[i + 1]
  {
    if |sorted| <= 1 then []
    else seq(|sorted| - 1, i requires 0 <= i < |sorted| - 1 => (sorted[i] + sorted[i + 1]) / 2.0)
  }

  /** Every row has at least the first `keys` features. */
  ghost predicate HasKeys(features: seq<seq<real>>, keys: nat)
  {
    forall i :: 0 <= i < |features| ==> keys <= |features[i]|
  }

  /** The values of one feature over all rows. */
  function FeatureValues(features: seq<seq<real>>, feature: nat): (r: seq<real>)
    requires HasKeys(features, feature + 1)
    ensures |r| == |features| && forall i :: 0 <= i < |r| ==> r[i] == features[i][feature]
  {
    seq(|features|, i requires 0 <= i < |features| => features[i][feature])
  }

  /** The candidates of one feature, thresholds ascending. */
  function FeatureCandidates(features: seq<seq<real>>, feature: nat): (r: seq<Candidate>)
    requires HasKeys(features, feature + 1)
    ensures forall j :: 0 <= j < |r| ==> r[j].feature == feature
  {
    var mids := Midpoints(SortedDistinct(FeatureValues(features, feature)));
    seq(|mids|, j requires 0 <= j < |mids| => Candidate(feature, mids[j]))
  }

  /** The candidates of the first `keys` features in the order the source scans them: feature by feature, thresholds ascending. */
  function Candidates(features: seq<seq<real>>, keys: nat): (r: seq<Candidate>)
    requires HasKeys(features, keys)
    ensures forall j :: 0 <= j < |r| ==> r[j].feature < keys
  {
    if keys == 0 then []
    else Candidates(features, keys - 1) + FeatureCandidates(features, keys - 1)
  }

  /** Both sides of the candidate's partition hold a row. */
  ghost predicate BothSides(features: seq<seq<real>>, c: Candidate)
  {
    0 < |LeftIndices(features, c.feature, c.threshold)| && 0 < |RightIndices(features, c.feature, c.threshold)|
  }

  /**
   * Every candidate threshold lies strictly between two values of its
   * feature, so both sides of its partition hold a row.
   */
  lemma CandidateSidesNonEmpty(features: seq<seq<real>>, keys: nat, j: nat)
    requires HasKeys(features, keys) && j < |Candidates(features, keys)|
    ensures BothSides(features, Candidates(features, keys)[j])
  {
    CandidatesBothSides(features, keys);
    assert Candidates(features, keys)[j] in Candidates(features, keys);
  }

  /** Every candidate of the scan leaves a row on each side. */
  lemma {:induction false} CandidatesBothSides(features: seq<seq<real>>, keys: nat)
    requires HasKeys(features, keys)
    ensures forall c :: c in Candidates(features, keys) ==> BothSides(features, c)
  {
    if keys > 0 {
      CandidatesBothSides(features, keys - 1);
      FeatureCandidatesBothSides(features, keys - 1);
      assert Candidates(features, keys) == Candidates(features, keys - 1) + FeatureCandidates(features, keys - 1);
    }
  }

  /** Every candidate of one feature leaves a row on each side. */
  lemma FeatureCandidatesBothSides(features: seq<seq<real>>, k: nat)
    requires HasKeys(features, k + 1)
    ensures forall c :: c in FeatureCandidates(features, k) ==> BothSides(features, c)
  {
    forall c | c in FeatureCandidates(features, k)
      ensures BothSides(features, c)
    {
      var m :| 0 <= m < |FeatureCandidates(features, k)| && FeatureCandidates(features, k)[m] == c;
      FeatureCandidateSides(features, k, m);
    }
  }

  /** Both sides of a candidate of one feature hold a row. */
  lemma FeatureCandidateSides(features: seq<seq<real>>, k: nat, m: nat)
    requires HasKeys(features, k + 1) && m < |FeatureCandidates(features, k)|
    ensures BothSides(features, FeatureCandidates(features, k)[m])
  {
    var values := FeatureValues(features, k);
    var sorted := SortedDistinct(values);
    var th := Midpoints(sorted)[m];
    assert FeatureCandidates(features, k)[m] == Candidate(k, th);
    assert sorted[m] in values && sorted[m + 1] in values;
    var lo :| 0 <= lo < |values| && values[lo] == sorted[m];
    var hi :| 0 <= hi < |values| && values[hi] == sorted[m + 1];
    SidesOfThreshold(features, k, th, lo, hi);
  }

  /** A threshold with a row at or below it and a row above it splits the rows into two non-empty sides. */
  lemma SidesOfThreshold(features: seq<seq<real>>, k: nat, th: real, lo: nat, hi: nat)
    requires lo < |features| && hi < |features| && k < |features[lo]| && k < |features[hi]|
    requires features[lo][k] <= th < features[hi][k]
    ensures 0 < |LeftIndices(features, k, th)| && 0 < |RightIndices(features, k, th)|
  {
    assert lo in LeftIndices(features, k, th);
    assert hi in RightIndices(features, k, th);
  }

  /** The gain of the candidate at `best`, or 0 (the source's initial `bestGain`) when there is none. */
  function Top(gains: seq<Option<real>>, best: Option<nat>): real
  {
    if best.Some? && best.value < |gains| && gains[best.value].Some? then gains[best.value].value else 0.0
  }

  /**
   * The scan with the source's strict `gain > bestGain` over the candidates'
   * gains (`None` for a skipped candidate): the position of the FIRST
   * candidate of greatest positive gain, if any.
   */
  function FirstBest(gains: seq<Option<real>>): (r: Option<nat>)
    ensures r.Some? ==> r.value < |gains| && gains[r.value].Some? && 0.0 < gains[r.value].value
    ensures forall i :: 0 <= i < |gains| && gains[i].Some? ==> gains[i].value <= Top(gains, r)
    ensures r.Some? ==> forall i :: 0 <= i < r.value && gains[i].Some? ==> gains[i].value < Top(gains, r)
  {
    if |gains| == 0 then None
    else
      var init := gains[..|gains| - 1];
      var prev := FirstBest(init);
      var last := gains[|gains| - 1];
      assert forall i :: 0 <= i < |init| ==> gains[i] == init[i];
      assert Top(gains, prev) == Top(init, prev);
      if last.Some? && last.value > Top(init, prev) then Some(|gains| - 1) else prev
  }

  /** The gain of every candidate, in scan order. */
  function Gains(features: seq<seq<real>>, targets: seq<real>, cands: seq<Candidate>): (r: seq<Option<real>>)
    requires |features| == |targets|
    ensures |r| == |cands| && forall i :: 0 <= i < |r| ==> r[i] == Evaluate(features, targets, cands[i])
  {
    seq(|cands|, i requires 0 <= i < |cands| => Evaluate(features, targets, cands[i]))
  }

  // ---------------------------------------------------------------------
  // Growing a tree
  // ---------------------------------------------------------------------

  /** `new Set(targets).size === 1` for non-empty targets. */
  predicate AllEqual(targets: seq<real>)
  {
    forall i :: 0 <= i < |targets| ==> targets[i] == targets[0]
  }

  /** Picked elements stay within the extremes of the sequence they come from. */
  lemma PickWithinExtremes(s: seq<real>, idx: seq<nat>)
    requires 0 < |s| && |idx| > 0 && forall j :: 0 <= j < |idx| ==> idx[j] < |s|
    ensures Min(s) <= Min(Pick(s, idx)) && Max(Pick(s, idx)) <= Max(s)
  {
    var p := Pick(s, idx);
    var a :| 0 <= a < |p| && p[a] == Min(p);
    var b :| 0 <= b < |p| && p[b] == Max(p);
    assert p[a] == s[idx[a]] && p[b] == s[idx[b]];
  }

  /** A leaf at the mean of non-empty targets lies within their extremes. */
  function MeanLeaf(targets: seq<real>): (t: Tree)
    requires |targets| > 0
    ensures t == Leaf(Mean(targets))
    ensures LeavesWithin(t, Min(targets), Max(targets))
  {
    MeanBetweenMinMax(targets);
    Leaf(Mean(targets))
  }

  /**
   * `buildTree`: a leaf for empty targets (0), at the depth limit (the
   * mean), for all-equal targets (that value) and when no candidate has a
   * positive gain (the mean); otherwise a node on the best candidate with a
   * subtree per side.
   */
  function BuildTree(features: seq<seq<real>>, targets: seq<real>, maxDepth: int, depth: int): (t: Tree)
    requires Aligned(features, targets)
    ensures |targets| == 0 ==> t == Leaf(0.0)
    ensures |targets| > 0 && maxDepth <= depth ==> t == Leaf(Mean(targets))
    ensures |targets| > 0 ==> LeavesWithin(t, Min(targets), Max(targets))
    decreases |targets|
  {
    if |targets| == 0 then Leaf(0.0)
    else if maxDepth <= depth then MeanLeaf(targets)
    else if AllEqual(targets) then
      assert Min(targets) == targets[0] == Max(targets);
      Leaf(targets[0])
    else
      var cands := Candidates(features, |features[0]|);
      match FirstBest(Gains(features, targets, cands))
      case None => MeanLeaf(targets)
      case Some(j) =>
        var c := cands[j];
        var left := LeftIndices(features, c.feature, c.threshold);
        var right := RightIndices(features, c.feature, c.threshold);
        SplitChildren(features, targets, c);
        var l := BuildTree(Pick(features, left), Pick(targets, left), maxDepth, depth + 1);
        var r := BuildTree(Pick(features, right), Pick(targets, right), maxDepth, depth + 1);
        NodeWithin(c.feature, c.threshold, l, r, Min(targets), Max(targets),
          Min(Pick(targets, left)), Max(Pick(targets, left)), Min(Pick(targets, right)), Max(Pick(targets, right)));
        Node(c.feature, c.threshold, l, r)
  }

  /** Both sides of a candidate the source does not skip are smaller, non-empty, aligned training sets. */
  lemma SplitChildren(features: seq<seq<real>>, targets: seq<real>, c: Candidate)
    requires Aligned(features, targets) && Evaluate(features, targets, c).Some?
    ensures var left := LeftIndices(features, c.feature, c.threshold);
      0 < |left| < |targets| && Aligned(Pick(features, left), Pick(targets, left))
      && Min(targets) <= Min(Pick(targets, left)) && Max(Pick(targets, left)) <= Max(targets)
    ensures var right := RightIndices(features, c.feature, c.threshold);
      0 < |right| < |targets| && Aligned(Pick(features, right), Pick(targets, right))
      && Min(targets) <= Min(Pick(targets, right)) && Max(Pick(targets, right)) <= Max(targets)
  {
    var left := LeftIndices(features, c.feature, c.threshold);
    var right := RightIndices(features, c.feature, c.threshold);
    PartitionSizes(features, c.feature, c.threshold);
    PickAligned(features, targets, left);
    PickAligned(features, targets, right);
    PickWithinExtremes(targets, left);
    PickWithinExtremes(targets, right);
  }

  /** A node whose subtrees keep within narrower bounds keeps within [lo, hi]. */
  lemma NodeWithin(f: nat, th: real, l: Tree, r: Tree, lo: real, hi: real, lo1: real, hi1: real, lo2: real, hi2: real)
    requires LeavesWithin(l, lo1, hi1) && LeavesWithin(r, lo2, hi2)
    requires lo <= lo1 && hi1 <= hi && lo <= lo2 && hi2 <= hi
    ensures LeavesWithin(Node(f, th, l, r), lo, hi)
  {
  }

  /** All-equal targets give one leaf with their value, whatever the rows. */
  lemma BuildTreeConstant(features: seq<seq<real>>, targets: seq<real>, maxDepth: int, depth: int)
    requires Aligned(features, targets) && |targets| > 0 && Constant(targets, targets[0])
    ensures BuildTree(features, targets, maxDepth, depth) == Leaf(targets[0])
  {
    if maxDepth <= depth {
      MeanConstant(targets, targets[0]);
    }
  }

  /**
   * Below the depth limit, targets that are not all equal are split exactly
   * when some candidate has a positive gain, on the first best one;
   * otherwise the tree is a leaf at their mean.
   */
  lemma BuildTreeDecision(features: seq<seq<real>>, targets: seq<real>, maxDepth: int, depth: int)
    requires Aligned(features, targets) && |targets| > 0 && depth < maxDepth && !AllEqual(targets)
    ensures var cands := Candidates(features, |features[0]|);
      var best := FirstBest(Gains(features, targets, cands));
      var t := BuildTree(features, targets, maxDepth, depth);
      && (best.None? ==> t == Leaf(Mean(targets)))
      && (best.Some? ==> t.Node? && Candidate(t.feature, t.threshold) == cands[best.value])
  {
  }

  /** A node is only built on the first candidate of greatest positive gain. */
  lemma BuildTreeSplits(features: seq<seq<real>>, targets: seq<real>, maxDepth: int, depth: int)
    requires Aligned(features, targets) && BuildTree(features, targets, maxDepth, depth).Node?
    ensures depth < maxDepth && |targets| > 0
    ensures var cands := Candidates(features, |features[0]|);
      var best := FirstBest(Gains(features, targets, cands));
      var t := BuildTree(features, targets, maxDepth, depth);
      best.Some? && cands[best.value] == Candidate(t.feature, t.threshold)
      && 0.0 < Evaluate(features, targets, cands[best.value]).value
  {
  }

  /**
   * A node's subtrees are the trees grown, one level deeper, on the two
   * smaller training sets its split sends each way.
   */
  lemma BuildTreeChildren(features: seq<seq<real>>, targets: seq<real>, maxDepth: int, depth: int)
    returns (leftFeatures: seq<seq<real>>, leftTargets: seq<real>, rightFeatures: seq<seq<real>>, rightTargets: seq<real>)
    requires Aligned(features, targets) && BuildTree(features, targets, maxDepth, depth).Node?
    ensures depth < maxDepth
    ensures Aligned(leftFeatures, leftTargets) && |leftTargets| < |targets|
    ensures Aligned(rightFeatures, rightTargets) && |rightTargets| < |targets|
    ensures BuildTree(features, targets, maxDepth, depth).left == BuildTree(leftFeatures, leftTargets, maxDepth, depth + 1)
    ensures BuildTree(features, targets, maxDepth, depth).right == BuildTree(rightFeatures, rightTargets, maxDepth, depth + 1)
    ensures var t := BuildTree(features, targets, maxDepth, depth);
      var left := LeftIndices(features, t.feature, t.threshold);
      leftFeatures == Pick(features, left) && leftTargets == Pick(targets, left)
    ensures var t := BuildTree(features, targets, maxDepth, depth);
      var right := RightIndices(features, t.feature, t.threshold);
      rightFeatures == Pick(features, right) && rightTargets == Pick(targets, right)
  {
    BuildTreeSplits(features, targets, maxDepth, depth);
    var t := BuildTree(features, targets, maxDepth, depth);
    SplitChildren(features, targets, Candidate(t.feature, t.threshold));
    var left := LeftIndices(features, t.feature, t.threshold);
    var right := RightIndices(features, t.feature, t.threshold);
    leftFeatures, leftTargets := Pick(features, left), Pick(targets, left);
    rightFeatures, rightTargets := Pick(features, right), Pick(targets, right);
  }

  /** A tree grown from depth `depth` is at most `maxDepth - depth` levels deep. */
  lemma {:induction false} BuildTreeDepth(features: seq<seq<real>>, targets: seq<real>, maxDepth: int, depth: int)
    requires Aligned(features, targets)
    ensures Depth(BuildTree(features, targets, maxDepth, depth)) <= if depth < maxDepth then maxDepth - depth else 0
    decreases |targets|
  {
    if BuildTree(features, targets, maxDepth, depth).Node? {
      var lf, lt, rf, rt := BuildTreeChildren(features, targets, maxDepth, depth);
      BuildTreeDepth(lf, lt, maxDepth, depth + 1);
      BuildTreeDepth(rf, rt, maxDepth, depth + 1);
    }
  }

  // ---------------------------------------------------------------------
  // Prediction
  // ---------------------------------------------------------------------

  /**
   * `predictSample` of this file: descend to a leaf. A feature the row lacks
   * reads as `undefined`, which never compares `<=`, so the row goes right.
   */
  function PredictTree(row: seq<real>, t: Tree): (r: real)
    ensures r in LeafValues(t)
  {
    match t
    case Leaf(v) => v
    case Node(f, th, l, rt) =>
      if f < |row| && row[f] <= th then PredictTree(row, l) else PredictTree(row, rt)
  }

  /** At a node, a row whose value at the node's feature does not exceed the threshold descends left, and any other row right. */
  lemma PredictNode(row: seq<real>, f: nat, th: real, l: Tree, rt: Tree)
    ensures f < |row| && row[f] <= th ==> PredictTree(row, Node(f, th, l, rt)) == PredictTree(row, l)
    ensures !(f < |row| && row[f] <= th) ==> PredictTree(row, Node(f, th, l, rt)) == PredictTree(row, rt)
    ensures PredictTree(row, l) != PredictTree(row, rt) ==>
      (PredictTree(row, Node(f, th, l, rt)) == PredictTree(row, l) <==> f < |row| && row[f] <= th)
  {
  }

  /**
   * A training row, predicted by a node grown on it, descends to the
   * subtree grown on the side the split sent it to during training, and
   * that side's training rows include it.
   */
  lemma TrainingRowDescends(features: seq<seq<real>>, targets: seq<real>, maxDepth: int, depth: int, i: nat)
    returns (side: seq<nat>)
    requires Aligned(features, targets) && BuildTree(features, targets, maxDepth, depth).Node? && i < |features|
    ensures var t := BuildTree(features, targets, maxDepth, depth);
      var left := GoesLeft(features, t.feature, t.threshold, i);
      && side == (if left then LeftIndices(features, t.feature, t.threshold) else RightIndices(features, t.feature, t.threshold))
      && i in side
      && features[i] in Pick(features, side)
      && PredictTree(features[i], t) == PredictTree(features[i], if left then t.left else t.right)
  {
    var t := BuildTree(features, targets, maxDepth, depth);
    var left := GoesLeft(features, t.feature, t.threshold, i);
    side := if left then LeftIndices(features, t.feature, t.threshold) else RightIndices(features, t.feature, t.threshold);
    assert i in side;
    var j :| 0 <= j < |side| && side[j] == i;
    assert Pick(features, side)[j] == features[i];
  }

  /** A prediction lies within any bounds of the tree's leaves. */
  lemma PredictWithin(row: seq<real>, t: Tree, lo: real, hi: real)
    requires LeavesWithin(t, lo, hi)
    ensures lo <= PredictTree(row, t) <= hi
  {
  }

  /** The per-tree predictions for one row. */
  function TreePredictions(row: seq<real>, trees: seq<Tree>): (r: seq<real>)
    ensures |r| == |trees| && forall j :: 0 <= j < |r| ==> r[j] == PredictTree(row, trees[j])
  {
    seq(|trees|, j requires 0 <= j < |trees| => PredictTree(row, trees[j]))
  }

  /** The mean of one row's per-tree predictions. */
  function ForestMean(row: seq<real>, trees: seq<Tree>): (r: real)
    requires |trees| > 0
    ensures Min(TreePredictions(row, trees)) <= r <= Max(TreePredictions(row, trees))
    ensures IsMean(TreePredictions(row, trees), r)
  {
    MeanBetweenMinMax(TreePredictions(row, trees));
    MeanIsMean(TreePredictions(row, trees));
    Mean(TreePredictions(row, trees))
  }

  /**
   * `predictRandomForest`: per sample, the mean of the trees' predictions.
   * The source reduces the predictions without an initial value, so any
   * sample needs at least one tree.
   */
  function PredictRandomForest(samples: seq<seq<real>>, model: RandomForestModel): (r: seq<real>)
    requires |samples| > 0 ==> |model.trees| > 0
    ensures |r| == |samples|
    ensures forall i :: 0 <= i < |r| ==>
      Min(TreePredictions(samples[i], model.trees)) <= r[i] <= Max(TreePredictions(samples[i], model.trees))
    ensures forall i :: 0 <= i < |r| ==> IsMean(TreePredictions(samples[i], model.trees), r[i])
  {
    seq(|samples|, i requires 0 <= i < |samples| => ForestMean(samples[i], model.trees))
  }

  /** If every tree's leaves lie in [lo, hi], so does every forest prediction. */
  lemma ForestWithin(samples: seq<seq<real>>, model: RandomForestModel, lo: real, hi: real)
    requires |model.trees| > 0
    requires forall j :: 0 <= j < |model.trees| ==> LeavesWithin(model.trees[j], lo, hi)
    ensures forall i :: 0 <= i < |samples| ==> lo <= PredictRandomForest(samples, model)[i] <= hi
  {
    forall i | 0 <= i < |samples|
      ensures lo <= PredictRandomForest(samples, model)[i] <= hi
    {
      var p := TreePredictions(samples[i], model.trees);
      forall j | 0 <= j < |p|
        ensures lo <= p[j] <= hi
      {
        PredictWithin(samples[i], model.trees[j], lo, hi);
      }
      MeanWithin(p, lo, hi);
    }
  }

  // ---------------------------------------------------------------------
  // Building the forest
  // ---------------------------------------------------------------------

  /** `Math.floor(u * n)` for a draw `u` in [0, 1): an index below `n`. */
  function DrawIndex(u: Uniform, n: nat): (r: nat)
    requires 0 < n
    ensures r < n
  {
    var x := u * n as real;
    assert x < n as real;
    x.Floor
  }

  /** The first `m` of the `n` bootstrap indices of tree `t`: draw `i` picks row `floor(random(t, i) * n)`. */
  function Draws(random: (nat, nat) -> Uniform, t: nat, n: nat, m: nat): (r: seq<nat>)
    requires m <= n
    ensures |r| == m && forall i :: 0 <= i < m ==> r[i] == DrawIndex(random(t, i), n) < n
  {
    if m == 0 then [] else Draws(random, t, n, m - 1) + [DrawIndex(random(t, m - 1), n)]
  }

  /** The `n` bootstrap indices of tree `t`, drawn with replacement. */
  function Bootstrap(random: (nat, nat) -> Uniform, t: nat, n: nat): (r: seq<nat>)
    ensures |r| == n && forall i :: 0 <= i < n ==> r[i] < n
  {
    Draws(random, t, n, n)
  }

  /** The default depth limit of `buildTree`. */
  const DefaultMaxDepth: int := 10

  /** The tree grown on the bootstrap sample of tree `t`. */
  function BootstrapTree(features: seq<seq<real>>, targets: seq<real>, random: (nat, nat) -> Uniform, t: nat): (r: Tree)
    requires Aligned(features, targets)
    ensures Depth(r) <= DefaultMaxDepth as nat
    ensures |targets| > 0 ==> LeavesWithin(r, Min(targets), Max(targets))
  {
    var idx := Bootstrap(random, t, |features|);
    PickAligned(features, targets, idx);
    var tree := BuildTree(Pick(features, idx), Pick(targets, idx), DefaultMaxDepth, 0);
    BuildTreeDepth(Pick(features, idx), Pick(targets, idx), DefaultMaxDepth, 0);
    if |targets| == 0 then tree
    else
      PickWithinExtremes(targets, idx);
      tree
  }

  /**
   * `buildRandomForest`: `numTrees` trees (none for a non-positive count),
   * each grown on `n` rows drawn with replacement. The source reads the
   * feature names off `features[0]`, so the rows must not be empty.
   */
  function BuildRandomForest(features: seq<seq<real>>, targets: seq<real>, numTrees: int, random: (nat, nat) -> Uniform)
    : (r: RandomForestModel)
    requires Aligned(features, targets) && |features| > 0
    ensures |r.trees| == if numTrees < 0 then 0 else numTrees
    ensures forall t :: 0 <= t < |r.trees| ==>
      r.trees[t] == BuildTree(Pick(features, Bootstrap(random, t, |features|)), Pick(targets, Bootstrap(random, t, |features|)), DefaultMaxDepth, 0)
    ensures forall t :: 0 <= t < |r.trees| ==> Depth(r.trees[t]) <= DefaultMaxDepth as nat
    ensures forall t :: 0 <= t < |r.trees| ==> LeavesWithin(r.trees[t], Min(targets), Max(targets))
    ensures |r.featureNames| == |features[0]| && forall k :: 0 <= k < |r.featureNames| ==> r.featureNames[k] == k
  {
    var count := if numTrees < 0 then 0 else numTrees;
    var trees := seq(count, t requires 0 <= t < count => BootstrapTree(features, targets, random, t));
    RandomForestModel(trees, seq(|features[0]|, k => k))
  }

  /** A forest's predictions stay within the range of the targets it was trained on. */
  lemma ForestPredictionsWithinTargets(
    features: seq<seq<real>>, targets: seq<real>, numTrees: int, random: (nat, nat) -> Uniform, samples: seq<seq<real>>)
    requires Aligned(features, targets) && |features| > 0 && 0 < numTrees
    ensures forall i :: 0 <= i < |samples| ==>
      Min(targets) <= PredictRandomForest(samples, BuildRandomForest(features, targets, numTrees, random))[i] <= Max(targets)
  {
    ForestWithin(samples, BuildRandomForest(features, targets, numTrees, random), Min(targets), Max(targets));
  }
}
