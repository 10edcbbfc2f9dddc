# Weather-to-load analytics core, modelled in Dafny

This project models the numerical core of a weather and electricity-load
analytics library. It covers three groups of code:

- **Analysis** (`lib/analysis`):
  - degree days, Pearson correlation and thermal elasticity;
  - the error metrics RMSE, MAPE and R-squared;
  - min-max and z-score normalisation;
  - the feature builder: thermal momentum, anomaly flags, calendar flags,
    cyclical encoding, column normalisation and feature-importance ranking;
  - the heating/cooling regime analysis and its base-temperature search.
- **Models** (`lib/models`):
  - the random-forest regressor: tree growing by variance reduction,
    bootstrap sampling and prediction;
  - additive seasonal decomposition;
  - multi-step forecasting with prediction intervals and its accuracy
    metrics;
  - the training pipeline: chronological split, k-fold cross-validation,
    grid search over the forest size, and model persistence.
- **Shared modules**: `Series` (sums, means, variances, extremes) and
  `Regression` (correlation sums and least-squares slopes). They hold the
  arithmetic the source repeats in several files.

## Conventions

- **Numbers.** JavaScript numbers are idealised as `real`.
- **Injected functions.** `Math.sqrt` is a parameter `sqrt` constrained by
  `Series.IsSqrt`. `Math.sin` and `Math.cos` are parameters; only their period
  of two pi (`FeatureEngineering.Periodic`) is assumed.
- **Randomness.** `Math.random()` is an injected draw in [0, 1):
  - bootstrap draw `i` of tree `t` is `random(t, i)`;
  - the forecast's temperature step `s` is `walk(s)`.
- **Clock.** `Date.now()` in the forecast loop is an injected clock: its
  reading in step `s` is `clock(s)`.
- **Means.** A mean is stated without division through `Series.IsMean`:
  `m` is the mean of a non-empty `s` when `|s| · m` equals the sum of `s`.
- **Rows.** A feature record is a row of reals indexed by key position: the
  16 fields of a feature vector in declaration order, and
  `Object.keys(features[0])` for the random forest.
- **Non-finite results.** Where the source produces `NaN` or an infinity, the
  model returns `None` or `NegInf`, or a precondition excludes the input (see
  "Left out").

One behaviour of the source is worth knowing. When `buildTree` scores a split,
the right-hand side's targets are computed with
`.map(... ? 0 : target).filter((v) => v)`. This drops every right-hand target
that is exactly 0. The model keeps that behaviour (`RandomForest.Evaluate`),
and `RandomForest.ZeroRightTargetsSkipped` states its consequence.

## Model

| member | source | states |
|---|---|---|
| Statistics.Rmse | lib/analysis/statistics.ts:13-21 | 0 on mismatched or empty input; otherwise a non-negative value whose square, times the length, is the sum of squared errors |
| Statistics.RmseZero | lib/analysis/statistics.ts:13-21 | on aligned non-empty input the RMSE is 0 exactly when the prediction equals the actual series |
| Statistics.PercentErrorSum | lib/analysis/statistics.ts:29-32 | the sum of the absolute relative errors, skipping zero actual values, is never negative; its partners below give the skip, the exact case and the left-to-right order |
| Statistics.PercentErrorSumNonNegative | lib/analysis/statistics.ts:29-32 | the accumulated absolute relative error is never negative |
| Statistics.PercentErrorSumExact | lib/analysis/statistics.ts:29-32 | terms with a zero actual value are skipped, so a prediction exact at every non-zero actual value has error sum 0 |
| Statistics.PercentErrorSumSnoc | lib/analysis/statistics.ts:29-32 | the reduction runs left to right: appending a pair adds its relative error, or nothing when its actual value is 0 |
| Statistics.Mape | lib/analysis/statistics.ts:26-35 | 0 on mismatched or empty input; otherwise non-negative, and times the length it is 100 times the error sum |
| Statistics.MapeZeroActualDilutes | lib/analysis/statistics.ts:26-35 | a zero actual value adds no error but still counts in the divisor: appending one scales MAPE by n/(n+1) |
| Statistics.MapeExact | lib/analysis/statistics.ts:26-35 | a perfect prediction has MAPE 0 |
| Statistics.RSquared | lib/analysis/statistics.ts:40-48 | 0 on mismatched or empty input; otherwise (1 - r) times the total sum of squares is the residual sum of squares, and r never exceeds 1 |
| Statistics.RSquaredDefinedIff | lib/analysis/statistics.ts:40-48 | the unguarded division is defined exactly when the actual series is not constant |
| Statistics.RSquaredOne | lib/analysis/statistics.ts:40-48 | R-squared is 1 exactly when the prediction equals the actual series |
| Statistics.MinMaxNormalize | lib/analysis/statistics.ts:53-63 | same length, every value in [0, 1]; a constant series maps to zeros; otherwise unscaling each result by the minimum and range gives back the input |
| Statistics.Scale | lib/analysis/statistics.ts:62 | a value in [lo, lo + range] scales into [0, 1] and unscales back to itself |
| Statistics.ScaleAll | lib/analysis/statistics.ts:62 | every value scales into [0, 1] and unscales back to itself |
| Statistics.MinMaxNormalizeMonotone | lib/analysis/statistics.ts:53-63 | on a non-constant series the scaling keeps the order of any two values, in both directions |
| Statistics.MinMaxNormalizeEnds | lib/analysis/statistics.ts:53-63 | the minimum maps to 0 and the maximum to 1 |
| Statistics.NormalizedSpan | lib/analysis/statistics.ts:53-63 | a non-constant series normalises onto a series whose extremes are exactly 0 and 1 |
| Statistics.UnitSpanFixed | lib/analysis/statistics.ts:53-63 | a series whose extremes are 0 and 1 is its own normalisation |
| Statistics.MinMaxNormalizeIdempotent | lib/analysis/statistics.ts:53-63 | normalising twice is normalising once |
| Statistics.ZScoreStandardize | lib/analysis/statistics.ts:68-78 | same length; a constant series maps to zeros; otherwise the standard deviation is positive and every input is the mean plus its z-score times the deviation |
| Statistics.Standardized | lib/analysis/statistics.ts:77 | each value is recovered as the centre plus its result times the divisor |
| Statistics.StandardizedSum | lib/analysis/statistics.ts:77 | the standardised values sum to the centred sum divided by the divisor |
| Statistics.ZScoreSumZero | lib/analysis/statistics.ts:68-78 | z-scores are centred: they sum to 0 |
| DegreeDays.DegreeDays | lib/analysis/degree-days.ts:19-31 | both values non-negative, at most one positive, and heating minus cooling is the base minus the day's mean temperature |
| DegreeDays.DegreeDaysUnique | lib/analysis/degree-days.ts:19-31 | those three properties determine the result |
| DegreeDays.DegreeDaysSymmetric | lib/analysis/degree-days.ts:20 | only the mean of the extremes matters, so their order does not |
| DegreeDays.DegreeDaysExample | lib/analysis/degree-days.ts:19-31 | extremes 10 and 6 against base 18.3 give 10.3 heating and 0 cooling degree days |
| DegreeDays.Correlation | lib/analysis/degree-days.ts:36-59 | a value in [-1, 1]; 0 on mismatched or empty input and when the root of the squared-deviation product is 0; otherwise Pearson's r, the value whose product with that root is the co-deviation |
| DegreeDays.CorrelationSelf | lib/analysis/degree-days.ts:36-59 | a series that is not constant correlates with itself at exactly 1 |
| DegreeDays.CorrelationOfLine | lib/analysis/degree-days.ts:36-59 | loads on a line a·t + b through non-constant temperatures correlate at 1 when a > 0 and at -1 when a < 0 |
| DegreeDays.CorrelationExample | lib/analysis/degree-days.ts:36-59 | temperatures 1, 2, 3 against loads 2, 4, 6 correlate at exactly 1 |
| DegreeDays.CorrelationConstant | lib/analysis/degree-days.ts:57-58 | when either series is constant the zero-denominator guard returns 0 |
| DegreeDays.CorrelationSymmetric | lib/analysis/degree-days.ts:36-59 | swapping the two series leaves the correlation unchanged |
| DegreeDays.ThermalElasticity | lib/analysis/degree-days.ts:64-81 | 0 below two points; from two points on the result solves the least-squares normal equation (slope times n·Σx²−(Σx)² equals n·Σxy−Σx·Σy) |
| DegreeDays.ElasticityDefinedIff | lib/analysis/degree-days.ts:78 | from two points on, the unguarded slope is defined exactly when the temperatures are not all equal |
| DegreeDays.ElasticityOfLinearLoads | lib/analysis/degree-days.ts:64-81 | loads exactly linear in temperature have that line's slope as elasticity |
| Regression.Sums | lib/analysis/degree-days.ts:41-55 | the squared-deviation sums are non-negative and the squared co-deviation never exceeds their product (Cauchy-Schwarz) |
| Regression.SumsAligned | lib/analysis/degree-days.ts:41-55 | on aligned series the loop sums are the squared deviations of each series from its mean |
| Regression.SumsSymmetric | lib/analysis/degree-days.ts:41-55 | swapping the series swaps the two squared-deviation sums and keeps the co-deviation |
| Regression.SumsConstant | lib/analysis/degree-days.ts:41-57 | a constant series makes the denominator's product 0 |
| Regression.Ratio | lib/analysis/degree-days.ts:57-58 | the correlation quotient lies in [-1, 1], and times the root of the product it gives back the co-deviation |
| Regression.SumsSelf | lib/analysis/degree-days.ts:41-55 | a non-constant series paired with itself has equal, positive co-deviation and squared deviations |
| Regression.SumsAffine | lib/analysis/degree-days.ts:41-55 | pairing a series with a line of slope a scales the co-deviation by a and the second squared deviation by a² |
| Regression.SumsOfLine | lib/analysis/degree-days.ts:41-55 | against a line of slope a, the sums over the series are those of its deviations from the mean paired with a times those deviations |
| Regression.RatioSelf | lib/analysis/degree-days.ts:57-58 | a positive squared deviation over the root of its own square gives 1 |
| Regression.RatioOfLine | lib/analysis/degree-days.ts:57-58 | the sums of a line of slope a give the ratio 1 for a > 0 and -1 for a < 0 |
| Regression.LeastSquaresDenominatorZero | lib/analysis/degree-days.ts:78 | the least-squares denominator vanishes exactly when all values are equal |
| Regression.SlopeFromSumsSolves | lib/analysis/degree-days.ts:78 | the slope solves the normal equation |
| Regression.SlopeOfLine | lib/analysis/degree-days.ts:78 | the sums of points on a line give back that line's slope |
| FeatureEngineering.Window | lib/analysis/feature-engineering.ts:29-30 | the trailing window is non-empty when the window size is at least 1 |
| FeatureEngineering.MomentumAt | lib/analysis/feature-engineering.ts:31 | the value times the window's length is the window's sum (the mean), and it lies between the window's extremes |
| FeatureEngineering.ThermalMomentum | lib/analysis/feature-engineering.ts:25-36 | one value per reading, each the mean of its trailing window `[max(0, i-w+1), i]` and so between that window's extremes |
| FeatureEngineering.MomentumCausal | lib/analysis/feature-engineering.ts:25-36 | the momentum at a reading does not depend on later readings |
| FeatureEngineering.MomentumUnitWindow | lib/analysis/feature-engineering.ts:25-36 | a window of one reproduces the series |
| FeatureEngineering.DetectAnomalies | lib/analysis/feature-engineering.ts:182-197 | one flag per reading; the first reading is never flagged; a non-positive window flags nothing |
| FeatureEngineering.FirstReadingQuiet | lib/analysis/feature-engineering.ts:186-192 | a window holding only the reading has zero deviation and zero spread, so it is not an anomaly |
| FeatureEngineering.AnomalySquared | lib/analysis/feature-engineering.ts:188-192 | for a non-negative threshold a reading is flagged exactly when its squared deviation exceeds threshold squared times the window variance |
| FeatureEngineering.Flags | lib/analysis/feature-engineering.ts:63-66 | business and peak hours together are exactly the hours 8 to 18; the one business peak is noon; the peaks outside business hours are 8 and 18; a weekday in 0..6 is a weekend day iff it is divisible by 6 |
| FeatureEngineering.FlagCounts | lib/analysis/feature-engineering.ts:64-66 | 9 of 24 hours are business hours, 3 are peaks, and 2 of 7 days are weekend days |
| FeatureEngineering.Indicator | lib/analysis/feature-engineering.ts:93-95 | a flag is stored as 0 or 1, and as 1 exactly when it holds |
| FeatureEngineering.CyclicalEncode | lib/analysis/feature-engineering.ts:42-48 | value 0 encodes as the angle 0, value `max` as one full turn and half of `max` as half a turn |
| FeatureEngineering.RadiansTurns | lib/analysis/feature-engineering.ts:43 | the angle `2 pi value / max` is 0, one turn and half a turn at 0, `max` and `max / 2` |
| FeatureEngineering.CyclicalWraps | lib/analysis/feature-engineering.ts:42-48 | a value and the value plus the period get the same sine and cosine |
| FeatureEngineering.BuildFeatureVector | lib/analysis/feature-engineering.ts:73-103 | 16 fields: the inputs at their positions, each calendar flag 1 exactly under its condition (business hours 9-17, peaks 8/12/18, weekend Sunday/Saturday), and the temperature, hour and month encoded over 50, 24 and 12 |
| FeatureEngineering.HourEncodingWraps | lib/analysis/feature-engineering.ts:82 | hour 24 encodes like hour 0 |
| FeatureEngineering.ScalerOf | lib/analysis/feature-engineering.ts:161-163 | the range is max minus min; min and max are values of the column and enclose all of it, so they are its `Math.min` and `Math.max` |
| FeatureEngineering.ScalerUnique | lib/analysis/feature-engineering.ts:161-163 | any entry whose bounds are values of the column enclosing every value, with range max minus min, is the column's scaler entry |
| FeatureEngineering.Scalers | lib/analysis/feature-engineering.ts:159-164 | one scaler entry per key, computed from that key's column |
| FeatureEngineering.NormalizedRows | lib/analysis/feature-engineering.ts:166-174 | every entry is the min-max normalisation of its column at that row |
| FeatureEngineering.NormalizeFeatures | lib/analysis/feature-engineering.ts:155-177 | same shape; the scaler is the per-key entry of each column; every normalised entry lies in [0, 1]; zero-range keys map to 0; otherwise unscaling by the key's scaler gives back the input |
| FeatureEngineering.NormalizedColumn | lib/analysis/feature-engineering.ts:166-174 | each normalised column is the min-max normalisation of the original column |
| FeatureEngineering.NormalizeIdempotent | lib/analysis/feature-engineering.ts:155-177 | normalising normalised features changes nothing |
| FeatureEngineering.Correlation | lib/analysis/feature-engineering.ts:132-150 | with a non-zero denominator, Pearson's r: a value in [-1, 1] whose product with the root of the squared-deviation product is the co-deviation |
| FeatureEngineering.CorrelationSelf | lib/analysis/feature-engineering.ts:132-150 | a non-constant column has a non-zero denominator against itself and correlates with itself at 1 |
| FeatureEngineering.RawScores | lib/analysis/feature-engineering.ts:117-124 | one entry per key, in key order; each score is the absolute correlation of that key's column with the targets, in [0, 1] |
| FeatureEngineering.TargetColumnScoresOne | lib/analysis/feature-engineering.ts:117-124 | a key whose column reproduces the targets scores exactly 1 |
| FeatureEngineering.Insert | lib/analysis/feature-engineering.ts:126 | inserting into a ranked list adds exactly that entry and keeps the list ranked |
| FeatureEngineering.SortByScore | lib/analysis/feature-engineering.ts:126 | a permutation of the input, ranked by descending score with ties in key order (the result of the stable sort) |
| FeatureEngineering.ScoreFeatureImportance | lib/analysis/feature-engineering.ts:113-127 | a permutation of the per-key absolute correlations, ranked by descending score with ties in key order |
| FeatureEngineering.ImportanceRanking | lib/analysis/feature-engineering.ts:113-127 | every key appears, all scores lie in [0, 1], and scores never increase along the list |
| RegimeAnalysis.ModelLoad | lib/analysis/regime-analysis.ts:27-33 | below the base the load is under 3000; from the base on it is at least 2000 |
| RegimeAnalysis.ModelLoadRates | lib/analysis/regime-analysis.ts:27-33 | the model falls by 100 per degree below the base, rises by 120 per degree from it, and is 2000 at the base |
| RegimeAnalysis.Predicted | lib/analysis/regime-analysis.ts:27-33 | the model load at every temperature |
| RegimeAnalysis.LocalRSquared | lib/analysis/regime-analysis.ts:137-143 | (1 - r) times the total sum of squares is the residual sum of squares over the actual series' positions, and r is at most 1 |
| RegimeAnalysis.LocalRSquaredAgrees | lib/analysis/regime-analysis.ts:137-143 | on aligned series it equals the guarded R-squared of the statistics module |
| RegimeAnalysis.GridCountIff | lib/analysis/regime-analysis.ts:26 | candidate k is visited exactly when min + k * step does not exceed max |
| RegimeAnalysis.OptimizeBaseTemperature | lib/analysis/regime-analysis.ts:16-44 | an empty range returns min with negative infinity; otherwise a visited candidate of maximal fit, preceded by no candidate of equal fit |
| RegimeAnalysis.Slope | lib/analysis/regime-analysis.ts:87-107 | 0 on empty input or a zero denominator; otherwise the result solves the least-squares normal equation over the paired points |
| RegimeAnalysis.SlopeOfLinear | lib/analysis/regime-analysis.ts:87-107 | points on a line over non-constant x have that line's slope |
| RegimeAnalysis.SlopeIsElasticity | lib/analysis/regime-analysis.ts:87-107 | on aligned series of two or more points the slope equals the degree-day thermal elasticity |
| RegimeAnalysis.Correlation | lib/analysis/regime-analysis.ts:112-132 | 0 on empty input; otherwise Pearson's r, a value in [-1, 1] whose product with the root of the squared-deviation product is the co-deviation |
| RegimeAnalysis.CorrelationDefinedIff | lib/analysis/regime-analysis.ts:112-132 | on aligned series the unguarded division is defined exactly when neither series is constant |
| RegimeAnalysis.CorrelationAgrees | lib/analysis/regime-analysis.ts:112-132 | where defined, it equals the guarded correlation of the degree-days module |
| RegimeAnalysis.SplitPrefix | lib/analysis/regime-analysis.ts:55-63 | temperatures stay paired with their loads; heating temperatures are below the base and cooling ones above |
| RegimeAnalysis.HeatingIsFilter | lib/analysis/regime-analysis.ts:55-63 | the heating regime is exactly the positions below the base, in order, with their loads |
| RegimeAnalysis.CoolingIsFilter | lib/analysis/regime-analysis.ts:55-63 | the cooling regime is exactly the positions above the base, in order, with their loads |
| RegimeAnalysis.SplitSides | lib/analysis/regime-analysis.ts:55-63 | a position is heating iff below the base, cooling iff above, and in neither at the base |
| RegimeAnalysis.MinimumLoadIndices | lib/analysis/regime-analysis.ts:78-79 | exactly the positions whose load equals the minimum load |
| RegimeAnalysis.ComfortZoneOf | lib/analysis/regime-analysis.ts:77-80 | none exactly when no position has the minimum load; otherwise min and max are temperatures at minimum-load positions that bound all such temperatures |
| RegimeAnalysis.ComfortZoneExists | lib/analysis/regime-analysis.ts:77-80 | aligned non-empty series always have a comfort zone |
| RegimeAnalysis.AnalyzeRegimes | lib/analysis/regime-analysis.ts:49-82 | the base is echoed; each regime's correlation and slope are those of the heating (below the base) or cooling (above it) points of the split, so a correlation lies in [-1, 1] and an empty regime gets 0 for both; the comfort zone is that of the whole series |
| Selection.Where | lib/models/random-forest-predictor.ts:47 | exactly the indices that satisfy the condition, ascending |
| Selection.Pick | lib/models/random-forest-predictor.ts:49 | the elements at the given indices, in index order |
| Selection.WhereSizes | lib/models/random-forest-predictor.ts:79-84 | a condition and its complement select all indices between them |
| Selection.WhereAll | lib/models/random-forest-predictor.ts:47 | a condition that always holds keeps every index in order |
| RandomForest.GoesLeft | lib/models/random-forest-predictor.ts:47 | only existing rows go left, and a row without the feature never does, because an undefined value is not `<=` the threshold |
| RandomForest.LeftIndices | lib/models/random-forest-predictor.ts:47 | exactly the rows that go left, in ascending order |
| RandomForest.RightIndices | lib/models/random-forest-predictor.ts:84 | exactly the rows not among the left indices, in ascending order, as the source's `!leftIndices.includes(idx)` |
| RandomForest.PartitionExact | lib/models/random-forest-predictor.ts:79-84 | a row goes left iff its value does not exceed the threshold, right iff it exceeds it |
| RandomForest.PartitionSizes | lib/models/random-forest-predictor.ts:79-87 | the two sides together hold every row once |
| RandomForest.Evaluate | lib/models/random-forest-predictor.ts:47-62 | a candidate is scored exactly when its left targets and its zero-filtered right targets are both non-empty, and then its score is the variance reduction `Gain` of those two sides |
| RandomForest.Gain | lib/models/random-forest-predictor.ts:54-62 | the number of targets times the variance left after the gain is the size-weighted sum of the two sides' variances |
| RandomForest.GainNonNegative | lib/models/random-forest-predictor.ts:47-62 | a candidate with rows on the left and non-zero targets on the right is scored, and its gain is non-negative (law of total variance), even with zero targets dropped from the right side |
| RandomForest.GainOfDisjointSides | lib/models/random-forest-predictor.ts:54-62 | two sides whose squared deviations from the overall mean fit within the overall ones leave a non-negative gain |
| RandomForest.PureSplitGain | lib/models/random-forest-predictor.ts:54-62 | a scored split leaving each side constant gains the whole variance of the targets |
| RandomForest.DisjointPicksDeviation | lib/models/random-forest-predictor.ts:49-51 | the squared deviations of two disjoint index selections add up to at most those of the whole series |
| Series.SumSqDevShift | lib/models/random-forest-predictor.ts:54-57 | moving the centre from the mean to c adds n·(c − mean)² to the squared deviations, so the mean is the centre of least squared deviation |
| Series.VarianceLeast | lib/models/random-forest-predictor.ts:54-57 | the length times the variance is at most the squared deviations from any centre |
| RandomForest.RightGainTargets | lib/models/random-forest-predictor.ts:50 | the right-hand targets the gain sees hold no 0, hold every non-zero target of a right row, and are no more than the right rows |
| RandomForest.ZeroRightTargetsSkipped | lib/models/random-forest-predictor.ts:50-52 | a split whose right-hand rows all have target 0 is never scored, although its right side is not empty |
| RandomForest.InsertDistinct | lib/models/random-forest-predictor.ts:42 | inserting into a strictly increasing list keeps it strictly increasing, with exactly one more distinct value |
| RandomForest.SortedDistinct | lib/models/random-forest-predictor.ts:42 | strictly increasing and holding exactly the input's values |
| RandomForest.Midpoints | lib/models/random-forest-predictor.ts:44-45 | one fewer value than the sorted input, each the midpoint of its two neighbours and so strictly between them |
| RandomForest.FeatureValues | lib/models/random-forest-predictor.ts:41 | the feature's value in every row |
| RandomForest.FeatureCandidates | lib/models/random-forest-predictor.ts:40-45 | every candidate of one feature splits on that feature |
| RandomForest.Candidates | lib/models/random-forest-predictor.ts:40-45 | every candidate splits on one of the scanned keys |
| RandomForest.CandidateSidesNonEmpty | lib/models/random-forest-predictor.ts:40-52 | every candidate threshold leaves a row on each side of its partition |
| RandomForest.CandidatesBothSides | lib/models/random-forest-predictor.ts:40-52 | every candidate of the scan over the first keys leaves a row on each side |
| RandomForest.FirstBest | lib/models/random-forest-predictor.ts:66-70 | the position of the first candidate of greatest positive gain: no gain exceeds it and every earlier gain is strictly smaller |
| RandomForest.Gains | lib/models/random-forest-predictor.ts:40-71 | the score of every candidate, in scan order |
| RandomForest.MeanLeaf | lib/models/random-forest-predictor.ts:75 | a leaf at the mean, which lies within the targets' extremes |
| RandomForest.BuildTree | lib/models/random-forest-predictor.ts:20-95 | a leaf of 0 for no targets and of the mean at the depth limit; every leaf value lies within the targets' extremes |
| RandomForest.SplitChildren | lib/models/random-forest-predictor.ts:78-87 | both sides of a scored candidate are smaller, non-empty, aligned training sets whose targets stay within the parent's extremes |
| RandomForest.BuildTreeDecision | lib/models/random-forest-predictor.ts:66-94 | below the depth limit and with targets not all equal: no candidate of positive gain gives a leaf at the mean, and otherwise the tree is a node on the first candidate of greatest gain |
| RandomForest.BuildTreeConstant | lib/models/random-forest-predictor.ts:29-31 | all-equal targets give one leaf with their value |
| RandomForest.BuildTreeSplits | lib/models/random-forest-predictor.ts:66-94 | a node is built only below the depth limit, on the first candidate of greatest positive gain |
| RandomForest.BuildTreeChildren | lib/models/random-forest-predictor.ts:79-94 | a node's subtrees are the trees grown one level deeper on the rows at or below its threshold (left) and the remaining rows (right), each a strictly smaller aligned training set |
| RandomForest.BuildTreeDepth | lib/models/random-forest-predictor.ts:20-95 | a tree grown from depth d has at most maxDepth - d levels |
| RandomForest.PredictTree | lib/models/random-forest-predictor.ts:100-113 | the prediction is one of the tree's leaf values |
| RandomForest.PredictNode | lib/models/random-forest-predictor.ts:104-112 | at a node a row descends left when its value at the node's feature is at most the threshold, and right otherwise (a missing feature goes right); where the subtrees disagree the prediction is the left one's exactly then |
| RandomForest.TrainingRowDescends | lib/models/random-forest-predictor.ts:83-112 | a training row, predicted by a node grown on it, descends to the subtree of the side the split sent it to in training, and that side's rows include it |
| RandomForest.PredictWithin | lib/models/random-forest-predictor.ts:100-113 | a prediction lies within any bounds of the tree's leaves |
| RandomForest.TreePredictions | lib/models/random-forest-predictor.ts:149 | each tree's prediction for the row, in tree order |
| RandomForest.ForestMean | lib/models/random-forest-predictor.ts:150 | the value times the number of trees is the sum of the tree predictions, and it lies between the least and greatest of them |
| RandomForest.PredictRandomForest | lib/models/random-forest-predictor.ts:147-152 | one prediction per sample: the mean of the trees' predictions for it, between the least and greatest of them |
| RandomForest.ForestWithin | lib/models/random-forest-predictor.ts:147-152 | if every tree's leaves lie in [lo, hi], so does every forest prediction |
| RandomForest.DrawIndex | lib/models/random-forest-predictor.ts:129 | `floor(u * n)` of a draw in [0, 1) is an index below n |
| RandomForest.Draws | lib/models/random-forest-predictor.ts:127-130 | draw i of tree t is `floor(random(t, i) * n)`, an index below n |
| RandomForest.Bootstrap | lib/models/random-forest-predictor.ts:127-130 | n indices, all below n |
| RandomForest.BootstrapTree | lib/models/random-forest-predictor.ts:132-135 | the tree grown on the bootstrap sample respects the default depth limit and keeps its leaves within the targets' extremes |
| RandomForest.BuildRandomForest | lib/models/random-forest-predictor.ts:118-142 | max(numTrees, 0) trees, tree t grown on bootstrap sample t at depth limit 10, each within the depth limit and the targets' extremes; the feature names are the keys of the first row |
| RandomForest.ForestPredictionsWithinTargets | lib/models/random-forest-predictor.ts:118-152 | a forest's predictions stay within the range of the targets it was trained on |
| SeasonalAdjustment.WindowStart | lib/models/seasonal-adjustment.ts:17 | the window never starts after its position |
| SeasonalAdjustment.WindowEnd | lib/models/seasonal-adjustment.ts:18 | the window ends after its position and within the series |
| SeasonalAdjustment.WindowFull | lib/models/seasonal-adjustment.ts:17-18 | away from the ends the window holds exactly w values |
| SeasonalAdjustment.WindowMean | lib/models/seasonal-adjustment.ts:19-20 | the window is non-empty; the value times its length is its sum, and lies between its extremes |
| SeasonalAdjustment.MovingAverage | lib/models/seasonal-adjustment.ts:13-24 | one value per position: the mean of `data[max(0, i - floor(w/2)) .. min(n, i + ceil(w/2))]` |
| SeasonalAdjustment.MovingAverageWithin | lib/models/seasonal-adjustment.ts:13-24 | smoothing a series within [lo, hi] stays within [lo, hi] |
| SeasonalAdjustment.MovingAverageConstant | lib/models/seasonal-adjustment.ts:13-24 | a constant series is its own moving average |
| SeasonalAdjustment.PhaseCount | lib/models/seasonal-adjustment.ts:40-43 | a phase has positions exactly when it starts inside the series |
| SeasonalAdjustment.Phase | lib/models/seasonal-adjustment.ts:37-47 | the phase of a position is below the period and not after the position |
| SeasonalAdjustment.PhaseApart | lib/models/seasonal-adjustment.ts:45-47 | positions less than a period apart lie in different phases, so each write loop touches only its own phase |
| SeasonalAdjustment.PhasesRepeat | lib/models/seasonal-adjustment.ts:37-47 | positions a period apart lie in the same phase |
| SeasonalAdjustment.SeasonalOf | lib/models/seasonal-adjustment.ts:35-48 | each position holds the mean of its phase, so the component repeats with the period |
| SeasonalAdjustment.PhaseSumShift | lib/models/seasonal-adjustment.ts:51 | subtracting a constant throughout a phase lowers its sum by the count times that constant |
| SeasonalAdjustment.PhaseCentred | lib/models/seasonal-adjustment.ts:44-51 | each phase's residuals sum to 0 |
| SeasonalAdjustment.Detrended | lib/models/seasonal-adjustment.ts:34 | detrended value plus trend gives back the data |
| SeasonalAdjustment.SeasonalDecompose | lib/models/seasonal-adjustment.ts:29-54 | trend, seasonal and residual add up to the original at every position; the trend is the moving average over one period; the seasonal part averages the detrended series per phase; each phase's residuals sum to 0 |
| SeasonalAdjustment.SeasonalComponent | lib/models/seasonal-adjustment.ts:35-48 | the two stride loops per phase compute the per-phase means of the detrended series |
| SeasonalAdjustment.SeasonallyAdjust | lib/models/seasonal-adjustment.ts:59-61 | one value per trend entry |
| SeasonalAdjustment.AdjustRemovesSeason | lib/models/seasonal-adjustment.ts:59-61 | adjusting an additive decomposition removes exactly its seasonal component |
| ForecastEngine.Spread | lib/models/forecast-engine.ts:22-23 | a non-negative value whose square is the variance of the trees' predictions |
| ForecastEngine.Entry | lib/models/forecast-engine.ts:27-33 | the interval is centred on the prediction with half-width 1.96 deviations; confidence is undefined exactly at a zero mean, and otherwise its shortfall from 1 times the mean is the deviation |
| ForecastEngine.ForecastAt | lib/models/forecast-engine.ts:19-33 | the prediction is the trees' mean; the interval's half-width is 1.96 times the trees' standard deviation; confidence is undefined exactly when the prediction is 0, and otherwise (1 - confidence) times the prediction is the standard deviation |
| ForecastEngine.FullConfidence | lib/models/forecast-engine.ts:22-29 | for a non-zero prediction the confidence is 1 exactly when all trees predict the same value |
| ForecastEngine.ForecastSpread | lib/models/forecast-engine.ts:22-32 | the squared half-width is 1.96 squared times the variance of the trees' predictions |
| ForecastEngine.IntervalCollapses | lib/models/forecast-engine.ts:22-32 | the interval is a point exactly when all trees predict the same value |
| ForecastEngine.Perturb | lib/models/forecast-engine.ts:37 | each random-walk step lies in [-0.25, 0.25) |
| ForecastEngine.WithTemperature | lib/models/forecast-engine.ts:36-37 | the copied row keeps its width, its temperature moves by exactly `d`, and every other entry is unchanged |
| ForecastEngine.Drift | lib/models/forecast-engine.ts:37 | after s steps the total drift lies in [-0.25 s, 0.25 s] |
| ForecastEngine.Row | lib/models/forecast-engine.ts:36-38 | after s steps only the temperature has moved, by exactly the accumulated drift, which is at most 0.25 s |
| ForecastEngine.RowStep | lib/models/forecast-engine.ts:36-38 | each step moves the newest row's temperature by the next draw |
| ForecastEngine.Rollout | lib/models/forecast-engine.ts:18-39 | n entries; entry s forecasts from the row rolled forward s times, stamped s hours after the clock's reading in step s |
| ForecastEngine.Roll | lib/models/forecast-engine.ts:18-39 | the loop computes the rollout of the requested number of steps |
| ForecastEngine.MakeForecast | lib/models/forecast-engine.ts:14-42 | no entries for a non-positive step count; otherwise one entry per step, entry s forecasting from the last row rolled forward s times, s hours after the clock's reading in step s |
| ForecastEngine.Stamp | lib/models/forecast-engine.ts:25 | step s is stamped 3600000 s milliseconds after the clock's reading, never before it, and step 0 at the reading itself |
| ForecastEngine.StampSpacing | lib/models/forecast-engine.ts:25 | consecutive stamps lie at least an hour apart while the clock does not run backwards, and exactly an hour apart iff the clock reads the same in both steps |
| ForecastEngine.Covered | lib/models/forecast-engine.ts:82-84 | exactly the positions whose actual value lies inside its interval |
| ForecastEngine.FullCoverage | lib/models/forecast-engine.ts:82-84 | the covered positions number all positions exactly when every value is covered |
| ForecastEngine.CoverageProbability | lib/models/forecast-engine.ts:90 | the share of covered values: in [0, 1], and 1 exactly when every value is covered |
| ForecastEngine.Accumulate | lib/models/forecast-engine.ts:78-85 | the loop's totals are the squared-error sum, the relative-error sum (finite exactly when no actual value is 0) and the number of covered positions |
| ForecastEngine.AccumulateStep | lib/models/forecast-engine.ts:79-84 | how each running total changes when one position is added |
| ForecastEngine.EvaluateForecastAccuracy | lib/models/forecast-engine.ts:65-92 | no result for no actual values; otherwise RMSE as in the statistics module, MAPE present exactly when no actual value is 0 and then equal to the statistics MAPE, and PICP the coverage share |
| Training.Resolve | lib/models/training.ts:40-43 | a slice index counts from the end when negative and is clamped to [0, n] |
| Training.Slice | lib/models/training.ts:40-43 | no longer than the sequence; the plain subsequence for in-range bounds; otherwise the elements from the resolved start on, in order |
| Training.SliceSplit | lib/models/training.ts:40-43 | slicing before and from the same index reassembles the sequence, and in range these are the plain prefix and suffix |
| Training.SplitIndex | lib/models/training.ts:37 | for a ratio in [0, 1] the split index lies in [0, n] |
| Training.DefaultSplitOfTen | lib/models/training.ts:30-37 | with the default share 0.7, ten rows train on the first seven and test on the last three |
| Training.ChronologicalSplit | lib/models/training.ts:27-45 | training followed by test rows gives back the rows, and likewise the targets; aligned input gives aligned halves; the training half has the split index's length |
| Training.ChronologicalSplitPrefix | lib/models/training.ts:27-45 | the training rows are exactly the first rows and the test rows the rest, with no shuffling |
| Training.Assess | lib/models/training.ts:70-72 | the three metrics are the RMSE, MAPE and R-squared of the predictions against the test targets; 0 on an empty test set |
| Training.AssessPerfect | lib/models/training.ts:70-72 | on a non-empty test set RMSE is 0 and R-squared is 1 exactly when every prediction is right, and a perfect prediction scores (0, 0, 1) |
| Training.TrainModel | lib/models/training.ts:50-81 | the forest is grown on the first 80% of rows only, one tree per requested tree, and scored on the remaining rows |
| Training.TrainModelPredictionsWithinTraining | lib/models/training.ts:54-67 | the test predictions stay within the range of the training targets |
| Training.FoldSize | lib/models/training.ts:91 | k folds of the fold size fit in the rows |
| Training.TestStart | lib/models/training.ts:97 | fold f's test rows start f fold sizes in, and fold 0's at row 0 |
| Training.TestEnd | lib/models/training.ts:98 | a fold's test rows end where the next fold's start, and the last fold's at the last row |
| Training.FoldsContiguous | lib/models/training.ts:96-98 | each test range lies within the rows; the first starts at 0, the last ends at n, and each ends where the next starts |
| Training.FoldOf | lib/models/training.ts:96-98 | every row has a fold below k |
| Training.FoldMembership | lib/models/training.ts:96-103 | a row lies in fold f's test range exactly when f is its fold, so the test ranges partition the rows |
| Training.FoldSplit | lib/models/training.ts:97-103 | fold f tests on its range and trains on the rows before and after it |
| Training.FoldSides | lib/models/training.ts:96-103 | with 2 <= k <= n every fold has test rows and training rows |
| Training.FoldTrainable | lib/models/training.ts:100-105 | every fold trains on aligned, non-empty rows and tests on a non-empty, scorable range |
| Training.FoldScore | lib/models/training.ts:105-114 | a fold's metrics are those of a forest grown on the fold's training rows and scored on its test rows, within the metrics' bounds |
| Training.FoldScores | lib/models/training.ts:96-115 | the metrics of every fold, in fold order |
| Training.Totals | lib/models/training.ts:92-115 | the running totals are each metric summed over the folds |
| Training.AveragesBounded | lib/models/training.ts:117-121 | averaging keeps RMSE and MAPE non-negative and R-squared at most 1 |
| Training.Averages | lib/models/training.ts:117-121 | the totals divided by k are the fold means |
| Training.CvRSquared | lib/models/training.ts:86-122 | the cross-validated R-squared is at most 1 |
| Training.KFoldCrossValidation | lib/models/training.ts:86-122 | the three averages are the means over the folds of each fold's metrics, within the metrics' bounds |
| Training.OptionScores | lib/models/training.ts:166-167 | each option's 3-fold cross-validated R-squared, at most 1 |
| Training.DefaultOptionScores | lib/models/training.ts:161-167 | the default sizes 5, 10, 20 and 50 are valid options and are scored in that order |
| Training.FirstBestScore | lib/models/training.ts:163-172 | an empty list gives no option with negative infinity; otherwise the first position of maximal score |
| Training.GridSearchHyperparameters | lib/models/training.ts:159-175 | an empty list gives no option with negative infinity; otherwise the option of greatest cross-validated R-squared, the earliest on ties, with its score |
| Persistence.EncodeTree | lib/models/training.ts:145-147 | every tree encodes to at least one token |
| Persistence.DecodeTree | lib/models/training.ts:152-154 | a successful read consumes tokens and is the encoding of the tree it returns |
| Persistence.TreeRoundTrip | lib/models/training.ts:145-154 | reading an encoded tree gives the tree back and leaves what followed untouched |
| Persistence.DecodeTrees | lib/models/training.ts:152-154 | a successful read returns the requested number of trees, whose encodings are the tokens consumed |
| Persistence.TreesRoundTrip | lib/models/training.ts:145-154 | reading encoded trees gives them back |
| Persistence.EncodeNames | lib/models/training.ts:145-147 | one name token per feature name, in order |
| Persistence.DecodeNames | lib/models/training.ts:152-154 | a successful read returns the requested number of names, whose encodings are the tokens consumed |
| Persistence.NamesRoundTrip | lib/models/training.ts:145-154 | reading encoded names gives them back |
| Persistence.SerializeModel | lib/models/training.ts:145-147 | a serialised model has at least its two counts and its metrics |
| Persistence.DeserializeModel | lib/models/training.ts:152-154 | whatever it accepts is the serialisation of the model it returns |
| Persistence.ModelRoundTrip | lib/models/training.ts:145-154 | deserialising a serialised model gives back its trees, feature names and metrics |
| Persistence.SerializeInjective | lib/models/training.ts:145-154 | different models serialise differently |

## Left out

- Dates and times are left out: ISO timestamps, `new Date()`, `performance.now()`, the training date and the training time. `Date.now()` is kept only as a number of milliseconds, as described below.
  - `extractTemporalFeatures` reads hour, weekday, day of year and month off a `Date` in the local time zone. The model takes these four numbers as inputs, and models only the flags computed from them (`FeatureEngineering.Flags`).
  - The forecast's timestamps are milliseconds. `Date.now()`, which the source reads afresh in every step, is an injected clock `clock(s)` giving the reading in step `s`.
- JSON text is not modelled. `serializeModel`/`deserializeModel` become a token stream carrying the same information. Malformed input is `None` instead of a thrown `SyntaxError`. The optional `predictions` field of a forest is not stored.
- Floating-point rounding, `NaN`, `-0` and infinities are not modelled; reals are exact.
- `Math.sqrt`, `Math.sin`, `Math.cos` and `Math.random` are parameters.
  - Only their defining properties are assumed: the root squares back, sine and cosine have period two pi, and a draw lies in [0, 1).
  - `Math.PI` is the 16-digit decimal 3.141592653589793, the shortest one that rounds to the double, taken as an exact real.
- Records with arbitrary string keys are rows of reals indexed by key position. The random forest assumes every row has the keys of the first.
- Feature vectors whose flags are booleans rather than 0/1 are not modelled; `buildFeatureVector` always stores numbers.
- The UI components, API routes and the weather client are not part of the core and are not modelled.
- Non-integer window sizes and periods are not modelled: `SeasonalAdjustment` and `FeatureEngineering` take integer windows.
- Statistics.RSquared: requires a non-constant actual series when the inputs are comparable. The source divides by a zero total sum of squares there and returns `-Infinity` or `NaN`.
- RegimeAnalysis.LocalRSquared: requires a non-empty, non-constant actual series and predictions reaching as far. The source throws on the empty reduction and returns a non-finite value otherwise.
- RegimeAnalysis.OptimizeBaseTemperature: requires a positive step and a defined fit when the range is non-empty. A non-positive step never terminates in the source.
- RegimeAnalysis.Correlation: requires a non-zero denominator on non-empty input; the source's unguarded division gives `NaN` or an infinity there.
- RegimeAnalysis.AnalyzeRegimes: requires both regimes' correlations to be defined (see the line above), and loads covering the temperatures.
- FeatureEngineering.Correlation: requires non-empty input and a non-zero denominator; the source divides without a guard.
- FeatureEngineering.ScoreFeatureImportance: requires every key's correlation to be defined. Non-finite scores would make the source's sort comparator inconsistent.
- FeatureEngineering.ThermalMomentum: requires a window of at least 1. A smaller window makes every window empty, and the source's `0 / 0` gives `NaN`.
- SeasonalAdjustment.MovingAverage: requires a window of at least 1 on non-empty data. A smaller window leaves every window empty, and the source's `window.reduce((a, b) => a + b)` without an initial value throws a `TypeError`.
- SeasonalAdjustment.SeasonalDecompose: requires a period of at least 1 on non-empty data, because the trend is the moving average over that period (see the line above).
- SeasonalAdjustment.SeasonallyAdjust: requires the residual to be at least as long as the trend. A decomposition built by `SeasonalDecompose` always is; for a hand-built shorter residual the source reads `undefined` and yields `NaN`, which is not modelled.
- FeatureEngineering.NormalizeFeatures: requires at least one feature vector, all with the keys of the first. The source reads the keys off `features[0]`, which throws on an empty list.
- RandomForest.ForestMean: requires at least one tree. The source reduces the per-tree predictions without an initial value, which throws on an empty forest.
- RandomForest.PredictRandomForest: requires at least one tree whenever there is a sample, for the reason in the line above. `BuildRandomForest` builds an empty forest for a non-positive tree count, and predicting with it throws in the source.
- DegreeDays.ThermalElasticity: requires, from two points on, loads covering the temperatures and temperatures that are not all equal. Otherwise the source reads `undefined` or divides by zero. The contract states the below-two-points case and the normal equation; a slope that fits linear loads exactly is characterised by `DegreeDays.ElasticityOfLinearLoads` and `RegimeAnalysis.SlopeIsElasticity`.
- RandomForest.BuildRandomForest: requires aligned, non-empty rows; the source reads the feature names off the first row.
- Training.TrainModel: requires a non-empty training part, a positive tree count when there are test rows, and a non-constant test set. Otherwise the source throws on empty reductions or returns a non-finite R-squared.
- Training.KFoldCrossValidation: requires 2 <= k <= number of rows, a positive tree count and a non-constant test range in every fold.
  - With k = 1, or more folds than rows, some fold trains on no rows and the source throws.
  - With k = 0 the source returns `NaN` averages; this case is not modelled.
  - With k < 0 the loop runs no fold and the source returns averages of `0 / k`, which is `-0`; this case is not modelled either.
- Training.GridSearchHyperparameters: requires positive tree counts and data that is foldable three ways. The source's own conditions for `kFoldCrossValidation` apply to each option.
- ForecastEngine.MakeForecast: when steps run, it requires at least one tree, at least one feature row, and a temperature field in the last row. The source throws on the empty reduction or reads `undefined` otherwise.
- ForecastEngine.EvaluateForecastAccuracy: requires predictions and intervals at least as long as the actual series; the source reads `undefined` past their end.
