# Transformer predictive maintenance: decision engine and ETL rules in Dafny

This project models the rule-based core of a predictive-maintenance system for
a power transformer, and proves properties of it.

The backend decision engine covers:
- min-max score normalisation with its epsilon guard;
- the weighted autoencoder / isolation-forest ensemble;
- the offline operating-threshold search: an F-beta grid search, a
  precision-floor rule, and the larger of the two;
- k-of-m alert smoothing over a ring buffer;
- training-side windowing, imputation and label alignment;
- online inference on the last 24 hours;
- the serving layer's health check, batch scoring, labelling and column
  alignment.

The ETL rules cover:
- bronze layer: splitting PI values into channels, and chunking a date range
  into request windows;
- silver layer: column-name normalisation and de-duplication, range masking,
  missing-value accounting, operational-state classification and the quality
  report;
- gold layer: event-window labelling, the final dataset's categories, dtype
  downcast and 80/20 split, and the validation checks.

One Dafny module models one source file:
- `Ensemble`, `Prep`, `Infer`, `Train`, `Service` and `Utils` model the backend;
- `ExtractBronze`, `MainBronze`, `TransformSilver`, `ClassifySilver`,
  `ReportSilver`, `LabelsGold`, `FinalizeGold` and `ValidateGold` model the ETL;
- `Common` holds the shared vocabulary.

That shared vocabulary includes:
- a `Cell` is a finite real, NaN or an infinity;
- a table is a sequence of named columns;
- counting, filtering and subsequence helpers;
- lower-casing and substring search.

Where the source works step by step, the model has a method with loop
invariants, proved equal to a specification function:
- the smoother's ring buffer;
- the threshold grid search;
- window building;
- de-duplication and renaming;
- range masking;
- the classification passes;
- the event-labelling loops;
- the dtype downcast;
- the validation steps;
- the date-range loop.

The properties are lemmas about those functions.

Scores, ratios and percentages are `real`. Timestamps are `int` seconds.
Trained models, scalers and the precision/recall curve are parameters: a
function value or a given sequence.

A few behaviours follow the code where its comments or documentation suggest
otherwise:
- `generar_rangos_fechas` is documented as producing half-open ranges, but the
  windows it builds are closed `[start, stop]` pairs, and the next window starts
  one second after `stop`.
- When the scores separate the labels perfectly, `best_thr_fbeta` returns the
  lowest grid point, `min(scores)`. This is because only a strictly larger
  F-beta replaces the best one.
- `infer.py` raises an alert strictly above `operate_thr`. The service labels a
  row ANOMALY at `>=` a `"threshold"` entry that defaults to 0.6, and training
  never writes that entry.

## Model

| member | source | states |
|---|---|---|
| Ensemble.MinMaxMonotone | backend/modelo/ensemble.py:6-8 | min-max scaling is non-decreasing in x |
| Ensemble.MinMaxAtBounds | backend/modelo/ensemble.py:6-8 | lo maps to 0; hi maps to 1 when hi - lo >= 1e-12, and below 1 when the epsilon guard applies |
| Ensemble.MinMaxInUnitInterval | backend/modelo/ensemble.py:6-8 | values in [lo, hi] scale into [0, 1] |
| Ensemble.MinMaxNotClipped | backend/modelo/ensemble.py:6-8 | no clamping: below lo gives a negative score, above hi a score above 1 |
| Ensemble.Span | backend/modelo/ensemble.py:7-8 | the divisor max(hi - lo, 1e-12) is positive, so there is never a division by zero |
| Ensemble.Confuse | backend/modelo/ensemble.py:16-19 | strict `score > th` predictions; tp + fn is the number of positive labels |
| Ensemble.Precision | backend/modelo/ensemble.py:20 | 0 when tp + fp = 0, otherwise in [0, 1]; 1 when there are no false positives |
| Ensemble.Recall | backend/modelo/ensemble.py:21 | 0 when tp + fn = 0, otherwise in [0, 1]; 1 when there are no false negatives |
| Ensemble.FBeta | backend/modelo/ensemble.py:22-23 | in [0, 1], 0 exactly when precision or recall is 0, and 1 at perfect precision and recall |
| Ensemble.GridPoint | backend/modelo/ensemble.py:11-12 | the linspace grid starts at min(scores) and stays within [min, max] |
| Ensemble.BestThrFbeta | backend/modelo/ensemble.py:10-27 | fails only on empty scores; otherwise the result has the maximal F-beta over the grid, at the first grid point reaching it, and no threshold when no point has F-beta > 0 |
| Ensemble.PerfectSeparation | backend/modelo/ensemble.py:24-27 | scores that separate the labels at their minimum give F = precision = recall = 1 at threshold min(scores) |
| Ensemble.PerfectAtFirstPoint | backend/modelo/ensemble.py:24-26 | once the first grid point reaches F = 1, it is the one returned |
| Ensemble.SeparatingConfusion | backend/modelo/ensemble.py:16-19 | labels matching `score > th` give no false positives or false negatives |
| Ensemble.ThresholdForMinPrecision | backend/modelo/ensemble.py:33-36 | the threshold of the first point whose precision reaches the floor, else the last threshold |
| Ensemble.MinPrecisionMet | backend/modelo/ensemble.py:33-35 | when some point reaches the floor, the returned threshold is one whose precision reaches it |
| Ensemble.MinPrecisionFallbackIsHighest | backend/modelo/ensemble.py:36 | with ascending thresholds and no point reaching the floor, the fallback is the largest threshold |
| Ensemble.SmoothAlerts | backend/modelo/ensemble.py:38-47 | the ring-buffer loop (count kept equal to the window sum) computes exactly the k-of-m window specification |
| Ensemble.Smoothed | backend/modelo/ensemble.py:38-47 | output has the input's length; out[i] = 1 iff the last min(m, i+1) inputs sum to at least k |
| Ensemble.RingPush | backend/modelo/ensemble.py:43-44 | writing slot i mod m keeps the buffer equal to the last m inputs, and the slot removed holds input i - m |
| Ensemble.WindowSumStep | backend/modelo/ensemble.py:43-45 | subtracting the evicted value and adding the new one gives the next window's sum |
| Ensemble.SmoothedExample | backend/modelo/ensemble.py:38-47 | k=2, m=3 on [0,0,1,1,0,1,0] gives [0,0,0,1,1,1,0] |
| Ensemble.NeverFiresWhenKExceedsM | backend/modelo/ensemble.py:38-47 | on 0/1 input the smoother never fires when k > m |
| Ensemble.FiresOnEveryAlertWhenKIsOne | backend/modelo/ensemble.py:38-47 | with k = 1 every raw alert passes through |
| Ensemble.EnsembleScores | backend/modelo/ensemble.py:49-50 | element-wise blend of the same length as its inputs |
| Ensemble.EnsembleEndpoints | backend/modelo/ensemble.py:49-50 | alpha = 1 gives the AE scores, alpha = 0 the IF scores |
| Ensemble.EnsembleBetween | backend/modelo/ensemble.py:49-50 | for alpha in [0, 1] each blended score lies between its two inputs |
| Prep.SelectColumns | backend/modelo/prep.py:9-18 | an order-preserving subsequence of exactly the numeric, non-leak columns with more than one distinct value and at most 30% NaN |
| Prep.ConstantColumnDropped | backend/modelo/prep.py:13-14 | a constant column is never selected |
| Prep.TemporalSplit | backend/modelo/prep.py:20-22 | the train part has floor(0.8 n) rows, X and y are cut at the same point, and train ++ valid gives back the input |
| Prep.ApplyImpute | backend/modelo/prep.py:27-29 | finite cells are unchanged; NaN and infinite cells take the column's stored median (NaN without one) |
| Prep.ImputeIdempotent | backend/modelo/prep.py:27-29 | imputing twice is imputing once |
| Prep.ImputeFillsGaps | backend/modelo/prep.py:27-29 | with a finite median, the column has no missing cell left |
| Prep.NormalRows | backend/modelo/prep.py:36-43 | the scaler's rows are exactly the positions whose encoded label is normal_id, in increasing order |
| Prep.MakeSequences | backend/modelo/prep.py:48-54 | max(0, N - H - L + 1) windows; window j is rows j..j+L-1, is tagged index[j+L-1] and ends before the last H rows |
| Infer.SelectFeatures | backend/modelo/infer.py:21-23 | exactly the feature columns in feature order; an error names a missing or non-numeric feature |
| Infer.MakeSequenceFromWindow | backend/modelo/infer.py:21-23 | row i, position k is the cell of feature k at row i, and nothing else is included |
| Infer.Mse | backend/modelo/infer.py:28 | the mean squared reconstruction error is non-negative, and 0 on a perfect reconstruction |
| Infer.AeScoreFromWindow | backend/modelo/infer.py:25-30 | the score is minmax(mse(window, ae(window)), ae_min, ae_max); a shape mismatch or empty window is an error |
| Infer.PerfectReconstruction | backend/modelo/infer.py:25-30 | an autoencoder that reproduces the window gives the normalised score of error 0 |
| Infer.ImputedRows | backend/modelo/infer.py:36 | non-finite inputs take the stored training median of their column, never a statistic of the window |
| Infer.Tail | backend/modelo/infer.py:38 | the window is the last min(LOOKBACK, n) rows; a shorter history is accepted |
| Infer.TailScore | backend/modelo/infer.py:25-40 | NaN for a tail with a non-finite cell; otherwise minmax(mse(w, ae(w)), ae_min, ae_max) of the scaled window w, an error exactly on a shape mismatch or an empty window |
| Infer.InferFromLast24h | backend/modelo/infer.py:32-42 | a missing or non-numeric feature, an empty input, or a missing ae_score_min / ae_score_max is an error; then the autoencoder's error; then a missing operate_thr. On success the score is minmax(mse(w, ae(w)), ae_score_min, ae_score_max) of the imputed, scaled last LOOKBACK rows (NaN when a cell stays non-finite), and pred is 1 iff that score is finite and strictly above the stored operate_thr |
| Infer.InferUsesOnlyTail | backend/modelo/infer.py:32-42 | rows older than the last LOOKBACK do not change the decision |
| Infer.InferDecisionIsStrict | backend/modelo/infer.py:40-42 | pred is 1 iff the score is finite and strictly above operate_thr; the returned threshold is the stored one |
| Infer.SelectDropCommute | backend/modelo/infer.py:35 | selecting features and dropping leading rows commute |
| Service.Healthcheck | backend/app/service.py:18-29 | ok iff the isolation forest and its scaler are loaded; details report every artifact |
| Service.HealthIgnoresAutoencoder | backend/app/service.py:27-28 | the autoencoder's status never changes ok |
| Service.IfScores | backend/app/service.py:50-55 | the forest's scores when it is loaded, zeros otherwise |
| Service.AeScores | backend/app/service.py:58-65 | reconstruction errors only when both the AE and its scaler are loaded, zeros otherwise |
| Service.BatchNormalizeRange | backend/app/service.py:68-69 | (x - min) / (ptp + 1e-8) lies in [0, 1) and is 0 on the batch minimum |
| Service.BatchNormalizeMonotone | backend/app/service.py:68-69 | batch normalisation preserves order |
| Service.FinalScoresRange | backend/app/service.py:68-70 | for two or more rows every final score lies in [0, 1) |
| Service.OneRowAsymmetry | backend/app/service.py:68-70 | for one row the IF score becomes 0 while the AE score stays raw: final = 0.5 * ae |
| Service.Threshold | backend/app/service.py:73 | meta "threshold" when present, else 0.6 |
| Service.TrainedThresholdIgnored | backend/app/service.py:73 | metadata holding only the keys training writes leaves the service at 0.6 |
| Service.PredictDf | backend/app/service.py:45-79 | an empty frame fails; otherwise one result per row in order, with that row's index and final score, labelled ANOMALY iff score >= threshold |
| Service.OneRowWithoutAutoencoderIsNormal | backend/app/service.py:65-74 | a one-row batch without the autoencoder scores 0 and is NORMAL at the default threshold |
| Service.PresentFeatures | backend/app/service.py:40 | the feature columns found in the file, in feature order |
| Service.SelectFromParquet | backend/app/service.py:35-42 | keeps the last limit_rows rows when limit_rows > 0 (all otherwise), and only the present feature columns, in feature order |
| Utils.FromRecords | backend/app/utils.py:10 | one column per key seen in any record; a record without the key gives NaN in its cell |
| Utils.AddNaNColumn | backend/app/utils.py:13-15 | adding an all-NaN column for a key no record has keeps the frame equal to the records |
| Utils.EnsureDataframe | backend/app/utils.py:8-18 | output columns are exactly feature_order in order, one row per record, and each cell is the record's value or NaN |
| Utils.AbsentFeatureIsAllNaN | backend/app/utils.py:11-16 | a feature no record has becomes an all-NaN column |
| Train.MostCommon | backend/modelo/train.py:65-66 | `Counter.most_common(1)`: a most frequent value, ties going to the first to appear |
| Train.LeadsStep | backend/modelo/train.py:66 | only a strictly more frequent value replaces the current leader |
| Train.NormalId | backend/modelo/train.py:62-66 | the position of "NORMAL" among the classes, else the most common training code with ties going to the first to appear; an error only with neither |
| Train.YValidBin | backend/modelo/train.py:67 | label 1 iff the encoded label differs from normal_id |
| Train.YValidBinCounts | backend/modelo/train.py:67 | the zeros are exactly the normal rows and the ones the rest |
| Train.PySlice | backend/modelo/train.py:76 | Python slicing with negative and out-of-range bounds |
| Train.AlignedMatchesWindows | backend/modelo/train.py:76 | the label slice [L-1 : n-H] has as many entries as there are windows exactly when H <= n (or the slice is otherwise empty), and entry j is the label of window j's last row |
| Train.AlignedMatchesWindowsByDefault | backend/modelo/train.py:76 | with LOOKBACK = 24 and HORIZON_SHIFT = 12 the label slice and the windows always have the same length |
| Train.AlignedMismatchExample | backend/modelo/train.py:76 | with H > n a negative stop wraps around: 10 labels, L = 1, H = 12 give 8 labels for 0 windows |
| Train.TrainingScoresNormalised | backend/modelo/train.py:100-109 | with bounds taken from the training scores, every training score normalises into [0, 1] |
| Train.OperateScore | backend/modelo/train.py:111-116 | the AE score when OPERATE_WITH_AE_ONLY is set, else element-wise alpha * ae + (1 - alpha) * if |
| Train.OperatingPolicy | backend/modelo/train.py:99-123 | each error exactly when its cause holds (empty training scores, misaligned lengths, empty validation, no positive F-beta); on success the operate score is the normalised AE score or its alpha-blend with the aligned, normalised IF score, the F-beta result is the grid search's, operate_thr = max(thr_fbeta, thr_prec), raw alerts are strictly above it and then k-of-m smoothed |
| Train.ScoreAtThresholdIsNotRaised | backend/modelo/train.py:122 | a score equal to operate_thr is not an alert |
| TransformSilver.Lookup | etl/capa_silver/transform_silver.py:99-102 | a name in the explicit mapping is renamed to its mapped value |
| TransformSilver.NormaliseName | etl/capa_silver/transform_silver.py:103-125 | the rewriting steps in order: lower-case, term replacements in table order, accents, whitespace, drop others, collapse and strip |
| TransformSilver.NormaliseWellFormed | etl/capa_silver/transform_silver.py:103-125 | every normalised name is non-empty over [a-z0-9_], with no leading, trailing or doubled "_" |
| TransformSilver.RenameWellFormed | etl/capa_silver/transform_silver.py:103-125 | every unmapped name is renamed to a well-formed one |
| TransformSilver.Tidy | etl/capa_silver/transform_silver.py:123-124 | collapse, strip and the "var_transformador" fallback give a well-formed name |
| TransformSilver.CollapseUnderscores | etl/capa_silver/transform_silver.py:124 | runs of "_" collapse to one, keeping the first character and using only characters of the input |
| TransformSilver.UnaccentAll | etl/capa_silver/transform_silver.py:121 | each accented vowel or ñ maps to its ASCII letter, position by position |
| TransformSilver.Dedupe | etl/capa_silver/transform_silver.py:131-141 | same length; each output is the specification's de-duplicated name at that position |
| TransformSilver.DedupeKeepsFirst | etl/capa_silver/transform_silver.py:138-140 | the first occurrence of a name is unchanged |
| TransformSilver.DedupeSuffixesRepeat | etl/capa_silver/transform_silver.py:135-137 | the k-th repeat of a name gets the suffix "_k" |
| TransformSilver.DedupeNotUnique | etl/capa_silver/transform_silver.py:132-140 | ["a","a","a_1"] gives ["a","a_1","a_1"]: duplicates can remain |
| TransformSilver.CleanColumnNames | etl/capa_silver/transform_silver.py:85-128 | each column gets the de-duplicated rename of its name |
| TransformSilver.FirstRangeKey | etl/capa_silver/transform_silver.py:156-160 | the first range key, in table order, contained in the lower-cased name |
| TransformSilver.ConvertTypes | etl/capa_silver/transform_silver.py:144-162 | an error iff two columns share a name, naming the first repeated column in table order (the TypeError of `pd.to_numeric` on a multi-column selection); otherwise the same columns in the same order, each masked by its first matching range |
| TransformSilver.ConvertedWithinRange | etl/capa_silver/transform_silver.py:153-161 | every kept value lies within the inclusive bounds; the rest are NaN; the row count is unchanged |
| TransformSilver.TempKeyWinsOverOil | etl/capa_silver/transform_silver.py:147-160 | a name containing "temp" uses (-50, 200), even when it also contains "oil" |
| TransformSilver.CategoryColumns | etl/capa_silver/transform_silver.py:174-178 | a category holds exactly the columns matching one of its terms; "Otras" holds exactly those matching none |
| TransformSilver.AnalyzeMissing | etl/capa_silver/transform_silver.py:165-192 | total_valores = columns x rows, total_missing = the NaN cells, porcentaje_total = their percentage (0 for an empty table), columnas_afectadas = the columns with a NaN; every category entry carries its column count, its NaN cells and their percentage, and a category is listed iff it has columns |
| TransformSilver.CategoryStatsSound | etl/capa_silver/transform_silver.py:173-183 | every listed entry is the entry of one category with columns |
| TransformSilver.CategoryStatsComplete | etl/capa_silver/transform_silver.py:173-183 | every category with columns is listed |
| TransformSilver.CategoryStatsOmitEmpty | etl/capa_silver/transform_silver.py:179-180 | a category without columns is skipped |
| TransformSilver.NoMissingIffNoAffected | etl/capa_silver/transform_silver.py:185-190 | total_missing is 0 iff columnas_afectadas is 0 |
| TransformSilver.CategoryReported | etl/capa_silver/transform_silver.py:174-183 | a category with a matching column is reported, and so is "Otras" for an untagged column |
| ClassifySilver.Initials | etl/capa_silver/classify_silver.py:13-17 | every row starts NORMAL with severity 0 and empty texts |
| ClassifySilver.CritStep | etl/capa_silver/classify_silver.py:29-37 | a reading in the critical band makes the row CRITICO, severity 2, with the column appended to the variables; any other reading leaves the row unchanged |
| ClassifySilver.AlertStep | etl/capa_silver/classify_silver.py:38-44 | a reading in the alert band on a row below severity 2 makes it ALERTA, severity 1, with the column appended to the variables; otherwise (a CRITICO row or a reading outside the band) the row is unchanged |
| ClassifySilver.OverloadStep | etl/capa_silver/classify_silver.py:53-60 | current > 2000 with oil temperature > 70 forces CRITICO and keeps the variables; otherwise the row is unchanged |
| ClassifySilver.GradientStep | etl/capa_silver/classify_silver.py:68-76 | hot - oil > 25 on a row below severity 2 makes it ALERTA, severity 1, with a description mentioning GRADIENTE and the variables kept; otherwise (a CRITICO row or a smaller gradient) the row is unchanged |
| ClassifySilver.ColumnPass | etl/capa_silver/classify_silver.py:25-44 | severity never decreases, and a matching column's critical reading ends CRITICO |
| ClassifySilver.MarkCritical | etl/capa_silver/classify_silver.py:31-37 | the critical loop over rows equals its specification |
| ClassifySilver.MarkAlert | etl/capa_silver/classify_silver.py:38-44 | the alert loop over rows equals its specification |
| ClassifySilver.MarkCombined | etl/capa_silver/classify_silver.py:53-76 | the combined-rule loop over rows equals its specification |
| ClassifySilver.MarkPairs | etl/capa_silver/classify_silver.py:48-76 | the nested loops over column pairs equal their specification |
| ClassifySilver.Classify | etl/capa_silver/classify_silver.py:11-80 | the rows and the state counts are the classification's |
| ClassifySilver.ClassificationConsistent | etl/capa_silver/classify_silver.py:29-76 | every row ends with estado and severity in agreement: NORMAL-0, ALERTA-1, CRITICO-2 |
| ClassifySilver.IndividualPassEscalates | etl/capa_silver/classify_silver.py:21-44 | the individual criteria never lower a row's severity |
| ClassifySilver.PairPassEscalates | etl/capa_silver/classify_silver.py:48-76 | the combined rules never lower a row's severity |
| ClassifySilver.IndividualPassCritical | etl/capa_silver/classify_silver.py:21-37 | a matching critical reading ends at severity 2, whatever later criteria do |
| ClassifySilver.OverloadEndsCritico | etl/capa_silver/classify_silver.py:48-60 | an overloaded row ends CRITICO |
| ClassifySilver.PairPassGradient | etl/capa_silver/classify_silver.py:48-76 | a row whose hot minus oil exceeds 25 at some column pair the loops visit ends the pair loops at severity >= 1 |
| ClassifySilver.GradientEndsAtLeastAlerta | etl/capa_silver/classify_silver.py:48-76 | a row whose hot-spot minus oil temperature exceeds 25 ends at severity >= 1, never NORMAL, whatever the other rules do |
| ClassifySilver.TapReadingEndsCritico | etl/capa_silver/classify_silver.py:29-33 | with the rule table every tap reading in [0, 17) ends CRITICO |
| ClassifySilver.TapBandsNest | etl/capa_silver/rules_silver.py:53-57 | the tap's normal and alert bands lie inside its critical band |
| ClassifySilver.OverloadDescribedOnce | etl/capa_silver/classify_silver.py:57-60 | the overload description is added, at most once |
| ClassifySilver.GradientDescribedOnce | etl/capa_silver/classify_silver.py:73-76 | a single GRADIENTE description, and a CRITICO row is left unchanged |
| ClassifySilver.AppendKeepsHead | etl/capa_silver/classify_silver.py:35-44 | the appended fields never start with a separator |
| ClassifySilver.CountsSumToRows | etl/capa_silver/classify_silver.py:79 | the state counts sum to the row count |
| ClassifySilver.StateCounts | etl/capa_silver/classify_silver.py:79 | `value_counts`: exactly the states present, each with its count |
| ReportSilver.Completeness | etl/capa_silver/report_silver.py:4-19 | (total - missing) / total * 100, or 0 when total = 0, within [0, 100] |
| ReportSilver.CompletenessExtremes | etl/capa_silver/report_silver.py:19 | 100% exactly when no cell is missing, 0% exactly when all are |
| ReportSilver.Report | etl/capa_silver/report_silver.py:3-30 | category counts in report order, the totals, and the passed-through figures unchanged |
| ReportSilver.CategoryCountOne | etl/capa_silver/report_silver.py:15-18 | a column counts in a category iff its lower-cased name contains one of the terms |
| ReportSilver.CategoryCountsSum | etl/capa_silver/report_silver.py:8-18 | for any table the three category counts add up to the number of (column, category) matches, so the categories are not a partition |
| ReportSilver.MatchingBothCountsTwice | etl/capa_silver/report_silver.py:8-18 | any column whose lower-cased name matches a thermal and an electrical term counts 1 in each, so one column gives counts summing to more than 1 |
| ReportSilver.CategoriesOverlap | etl/capa_silver/report_silver.py:8-18 | a "temp_current" column counts as both thermal and electrical |
| LabelsGold.Events | etl/capa_gold/labels_gold.py:33-46 | events are the CRITICO anomaly rows, or the severity >= 2 rows only when the state column is absent |
| LabelsGold.Falla | etl/capa_gold/labels_gold.py:56-61 | falla_30d = 1 iff some event ev has ev - 24 H h <= t < ev |
| LabelsGold.Rul | etl/capa_gold/labels_gold.py:28-63 | rul lies in [0, H], is H on negative rows and positive on positive ones |
| LabelsGold.LastCoveringSpec | etl/capa_gold/labels_gold.py:56-63 | a positive row's rul comes from the last processed event covering it |
| LabelsGold.LatestCoveringEventWins | etl/capa_gold/labels_gold.py:56-63 | with sorted events that is the latest covering event |
| LabelsGold.RulToFarthestEvent | etl/capa_gold/labels_gold.py:56-63 | two covering events give the farther one's rul (30 days, not 1) |
| LabelsGold.RulDaysBounds | etl/capa_gold/labels_gold.py:62-63 | a covered row's rul lies in (0, H] |
| LabelsGold.MarkEvent | etl/capa_gold/labels_gold.py:57-63 | the rows covered by one event are marked with its rul, the others are unchanged |
| LabelsGold.MarkEvents | etl/capa_gold/labels_gold.py:25-63 | the event loop over the defaults gives falla and rul as specified |
| LabelsGold.EventInstantNotPositive | etl/capa_gold/labels_gold.py:58 | the event instant itself is not positive |
| LabelsGold.WindowStartIsPositive | etl/capa_gold/labels_gold.py:57-58 | the window's first instant is positive, with rul = H |
| LabelsGold.FutureStateMonotone | etl/capa_gold/labels_gold.py:69-75 | CRITICO iff rul <= 7, ALERTA iff 7 < rul <= 15, else NORMAL; a lower rul never gives a milder state |
| LabelsGold.UncoveredRowState | etl/capa_gold/labels_gold.py:27-75 | a row covered by no event is NORMAL iff H > 15 |
| LabelsGold.Severity | etl/capa_gold/labels_gold.py:86 | clip(100 (1 - rul/H), 0, 100) |
| LabelsGold.SeverityOnValidRul | etl/capa_gold/labels_gold.py:86 | on rul in [0, H] no clipping happens, severity is 0 iff rul = H, and it falls as rul grows |
| LabelsGold.FirstAfter | etl/capa_gold/labels_gold.py:93-96 | the first event strictly after t, if any |
| LabelsGold.DaysToNext | etl/capa_gold/labels_gold.py:90-98 | min(days to that event, H), or H when there is none |
| LabelsGold.NextEventDays | etl/capa_gold/labels_gold.py:89-98 | the per-row loop computes DaysToNext for every row |
| LabelsGold.NextEventNoLaterThanRul | etl/capa_gold/labels_gold.py:62-98 | on a positive row the next event is no farther away than its rul |
| LabelsGold.LabelOf | etl/capa_gold/labels_gold.py:25-98 | all row labels together, with their bounds and relations |
| LabelsGold.CreateLabels | etl/capa_gold/labels_gold.py:5-98 | one label row per timestamp, each as specified |
| FinalizeGold.Categorize | etl/capa_gold/finalize_gold.py:30-46 | Variables Originales are the df columns in the fixed list; Otros Features are the df columns in no other category, both in df order |
| FinalizeGold.EveryColumnCategorized | etl/capa_gold/finalize_gold.py:36-46 | every df column lands in some category |
| FinalizeGold.IntTarget | etl/capa_gold/finalize_gold.py:67-79 | the first of uint8, int8, uint16, int16 whose range holds [min, max], else int32 |
| FinalizeGold.Wrap32 | etl/capa_gold/finalize_gold.py:78-79 | the int32 cast wraps, and changes exactly the values outside int32 |
| FinalizeGold.IntDowncastLossless | etl/capa_gold/finalize_gold.py:67-79 | the downcast keeps an int column's values iff all of them fit in int32 |
| FinalizeGold.Int32Overflow | etl/capa_gold/finalize_gold.py:78-79 | 2^31 becomes -2^31 under the unchecked int32 fallback |
| FinalizeGold.FloatFitsIff | etl/capa_gold/finalize_gold.py:62-66 | float32 iff the column has a non-NaN value and every value is finite with magnitude below 1e37 |
| FinalizeGold.Downcast | etl/capa_gold/finalize_gold.py:61-79 | the per-column dtype choice, with other columns untouched |
| FinalizeGold.DowncastAll | etl/capa_gold/finalize_gold.py:61-79 | the loop downcasts every column in place |
| FinalizeGold.Split | etl/capa_gold/finalize_gold.py:96-99 | train is the first floor(0.8 n) rows and valid the rest, together the whole; the split date index[floor(0.8 n)] is in bounds when n >= 1 |
| FinalizeGold.SplitIsChronological | etl/capa_gold/finalize_gold.py:88-99 | on sorted timestamps every train row is at or before the split date, and every valid row at or after it |
| FinalizeGold.SplitShares | etl/capa_gold/finalize_gold.py:101-102 | an empty dataset is a division by zero; otherwise the shares sum to 100 |
| ValidateGold.BothPresent | etl/capa_gold/validate_gold.py:12-14 | the indices where both temperatures are present, each once and in increasing order |
| ValidateGold.Paired | etl/capa_gold/validate_gold.py:12-14 | exactly the (hot, oil) pairs at the rows where both are present, once each, in row order; no NaN in any pair |
| ValidateGold.Coherence | etl/capa_gold/validate_gold.py:16-17 | the percentage of pairs with hot >= oil, 100 iff all of them |
| ValidateGold.ThermalPairs | etl/capa_gold/validate_gold.py:11-14 | no pairs iff either column is missing, else the paired present rows |
| ValidateGold.ThermalOf | etl/capa_gold/validate_gold.py:15-27 | no figures without pairs; otherwise coherence and maximum gradient of the pairs, a coherence alert iff coherence < 95, a gradient alert iff some gradient exceeds the threshold, and nothing else |
| ValidateGold.ThermalCheck | etl/capa_gold/validate_gold.py:11-27 | skipped without alerts when either column is missing; otherwise the figures and alerts of the paired rows; coherence in [0, 100] |
| ValidateGold.GradientExceedsIff | etl/capa_gold/validate_gold.py:21-27 | the gradient alert fires iff some hot - oil exceeds the threshold |
| ValidateGold.FullCoherenceNoAlert | etl/capa_gold/validate_gold.py:16-20 | full coherence raises no coherence alert |
| ValidateGold.Validity | etl/capa_gold/validate_gold.py:57-61 | over non-null values, (len - outside) / len * 100 in [0, 100]; none for no values |
| ValidateGold.ValidityFull | etl/capa_gold/validate_gold.py:57-61 | 100% iff no present value is outside the inclusive bounds |
| ValidateGold.CheckRanges | etl/capa_gold/validate_gold.py:55-65 | the range loop collects the validities and alerts of the specification |
| ValidateGold.RangeAlertsAreOutOfRange | etl/capa_gold/validate_gold.py:64-65 | every range alert has more than 10% of its values outside the range |
| ValidateGold.RangesSkippedWhenMissing | etl/capa_gold/validate_gold.py:56 | ranged columns that are absent give no figures and no alerts |
| ValidateGold.CountGaps | etl/capa_gold/validate_gold.py:69-71 | fewer gaps than timestamps |
| ValidateGold.NoGapsCounted | etl/capa_gold/validate_gold.py:69-71 | consecutive differences of at most 1.5 h give no gaps |
| ValidateGold.ContinuityCheck | etl/capa_gold/validate_gold.py:68-78 | continuity in [0, 100], 100 when empty, alert iff gaps > 5% of the rows |
| ValidateGold.Validate | etl/capa_gold/validate_gold.py:4-91 | the checks' alerts in order; status EXITOSO iff there are none |
| ValidateGold.NothingToCheckPasses | etl/capa_gold/validate_gold.py:11-84 | a table with none of the checked columns and no time index passes |
| MainBronze.SplitPiValue | etl/capa_bronze/main_bronze.py:24-73 | the channels per input type: dict and None give (NaN, None, None); bool (tested before numbers) gives (NaN, "True"/"False", b); numbers give (float, str, None); strings keep their text and take the stripped parse as value; a float keeps its value and its str text; others give (NaN, str(x), None); value_bool only for bools |
| MainBronze.StringValue | etl/capa_bronze/main_bronze.py:50-63 | the stripped text parsed as a float, else with "," replaced by ".", else NaN |
| MainBronze.CommaDecimal | etl/capa_bronze/main_bronze.py:55-61 | "w,f" reads as the decimal w.f, so "12,5" is 12.5 |
| MainBronze.CommaNotThousands | etl/capa_bronze/main_bronze.py:55-61 | "w,000" reads as w, so "1,000" is 1.0 and not a thousands separator |
| MainBronze.CommaTextUnparsed | etl/capa_bronze/main_bronze.py:55-57 | the first parse attempt fails on a comma |
| MainBronze.PointedParsed | etl/capa_bronze/main_bronze.py:59-60 | "w.f" parses as the decimal w.f |
| MainBronze.IntTextRoundTrip | etl/capa_bronze/main_bronze.py:43-63 | an integer's text channel parses back to its value channel |
| MainBronze.DigitsRoundTrip | etl/capa_bronze/main_bronze.py:43-45 | decimal rendering of a natural reads back as that natural |
| MainBronze.StripKeepsNumber | etl/capa_bronze/main_bronze.py:52 | strip leaves text without outer whitespace unchanged |
| ExtractBronze.DateRanges | etl/capa_bronze/extract_bronze.py:34-48 | the while loop builds exactly the specified windows |
| ExtractBronze.RangesEnds | etl/capa_bronze/extract_bronze.py:41-46 | no windows iff start >= end; the first starts at start; the last ends at end or end - 1 s |
| ExtractBronze.RangesBounded | etl/capa_bronze/extract_bronze.py:44 | every window lies within [start, end], spans at most delta days, and has start < stop when delta >= 1 |
| ExtractBronze.RangesConsecutive | etl/capa_bronze/extract_bronze.py:46 | each window starts one second after the previous one ends: closed, disjoint and increasing |
| ExtractBronze.RangesCover | etl/capa_bronze/extract_bronze.py:43-46 | every second before end falls in a window |
| ExtractBronze.LastSecondUncovered | etl/capa_bronze/extract_bronze.py:43-46 | one day and one second in one-day windows gives a single window, leaving the last second uncovered |

## Left out

- Reading and writing data and artifacts (parquet, Delta Lake, pickle, JSON), the PI Web API calls, HTTP and the UI are not part of this model. Their results are parameters.
- Training and running the autoencoder, the isolation forest, the scalers and the label encoder are foreign numerics. They appear as function parameters or given score sequences.
- `metrics_auc` and the internals of `precision_recall_curve` are left out. The curve is an input: precisions of length N+1 and thresholds of length N.
- `fit_impute_train_medians` (pandas `median`) is left out. The medians are a given map.
- Floating-point rounding is not modelled. Scores, ratios and percentages are exact reals, and `int(n * 0.8)` is floor(4n/5).
- Ensemble.SmoothAlerts: m = 0 is excluded by its precondition. On a non-empty input the source then raises ZeroDivisionError at `i % m`; on an empty input it returns an empty array. The training configuration uses m = 7.
- Ensemble.BestThrFbeta: the grid point `lo + i (hi - lo) / (grid - 1)` is exact. numpy's linspace rounding is not modelled.
- Infer.InferFromLast24h: the fitted scaler is an arbitrary row function. A non-finite value left after imputation is taken to make the score NaN, which is not an alert.
- Service.BatchNormalizeRange: NaN scores in a batch are not modelled.
- Service.PredictDf: the row index is given as integers. The `hasattr` fallback to positions is not modelled.
- Type coercion is not modelled (`astype(float)` on text, `pd.to_numeric(errors='coerce')`). A column is numeric or not; a non-numeric feature is an error in inference.
- Lower-casing and accent folding cover ASCII and the Spanish letters the rules use. Unicode in general is left out.
- TransformSilver.RenameWellFormed: mapped names come from the fixed mapping table and are not proved well-formed. Only normalised names are.
- ClassifySilver.GradientStep: the description text with the formatted gradient value (`:.1f`) is a `render` parameter.
- ClassifySilver.Classify: the output carries estado, severity and the two text fields. The input columns are not copied into the output.
- ValidateGold.ThermalCheck: `gradiente_termico_medio`, the mean of the hot-spot minus oil gradients, is not computed. The check keeps the coherence, the maximum gradient and the alerts, and the alerts do not depend on the mean.
- ValidateGold.Validate: the mean/std ratio block between current and apparent power is left out (report-only). Row alignment assumes a unique index.
- LabelsGold.CreateLabels: the exp-based `proximidad_evento` and `riesgo_acumulativo`, the printed distributions and the quality checks are left out.
- LabelsGold.CreateLabels: timestamps are taken already sorted, and NaT is not modelled.
- LabelsGold.CreateLabels: H > 0 is required, because H = 0 makes the severity formula divide by zero.
- FinalizeGold.Split: the sort by timestamp is not modelled. Rows are taken in timestamp order.
- FinalizeGold.DowncastAll: the memory-usage figures and all saving are left out.
- MainBronze.StringValue: the float parser accepts an optional sign, ASCII digits and at most one point. Exponents, "inf", "nan", digit underscores and non-ASCII Unicode digits are not accepted, so such strings give NaN.
- MainBronze.StringValue: `strip` removes only the ASCII whitespace characters (space, tab, newline, carriage return, vertical tab, form feed and the separators \x1c-\x1f). Python's `str.strip()` and `float()` also remove Unicode whitespace such as a no-break space, and the model keeps those characters.
- MainBronze.SplitPiValue: a float input's `str(x)` text is given with the input. It is not computed.
- MainBronze.SplitPiValue: for a dict input the docstring promises a value of None, while the code returns `np.nan`. The model follows the code and gives NaN.
- FinalizeGold.Categorize: the printed per-category sizes and their sum `total_features`, written to the metadata, are not modelled.
- ExtractBronze.DateRanges: delta_dias is a natural number. With a negative delta the source loop does not terminate.
- ExtractBronze.DateRanges: instants are integer seconds. Parsing the date strings and `isoformat` rendering are left out.
- The pipeline entry points, loggers, configuration and path modules, the thermal and electrical feature formulas, and the pandas resampling and interpolation steps are not part of this model.
