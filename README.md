# AQI pipeline decision logic in Dafny

This project models the decision logic of an air-quality prediction
pipeline. The pipeline fetches air-quality and weather readings, merges and
cleans them, splits them into training and test sets, and gates new test
data before it replaces the reference data. It also decides whether newly
trained models replace the deployed ones in the MLflow model registry.

Datasets are in-memory sequences of rows (`Frames.Row`). Each row has a
timestamp and a map from column name to cell, and a cell is a number, a text
or a null. A CSV file is a `CsvStore.CsvFile`: whether it exists, and its
rows. The registry is a `ModelPromotion.ModelRegistry` holding, per model
name, the stage of each version. Numbers computed by libraries are
parameters that the model only compares:
- model metrics;
- the column median;
- the Kolmogorov-Smirnov p-value;
- the drift flag.

Modules, one per source file (plus the shared frame and file model):

- `Frames` (`frames.dfy`) holds rows, calendar days and the shared frame operations:
  - `drop_duplicates(subset=["date"], keep="last")`;
  - `sort_values("date")`;
  - `dropna()` on a column.
- `CsvStore` (`csv_store.dfy`) models `update_or_append_csv`, the day-filtered append with keep-last dedupe. `process_data` and `merge_data` repeat the same logic, so all three use this one model.
- `ModelPromotion` (`model_promotion.dfy`) models the registry lookups and `main` of the evaluation script, as a method over the registry class.
- `ProcessData` (`process_data.dfy`) covers:
  - `categorize_aqi`;
  - the null-fill loop, as a method with a loop invariant;
  - the category column;
  - the `process_data` stage.
- `MergeData` (`merge_data.dfy`) covers the missing-input exits, the inner join on `date`, the sort and the append.
- `SplitData` (`split_data.dfy`) models the chronological train/test split, with Python's `int()` and slice clamping written out.
- `ValidateData` (`validate_data.dfy`) covers:
  - the four expectations;
  - the fail-fast KS loop, as a method with a loop invariant;
  - the gating order of `main` over a class holding the two data files.

Behaviour of the code worth knowing before reading the model:
- **The two models decide together.** A missing candidate (line 95 of src/models/evaluate_and_register_model.py), a candidate that fails to load (line 106), a missing Production version (line 116) and a Production version that fails to load (line 128) each stop or redirect BOTH models.
- **A candidate that fails to load keeps its stage.** Those exits request no stage transition at all.
- **The first deployment runs when either model lacks a Production version.** Both candidates go to Production and nothing is archived, so the model that had a Production version then has two.
- **Drift is advisory, the KS test is not.** The Evidently drift flag is only reported. A failing KS test ends the run before the reference data is replaced.

## Model

| member | source | states |
|---|---|---|
| Frames.KeepLast | src/data/process_data.py:19 | drop_duplicates(keep="last") keeps exactly the input's timestamps, each once |
| Frames.KeepLastKeepsLastRow | src/data/process_data.py:19 | every kept row is the LAST input row carrying its timestamp |
| Frames.KeepLastOfUnique | src/data/process_data.py:19 | on a frame with unique timestamps the dedupe changes nothing |
| Frames.KeepLastIdempotent | src/data/process_data.py:19 | deduping twice equals deduping once |
| Frames.SortByDate | src/data/merge_data.py:22 | the result is in non-decreasing timestamp order and is a permutation of the input |
| Frames.ColumnValues | src/data/validate_and_test_data.py:70 | dropna(): a number is in the result iff some row holds it in that column |
| Frames.ColumnValuesAppend | src/data/process_data.py:27 | dropna() keeps each number as often as it occurs and in row order: it distributes over concatenation, and one row contributes its number or nothing |
| Frames.UniqueDatesCount | src/data/merge_data.py:21 | a frame with unique timestamps has as many timestamps as rows |
| CsvStore.RowsOnNewDays | src/data/fetch_data.py:92-94 | an incoming row survives the filter iff its calendar day is not among the stored rows' days |
| CsvStore.RowsOnNewDaysAppend | src/data/fetch_data.py:94-101 | the filter keeps every incoming row on a new day as often as it arrives and in arrival order: it distributes over concatenation, and one row is kept iff its day is new |
| CsvStore.AppendNewDays | src/data/fetch_data.py:92-99 | the append to an existing file loses no stored timestamp, and unique timestamps stay unique |
| CsvStore.Stored | src/data/fetch_data.py:90-104 | the file afterwards holds only stored or incoming rows and covers exactly the stored days plus the incoming days, for a missing and an existing file |
| CsvStore.CsvFile.UpdateOrAppend | src/data/fetch_data.py:82-104 | a missing file becomes the incoming rows (FirstSave); otherwise the rows on new days are appended and deduped keep-last; nothing new leaves the file unchanged; Appended reports how many rows survived the filter |
| CsvStore.AppendedRowsAreOnNewDays | src/data/fetch_data.py:92-99 | every row of the appended file was stored before or is an incoming row on a day the file lacked |
| CsvStore.KeptRowsComeFromInput | src/data/fetch_data.py:99 | the keep-last dedupe invents no row |
| CsvStore.AppendCoversDays | src/data/fetch_data.py:92-99 | afterwards the file covers exactly its old days plus the incoming days |
| CsvStore.AppendKeepsExistingRows | src/data/fetch_data.py:92-99 | rows already stored, with unique timestamps, are never replaced or lost |
| CsvStore.NothingOnKnownDays | src/data/fetch_data.py:94-97 | incoming rows whose days are all stored leave nothing to append |
| CsvStore.UpdateOrAppendIdempotent | src/data/fetch_data.py:83-97 | saving the same rows twice leaves the same file as saving them once |
| ModelPromotion.LatestInStage | src/models/evaluate_and_register_model.py:22-24 | get_latest_versions(stages=[s]): the highest version in stage s, None iff no version is in s |
| ModelPromotion.GetLatestVersion | src/models/evaluate_and_register_model.py:17-41 | get_latest_model / get_production_model: the returned version exists, is in the stage, no later version is; None iff the model is unknown or has no version in the stage |
| ModelPromotion.SetStage | src/models/evaluate_and_register_model.py:118-119 | transition_model_version_stage: the named version, when it exists, takes the new stage; a missing version is not created |
| ModelPromotion.ModelRegistry.TransitionModelVersionStage | src/models/evaluate_and_register_model.py:118-119 | exactly the named version of the named model changes stage |
| ModelPromotion.SetStageEffect | src/models/evaluate_and_register_model.py:118-119 | a transition changes the stage of the named existing version and of nothing else |
| ModelPromotion.RegressionBetter | src/models/evaluate_and_register_model.py:135 | the regression rule is asymmetric (two models never beat each other) and a tie on MSE or on explained variance keeps the Production version |
| ModelPromotion.ClassificationBetter | src/models/evaluate_and_register_model.py:144 | the classification rule is asymmetric and a tie on accuracy or on F1 keeps the Production version |
| ModelPromotion.Decide | src/models/evaluate_and_register_model.py:92-150 | main requests stage transitions exactly on the first-deployment and the comparison exits |
| ModelPromotion.DecideExits | src/models/evaluate_and_register_model.py:92-150 | each exit iff its condition: "no new version" iff either model lacks a stage-None version; "candidate not loaded" iff both exist and either fails to load; "first deployment" iff both loaded and either model lacks a Production version; "production not loaded" iff both Production versions exist and either fails to load; "compared" iff all four versions exist and load |
| ModelPromotion.Run | src/models/evaluate_and_register_model.py:95-129 | on the no-new-version and both load-failure exits the registry is left exactly as it was |
| ModelPromotion.PromoteOrArchive | src/models/evaluate_and_register_model.py:135-150 | one model's transitions in order: candidate to Production then old Production to Archived, or candidate to Archived |
| ModelPromotion.EvaluateAndRegister | src/models/evaluate_and_register_model.py:78-150 | main takes the exit Decide names and leaves the registry that its transitions, applied in order, produce |
| ModelPromotion.RunKeepsVersions | src/models/evaluate_and_register_model.py:116-150 | main adds and removes no model or version, and changes no model but the two |
| ModelPromotion.ComparisonRule | src/models/evaluate_and_register_model.py:135-144 | regression promotes iff mse strictly lower AND evs strictly higher; classification iff accuracy AND f1 strictly higher |
| ModelPromotion.ComparedRole | src/models/evaluate_and_register_model.py:134-150 | after comparing, the candidate is Production if it won else Archived, the old Production version is Archived iff the candidate won, every other version keeps its stage |
| ModelPromotion.ComparisonKeepsSingleProduction | src/models/evaluate_and_register_model.py:137-150 | a model with at most one Production version ends with exactly one, the winner of the comparison |
| ModelPromotion.FirstDeploymentStages | src/models/evaluate_and_register_model.py:116-120 | the first deployment puts both candidates in Production and changes nothing else (nothing archived) |
| ModelPromotion.FirstDeploymentCanLeaveTwoProductions | src/models/evaluate_and_register_model.py:116-120 | when only the other model lacked a Production version, this model's Production version stays and the candidate joins it: two distinct Production versions |
| ModelPromotion.FirstDeploymentSingleProduction | src/models/evaluate_and_register_model.py:116-120 | a model without a Production version gets exactly one, its candidate |
| ModelPromotion.RegressionIndependentOfClassification | src/models/evaluate_and_register_model.py:134-141 | once both were compared, the regression model's stages do not depend on the classification metrics |
| ModelPromotion.ClassificationIndependentOfRegression | src/models/evaluate_and_register_model.py:143-150 | once both were compared, the classification model's stages do not depend on the regression metrics |
| ProcessData.CategorizeAqi | src/data/process_data.py:31-43 | the band has severity at most k iff aqi <= 20(k+1), for k < 5 (inclusive bounds 20/40/60/80/100), and is "extremely poor" iff aqi > 100 |
| ProcessData.CategorizeAqiMonotone | src/data/process_data.py:31-43 | a larger index never gives a less severe band |
| ProcessData.LabelsDistinct | src/data/process_data.py:31-43 | the six labels name six different bands |
| ProcessData.CategoryOf | src/data/process_data.py:31-45 | read through categorize_aqi's comparisons: the band has severity at most k iff the cell is a number <= 20(k+1), for k < 5; "extremely poor" iff the cell is not a number (NaN fails every comparison) or exceeds 100 |
| ProcessData.WithCategory | src/data/process_data.py:45 | every row's category is the label of its eu_aqi band; timestamps and all other cells are unchanged |
| ProcessData.FillColumn | src/data/process_data.py:28 | fillna(v) sets exactly the nulls of the column to v and changes no other cell |
| ProcessData.FillAll | src/data/process_data.py:25-28 | the loop keeps every row, its timestamp, and every cell that holds a value |
| ProcessData.FillNulls | src/data/process_data.py:25-28 | the loop over the numeric columns computes FillAll |
| ProcessData.FillAllSpec | src/data/process_data.py:25-28 | keeps rows and timestamps; a null of a listed column with some number becomes the median of that column's original numbers, every other cell is unchanged; afterwards such a column has no nulls |
| ProcessData.Processed | src/data/process_data.py:19-45 | the processed frame has one row per distinct timestamp of the input |
| ProcessData.ProcessedRows | src/data/process_data.py:19-45 | the processed frame has exactly the input's timestamps, each once, and every row carries a category label |
| ProcessData.ProcessData | src/data/process_data.py:16-64 | the dataset file ends as the day-filtered append of the processed frame; the outcome is FirstSave for a missing file, NothingNew when no processed row is on a new day, else Appended with the number of rows on new days (line 61) |
| MergeData.Matches | src/data/merge_data.py:21 | a row's matches are exactly its combinations with the right rows of equal timestamp |
| MergeData.InnerJoin | src/data/merge_data.py:21 | a row is in the join iff it combines a left and a right row with the same timestamp |
| MergeData.InnerJoinDates | src/data/merge_data.py:21 | the join's timestamps are the intersection of the inputs' timestamps |
| MergeData.InnerJoinUnique | src/data/merge_data.py:21 | with unique timestamps on both sides the join has unique timestamps |
| MergeData.InnerJoinCount | src/data/merge_data.py:21 | with unique timestamps on both sides the join has one row per shared timestamp |
| MergeData.MergedRows | src/data/merge_data.py:21-22 | the merged frame is sorted, holds exactly the joined rows and covers exactly the shared timestamps |
| MergeData.Merge | src/data/merge_data.py:10-39 | a missing AQI or weather input is reported and leaves the output alone; otherwise the output ends as the day-filtered append of the sorted join |
| SplitData.Trunc | src/data/split_data.py:22 | int(): truncation toward zero, within 1 of the value on its side of zero |
| SplitData.TestSize | src/data/split_data.py:22 | test_size is at least 1 |
| SplitData.DefaultTestSize | src/data/split_data.py:45 | with ratio 0.1, test_size = max(1, n / 10) in integer division |
| SplitData.TestSizeBounds | src/data/split_data.py:22 | for 0 <= ratio <= 1 and n >= 1, 1 <= test_size <= n |
| SplitData.Cut | src/data/split_data.py:25-26 | iloc[:-k] / iloc[-k:] split at n - k, clamped at 0, leaving min(k, n) rows in the suffix |
| SplitData.SplitData | src/data/split_data.py:8-26 | no split iff the file is missing or empty; train ++ test is the date-sorted input; the test set has min(test_size, n) rows |
| SplitData.SplitSizes | src/data/split_data.py:22-26 | the split is a permutation of the input with a non-empty test set, of exactly test_size rows when 0 <= ratio <= 1 |
| SplitData.SplitIsChronological | src/data/split_data.py:19-26 | no training row is later than any test row |
| ValidateData.Failures | src/data/validate_and_test_data.py:43-45 | an expectation is reported iff it is in the suite and does not hold |
| ValidateData.Validate | src/data/validate_and_test_data.py:24-49 | reports exactly the failing expectations of the four-item suite; none fail iff "date", "pm10" and "category" exist, every pm10 is a number in [0, 500] and no category is null |
| ValidateData.NumericNames | src/data/validate_and_test_data.py:68 | the numeric columns are exactly the header's numeric columns |
| ValidateData.NumericNamesAppend | src/data/validate_and_test_data.py:68-69 | the numeric columns keep header order: the selection distributes over concatenation, and one column is kept iff it is numeric |
| ValidateData.KolmogorovSmirnov | src/data/validate_and_test_data.py:64-76 | passes iff every numeric reference column has p >= 0.05 (so 0.05 passes); otherwise reports the first column with p < 0.05 |
| ValidateData.KsVerdictsExclusive | src/data/validate_and_test_data.py:69-74 | a failing column rules out a pass, and the first failing column is unique |
| ValidateData.DataFiles.ValidateAndTest | src/data/validate_and_test_data.py:78-101 | missing data iff a file is missing; validation failure iff the suite fails; pass iff valid and all KS columns pass; drift only sets the reported flag; the reference becomes the current data iff the run passed |

## Left out

- File and network I/O are not modelled: CSV reading and writing, `os.makedirs`, `shutil.copy` (modelled as replacing the reference frame), dotenv and MLflow setup, printing, and the Open-Meteo fetches in src/data/fetch_data.py (lines 8-80).
- The training and prediction scripts (src/models/train_model.py, src/models/predict_model.py) and src/data/fetch_historic_data.py are not part of this model.
- Library numerics are opaque parameters: the sklearn metrics, the pandas median, `scipy.stats.ks_2samp` and the Evidently drift report.
- Great Expectations internals are reduced to the four expectations. Their suite storage in a data context is not modelled.
- An exception from a model that cannot be loaded is modelled as the evaluator returning None. The script checks only MAE and accuracy (line 106), but the evaluators set all metrics to None together, so this is the same condition.
- A lookup that raises in `get_latest_model` / `get_production_model` is modelled as a model without that stage.
- `pd.to_datetime` on the incoming `date` column (src/data/fetch_data.py:88) is not modelled: timestamps are already integers (seconds). Calendar days are `date / 86400`, so time zones are not modelled.
- Frames.SortByDate: a stable insertion sort; the order pandas gives rows with equal timestamps (its default sort is not stable) is not modelled.
- Frames.KeepLast: that the kept rows stay in input order is not stated as a lemma; only which rows are kept is.
- MergeData.Combine: on a column both inputs have besides `date`, the right cell wins. pandas' `_x`/`_y` suffixes are not modelled.
- ProcessData.CategoryOf: a text `eu_aqi` (a TypeError in Python) is treated like a null. A missing `eu_aqi` column (a KeyError) reads as null.
- ValidateData.KolmogorovSmirnov: a numeric reference column missing from the current data (a KeyError) is compared against an empty sample. The error `ks_2samp` raises on an empty sample is not modelled.
- ProcessData.FillNulls: the numeric columns are given. `select_dtypes` on the pandas dtypes is not modelled.
- SplitData.TestSize: `len(df) * test_size_ratio` is computed exactly on reals, while Python rounds the product in floating point before `int()`. For some ratios the two differ (`int(100 * 0.57)` is 56 in Python, 57 here). For the ratio the program uses, 0.1, `DefaultTestSize` gives `max(1, n / 10)`; that the floating-point product truncates to the same value is not stated here.
- ValidateData.NumericNames: the column kinds are given in each frame's header, not inferred from the values.
- ModelPromotion.EvaluateAndRegister: when both models compare, the regression transitions run before the classification transitions. An interruption between transitions is not modelled.
