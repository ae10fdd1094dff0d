# F1 race-results feature pipeline, modelled in Dafny

This project models the deterministic core of a Formula 1 winner-prediction repository:

- **Flattening.** The Ergast-style season JSON is flattened into one row per race result. `safe_get` walks nested keys, and `parse_season_file` runs three nested loops.
- **Feature pipeline.** It comes in two variants: the clean one in `prepare_features_2.py` and the baseline in `prepare_features.py`.
  - Rows are sorted by (date, season, round), and the numeric fields are coerced.
  - Fastest-lap times are converted with `time_to_seconds`.
  - Per-driver, per-constructor and per-(driver, circuit) features are computed shift-by-one: over the last five earlier rows, or over all earlier rows for the expanding mean.
  - Each row gets the `is_winner` label.
  - The clean variant then drops label, meta and post-race leakage columns, fills each remaining feature with its median, and reattaches the meta columns and the label.
  - The baseline variant instead adds category codes, fills the listed rolling columns with their medians, and keeps the listed output columns that exist.
- **Train/validation split.** This is the temporal split in `train_model_2.py`: the latest season versus the earlier ones, with an 80/20 fallback. It also covers the choice of numeric feature columns and `fillna(0)`.

The modules:

- `Wrappers`: `Option`.
- `Decimal`: `int()` and `float()` on plain decimal literals, and `pd.to_numeric(errors="coerce")` on one cell.
- `Duration`: `str.split(":")` and `time_to_seconds`.
- `Windows`: the window statistics: mean, count of wins, count of podiums, sum.
- `Grouping`: the partition-by-key specification and the imperative engine that groups rows and scatters per-group results into an array indexed by row id.
- `Sorting`: the global sort, and a real-number sort used by the median.
- `Frames`: a column-oriented data frame with selection, drops, median fill and per-name column rewriting.
- `Codes`: `astype("category").cat.codes`.
- `Features`: both feature pipelines.
- `Flatten`: the JSON datatype, `safe_get` and `parse_season_file`.
- `TrainSplit`: the split and the feature matrices.

Rows are identified by their index after the global sort, and every per-group value is written back to that index. The rolling features of the two `apply` steps sort each group by date themselves, so they do not depend on the frame order pandas leaves. The driver-track mean does: its `transform` reads the frame in the order the constructor-level `apply` leaves it. The model computes it in date order, and "## Findings" models the order the source uses.

## Model

| member | source | states |
|---|---|---|
| Decimal.ParseInt | src/prepare_features_2.py:15 | `int(s)` succeeds exactly when s, less an optional sign, is a non-empty run of digits; the value is their decimal value, negated for a leading minus |
| Decimal.ParseDecimal | src/prepare_features_2.py:15-20 | `float(s)` succeeds exactly when s, less an optional sign, is digits with at most one point and at least one digit |
| Decimal.ParseDecimalRejects | src/prepare_features_2.py:12-22 | a text containing any character other than digits, signs and a point is not a float |
| Decimal.ParseDecimalOfDigits | src/prepare_features_2.py:20 | a digit string parses as the float of its decimal value |
| Decimal.ParseIntShowNat | src/prepare_features_2.py:15 | `int()` reads back the decimal rendering of any integer, positive or negative |
| Decimal.ToNumeric | src/prepare_features_2.py:29-31 | coercing a cell gives a value exactly when the cell is present and its text, less a sign, is a plain decimal literal; the value is that literal's float |
| Duration.Split | src/prepare_features_2.py:13 | `split(":")` yields one more part than there are colons |
| Duration.SplitPieces | src/prepare_features_2.py:13 | no part of `split(":")` holds a colon, and joining the parts gives the text back |
| Duration.SplitJoin | src/prepare_features_2.py:13 | splitting a colon-joined list of colon-free parts returns the parts |
| Duration.TimeToSeconds | src/prepare_features_2.py:9-22 | a missing input gives missing; three or more colons give missing, never an error |
| Duration.HoursMinutesSeconds | src/prepare_features_2.py:13-16 | "h:m:s" gives h*3600 + m*60 + s when h and m are integers and s a float |
| Duration.MinutesSeconds | src/prepare_features_2.py:17-19 | "m:s" gives m*60 + s |
| Duration.BareSeconds | src/prepare_features_2.py:20 | a text without a colon gives the float it denotes, or missing |
| Duration.MalformedPieceIsMissing | src/prepare_features_2.py:12-22 | with two or three parts, a non-integer hours or minutes piece or a non-float seconds piece gives missing |
| Duration.ExampleMinutes | src/prepare_features.py:8-9 | "1:23.456" is 83.456 seconds |
| Duration.ExampleHours | src/prepare_features.py:8-9 | "1:02:03.000" is 3723 seconds |
| Windows.Aggregate | src/prepare_features_2.py:43-47 | a window statistic exists exactly when the window holds at least one present value (`min_periods=1`) |
| Windows.MissingIgnored | src/prepare_features_2.py:43-47 | a missing entry anywhere in a window changes no statistic |
| Windows.MeanBounds | src/prepare_features_2.py:43 | the mean lies between any bounds of the present values |
| Windows.CountsBounded | src/prepare_features_2.py:44-45 | 0 <= wins <= podiums <= number of present values <= window length |
| Grouping.Members | src/prepare_features_2.py:41-42 | a partition lists only rows of its key, in increasing row order |
| Grouping.MembersComplete | src/prepare_features_2.py:41-42 | every row of the key before the bound is in the partition |
| Grouping.RollingColumn | src/prepare_features_2.py:41-62 | the feature column has one value per row |
| Grouping.NoLeakage | src/prepare_features_2.py:41-47 | a row's feature depends only on source values of strictly earlier rows with the same key |
| Grouping.FirstOccurrenceMissing | src/prepare_features.py:45-53 | the first row of a key gets a missing feature |
| Grouping.WindowSizeBound | src/prepare_features_2.py:43-47 | the five-row window holds min(k, 5) rows and the expanding one k, where k is the number of earlier rows of the key; all of them are earlier rows of the key |
| Grouping.PreviousRowInWindow | src/prepare_features_2.py:43 | the key's immediately preceding row is always in the window |
| Grouping.WindowNotLater | src/prepare_features_2.py:42-43 | with dates ascending, every window row comes before the row and is dated no later |
| Grouping.PartitionWindow | src/prepare_features_2.py:42-62 | for the t-th row of a partition, the window is partition positions max(0, t-5)..t-1, or 0..t-1 when expanding |
| Grouping.PriorIsEarlierRows | src/prepare_features_2.py:61-62 | the expanding window is exactly the set of strictly earlier rows with the same key |
| Grouping.ScenarioThreeRaces | src/prepare_features_2.py:43-45 | finishes 3, 1, 2: the third race sees mean 2, one win and two podiums |
| Grouping.FindKey | src/prepare_features_2.py:50 | the group lookup returns the index of the key, or the length when the key is new |
| Grouping.GroupRows | src/prepare_features_2.py:50 | groupby with `sort=False`: distinct keys, each group is that key's partition, every row knows its group, and the groups come in first-seen order (each group's first row precedes the next group's) |
| Grouping.SpecAtPartitionRow | src/prepare_features_2.py:41-47 | the value the specification gives a row equals the statistic over its partition positions |
| Grouping.ScatterPartition | src/prepare_features_2.py:41-50 | one group's loop sets each of the group's rows to that row's feature value and leaves every row outside the group unchanged |
| Grouping.BlockOrder | src/prepare_features_2.py:58 | the frame order after a group-concatenating `apply` is a permutation of the rows: as many entries as rows, every row index present, none twice |
| Grouping.FirstSeenKeys | src/prepare_features_2.py:58 | the keys whose blocks the `apply` concatenates are exactly the keys of the rows, each listed once |
| Grouping.RollingAligned | src/prepare_features_2.py:60-62 | `transform` writes the value computed at position p of the frame order to row order[p], one value per row |
| Grouping.RollingFeature | src/prepare_features_2.py:41-62 | grouping, per-group windows and scattering into a row-indexed array give exactly the specified feature column |
| Sorting.SortByKey | src/prepare_features_2.py:26 | the global sort returns a permutation of the rows ordered by (date, season, round) |
| Sorting.SortByKeyStable | src/prepare_features_2.py:26 | the sort is stable: for every key value, the rows with that key come out in their input order, so the rows of one race keep the order in which they were read |
| Sorting.SortReals | src/prepare_features_2.py:95 | the values a median reads, ascending and a permutation of the input |
| Frames.NumericColumns | src/prepare_features_2.py:78 | `select_dtypes(np.number)` keeps exactly the numeric columns |
| Frames.NumericColumnsAppend | src/prepare_features_2.py:78 | `select_dtypes(np.number)` keeps table order: it distributes over a split of the columns |
| Frames.Without | src/prepare_features_2.py:79-80 | dropping names keeps exactly the columns whose names are not dropped |
| Frames.DropEach | src/prepare_features_2.py:83-86 | the meta drop loop removes exactly the listed names |
| Frames.DropMatching | src/prepare_features_2.py:89-91 | the leakage drop loop removes exactly the leakage names |
| Frames.WithoutTwice | src/prepare_features_2.py:79-91 | successive drops equal one drop of the union |
| Frames.Median | src/prepare_features_2.py:95 | the median is missing exactly when no value is present |
| Frames.MedianSplits | src/prepare_features_2.py:95 | at least half the present values are <= the median and at least half are >= it |
| Frames.MedianWithin | src/prepare_features_2.py:95 | the median lies within any bounds of the present values |
| Frames.FillMedian | src/prepare_features_2.py:94-95 | present values are unchanged and missing ones become the median |
| Frames.FillMedianTwice | src/prepare_features_2.py:94-95 | median filling is idempotent |
| Frames.FilledIsComplete | src/prepare_features_2.py:94-95 | with one value present, nothing is missing after the fill |
| Frames.ApplyNamed | src/prepare_features_2.py:29-31 | rewriting by name keeps the column count and every name, and leaves unlisted columns unchanged |
| Frames.ApplyToNamed | src/prepare_features_2.py:29-31 | the in-order conversion loop equals rewriting all listed columns at once |
| Frames.ApplyNamedAll | src/prepare_features_2.py:94-95 | filling all of a frame's names rewrites every column |
| Frames.Kept | src/prepare_features.py:96 | the kept names are exactly the wanted names the frame has |
| Frames.Select | src/prepare_features.py:96-97 | a selection holds only columns of the frame with wanted names |
| Frames.SelectNames | src/prepare_features.py:96 | a selection's names are the wanted names present, in wanted order |
| Codes.CategoryCodes | src/prepare_features.py:71-73 | one code per row, each below the number of distinct values |
| Codes.CategoryCodesFaithful | src/prepare_features.py:71-73 | equal codes exactly for equal ids, and codes follow the sorted order of the ids |
| Codes.CodeInjective | src/prepare_features.py:71-73 | two values of a column share a code exactly when they are equal |
| Codes.CodeMonotone | src/prepare_features.py:71-73 | a value sorting before another gets a smaller code |
| Codes.SmallestCodeZero | src/prepare_features.py:71-73 | the smallest id gets code 0 |
| Features.Infer | src/prepare_features_2.py:25 | a column is read as numeric exactly when every present cell is a number |
| Features.BaseFrame | src/prepare_features_2.py:25 | the table as read: the file's 21 columns, each with one cell per row |
| Features.DatesAscending | src/prepare_features_2.py:26 | after the global sort, dates never decrease |
| Features.CoerceInfer | src/prepare_features_2.py:29-31 | coercing a column as read gives the parsed cells, whatever type was inferred |
| Features.CoercedSources | src/prepare_features_2.py:29-38 | position, points and grid after coercion are the columns the features read; fastest_lap_time is not coerced |
| Features.LapSecondsOfFrame | src/prepare_features_2.py:34-35 | applying `time_to_seconds` to the column as read equals applying it to each raw cell |
| Features.BuildEnriched | src/prepare_features_2.py:25-65 | sort, coercion, lap seconds, the seven rolling features, the track mean and the label give exactly the enriched frame |
| Features.Label | src/prepare_features_2.py:65 | is_winner is 1 exactly when the position is 1, and 0 otherwise, a missing position included |
| Features.EnrichedRectangular | src/prepare_features_2.py:25-65 | every column of the enriched frame has one value per input row |
| Features.DriverFormIsPast | src/prepare_features_2.py:41-50 | a row's driver features read at most five rows, all of them earlier rows of the same driver dated no later |
| Features.TeamWindowSeesTeammate | src/prepare_features_2.py:52-58 | the constructor window counts rows, so a teammate's earlier row from the same race is in it |
| Features.TrackFormIsPast | src/prepare_features_2.py:61-62 | a row's driver-track mean reads every earlier row of the same driver at the same circuit and no other row, none dated later |
| Features.TrackAsWrittenLeaks | src/prepare_features_2.py:58-62 | in the frame order after a group-concatenating constructor `apply`, with the result aligned back to the row index, a driver's earlier visit to a circuit (row 1) gets the finish of a later visit made for another constructor, where the date-ordered feature has no history |
| Features.CandidatesExact | src/prepare_features_2.py:77-91 | the candidate features are exactly the numeric columns that are not the label, meta or leakage |
| Features.CleanTail | src/prepare_features_2.py:70-99 | the last column is the label, and no other column is named is_winner or is a leakage column |
| Features.CleanLayout | src/prepare_features_2.py:77-99 | the output is meta columns, then features, then the label; no feature is label, meta or leakage; each feature is the median fill of a numeric column |
| Features.CandidateKept | src/prepare_features_2.py:77-99 | every numeric non-label, non-meta, non-leakage column appears median-filled in the output |
| Features.CleanRectangular | src/prepare_features_2.py:25-99 | the output has as many rows as the input |
| Features.CleanLabel | src/prepare_features_2.py:65-99 | the last column is is_winner: 1 exactly when the coerced position is 1, otherwise 0 |
| Features.CleanKeepsDriverForm | src/prepare_features_2.py:41-99 | driver_avg_finish_last5 reaches the output, median-filled |
| Features.CleanKeepsTrackForm | src/prepare_features_2.py:61-99 | driver_track_avg_finish reaches the output, median-filled |
| Features.PrepareClean | src/prepare_features_2.py:25-99 | the clean script's steps give exactly the clean output |
| Features.CodeColumn | src/prepare_features.py:71-73 | a code column has one present, non-negative code per row, and equal codes exactly for equal ids |
| Features.BaselineTail | src/prepare_features.py:76-97 | the output columns are exactly the listed feature columns that exist, in list order |
| Features.BaselineColumns | src/prepare_features.py:76-97 | each output column is a listed column: rolling ones median-filled, all others unchanged |
| Features.BaselineKeepsResultFields | src/prepare_features.py:87-96 | the baseline output keeps points, laps and finish_time_millis, which the clean script treats as leakage |
| Features.PrepareBaseline | src/prepare_features.py:26-97 | the baseline script's steps give exactly the baseline output |
| Flatten.AsDict | src/prepare_f1_data.py:24-25 | `x or {}`: a falsy value gives an empty dict, a truthy value must be a dict |
| Flatten.AsList | src/prepare_f1_data.py:27 | `x or []`: a falsy value gives an empty list, a truthy value must be a list |
| Flatten.SafeGet | src/prepare_f1_data.py:9-15 | the key-walking loop returns the value at the full key path, or the default |
| Flatten.WalkEnds | src/prepare_f1_data.py:9-15 | with no keys the value itself comes back; a non-dict or a missing first key gives the default |
| Flatten.WalkAppend | src/prepare_f1_data.py:11-14 | walking a + b is walking a, then b from where a ended |
| Flatten.StripLeft | src/prepare_f1_data.py:53 | strip removes exactly the leading whitespace |
| Flatten.StripRight | src/prepare_f1_data.py:53 | strip removes exactly the trailing whitespace |
| Flatten.DriverNameAbsent | src/prepare_f1_data.py:53 | with both name parts absent the driver name is empty |
| Flatten.DriverNameJoined | src/prepare_f1_data.py:53 | with both parts present and no outer spaces the name is "given family" |
| Flatten.KeyOrder | src/prepare_f1_data.py:19 | the keys of a JSON object, each of them once |
| Flatten.Items | src/prepare_f1_data.py:19-23 | `data.items()` lists each key once, with the value json.load keeps for it |
| Flatten.ItemsDistinct | src/prepare_f1_data.py:19-23 | without repeated keys, the items are the bindings as written |
| Flatten.RepeatedKeyOnce | src/prepare_f1_data.py:19-23 | a repeated round key is iterated once, with the payload bound last |
| Flatten.ParseSeasonFile | src/prepare_f1_data.py:17-64 | the triple loop produces exactly the specified row list |
| Flatten.AppendResults | src/prepare_f1_data.py:36-63 | the result loop appends one row per result to the rows so far |
| Flatten.AppendRaces | src/prepare_f1_data.py:29-63 | the race loop appends each race's rows in race order |
| Flatten.SeasonRowsCount | src/prepare_f1_data.py:23-36 | the number of rows is the total number of Results entries over all payloads and races |
| Flatten.RacesRowsCount | src/prepare_f1_data.py:29-36 | a payload's rows number the results of its races |
| Flatten.PayloadsRowsAppend | src/prepare_f1_data.py:23-41 | rows come in payload order |
| Flatten.RacesRowsAppend | src/prepare_f1_data.py:29-41 | rows come in race order within a payload |
| Flatten.ResultsRowsShape | src/prepare_f1_data.py:36-63 | a race gives one row per result, in result order |
| Flatten.ResultRowCopiesRace | src/prepare_f1_data.py:42-46 | each row copies season, round, race name, date and circuit from its race |
| Flatten.RaceRowsCopy | src/prepare_f1_data.py:26-46 | every row of a race carries the payload's season and the race's fields |
| Flatten.AbsentObjectsGiveNull | src/prepare_f1_data.py:37-62 | absent Driver, Constructor, FastestLap and Time objects give null fields, not errors |
| Flatten.EmptyPayload | src/prepare_f1_data.py:24-27 | a payload without MRData gives no rows |
| TrainSplit.Trunc | src/train_model_2.py:20 | `int()` truncates toward zero |
| TrainSplit.MaxSeason | src/train_model_2.py:18-20 | the maximum is attained by a present season and bounds all present seasons |
| TrainSplit.SeveralSeasonsIff | src/train_model_2.py:18-19 | the season branch is taken exactly when two different present seasons exist |
| TrainSplit.RowsBelow | src/train_model_2.py:21 | the training filter keeps exactly the rows with a present season below the cut, in row order |
| TrainSplit.RowsAt | src/train_model_2.py:22 | the validation filter keeps exactly the rows of the cut season, in row order |
| TrainSplit.TemporalSplit | src/train_model_2.py:17-29 | training and validation rows are row indices of the table, each list ascending, and no row is in both |
| TrainSplit.SeasonSplitExact | src/train_model_2.py:15-22 | train and validation are exactly the rows below and at the cut; they are disjoint, and missing seasons are in neither |
| TrainSplit.ValidationIsLatestSeason | src/train_model_2.py:18-22 | with a whole-number latest season, validation is that season's rows and training is all other rows with a season |
| TrainSplit.FallbackSplit | src/train_model_2.py:24-29 | the fallback trains on the first floor(0.8 n) rows and validates on the rest; together they are all rows in order |
| TrainSplit.FeatureFrame | src/train_model_2.py:35-36 | the feature columns are exactly the numeric columns other than is_winner, season and round |
| TrainSplit.FeatureFrameAppend | src/train_model_2.py:35-36 | feature selection keeps the table's column order |
| TrainSplit.Matrix | src/train_model_2.py:38-41 | one row of reals per selected row, one entry per feature column |
| TrainSplit.MatrixEntries | src/train_model_2.py:38-41 | present values are kept and missing ones become 0 |

## Left out

- I/O: reading and writing CSV files, `json.load`, `os.listdir`, directory creation and printing. The flattened rows (`Flatten.FlatRow`) and the rows the feature scripts read (`Features.RaceResult`) are joined by a CSV round trip that is not modelled. An empty driver name written to CSV is read back as missing.
- The network scripts (`collect_f1_history.py`, `get_latest_f1_winner.py`), `train_model.py`, and the classifier, metrics and model files of `train_model_2.py`.
- Floating point. All values are exact reals. `int(n * 0.8)` is taken as `n * 4 / 5`.
- `float()`, `int()` and `pd.to_numeric` accept only plain decimal literals: an optional sign, digits and at most one point. Whitespace, underscores, exponents, `inf` and `nan` are not modelled.
- Row order of the output frames. After `groupby(...).apply(...)` pandas may leave the rows in group blocks, and the clean output's `reset_index(drop=True)` keeps that order. The model keeps every frame in the order of the global sort, and results are keyed by row index.
- The tie order of `sort_values("date")` inside each group. The model keeps the global sort order for same-date rows of one key, but pandas' default per-group sort is not stable, so the source does not guarantee this order.
- Missing group keys. `driver_id`, `constructor` and `circuit` are always present text, so the rows pandas' groupby would drop for a missing key are not modelled.
- Schema variants. The results file always has its 21 columns, so every `if col in df.columns` guard holds.
- Missing date, season or round, and pandas' bool and datetime dtype inference for other columns. Coercing a date column is not modelled: pandas would turn it into nanosecond counts, and the scripts never coerce one.
- `time_to_seconds` on a column read as numbers is taken as the identity. `str()` of a float reads back as the same float, which is not proved here.
- The median of a non-numeric column. The scripts apply it only to numeric columns, so `Frames.FillCells` leaves other kinds unchanged.
- Duplicate JSON keys. A lookup takes the last binding, as `json.load` keeps it. The top-level loop iterates `Flatten.Items`: each round key once, at its first position, with its last payload. The nested objects are only read by key, never iterated. `Flatten.Show` models `str()` only for strings, null and booleans. A number or container inside the driver name parts is not modelled.
- `TrainSplit.TemporalSplit` takes the season column as already coerced to numbers, with missing entries for unparsable seasons.
- Duration.TimeToSeconds: its contract states only the missing cases. The values of the well-formed cases are stated by the lemmas beside it.
- Features.BuildEnriched: driver_track_avg_finish is computed in the date order of the global sort. The source's `transform` reads the frame in the order the constructor-level `apply` leaves it. When that `apply` concatenates its groups, which pandas does once one group's `sort_values("date")` changes its row order, the frame stands in constructor blocks. A driver who changed constructors can then see a later visit to a circuit before an earlier one. `Features.TrackAsWritten` models that order; see "## Findings".
- Features.Infer: only an empty cell is read as missing. The other strings `read_csv` treats as missing by default ("NA", "N/A", "NaN", "nan", "null", "None", "#N/A" and the like) are kept as text.

## Findings

| source | as written | input that shows it | evidently intended | confidence | as-written member | corrected member |
|---|---|---|---|---|---|---|
| src/prepare_features_2.py:58-62 | the driver-track expanding mean follows the frame's current row order; once the constructor-level `apply` has concatenated its groups, that is constructor blocks in order of first appearance, each in date order (the same code is at src/prepare_features.py:61-65) | row 0: race 1, driver y, constructor A, circuit m, 2nd; row 1: race 1, driver x, constructor B, circuit m, 1st; row 2: race 2, driver x, constructor A, circuit m, 3rd; assuming the constructor-level `apply` concatenates its groups into the blocks A = rows 0, 2 and B = row 1 (it does only when some constructor's `sort_values("date")` reorders that group's rows, which these three rows alone do not cause), row 1, x's race-1 row, gets 3.0, the finish of the later race | the mean of the driver's earlier finishes at the circuit in date order ("only use *past* races", line 40), so row 1 has no history and row 2 gets 1.0 | not executed; medium: the blocks are concatenated only when some constructor's date sort changes that group's row order, which depends on the tie order of pandas' unstable default sort | Features.TrackAsWrittenLeaks | Features.TrackFormIsPast |
