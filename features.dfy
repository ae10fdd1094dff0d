/**
 * The race-results feature pipeline of prepare_features.py and
 * prepare_features_2.py: read the results table, sort it by
 * (date, season, round), coerce the numeric fields, convert the fastest lap
 * time, attach the per-driver, per-constructor and per-(driver, circuit)
 * rolling features and the is_winner label, then finish in one of two ways:
 *
 *  - the clean tail (prepare_features_2.py): keep the numeric columns that are
 *    neither label, meta nor post-race leakage, fill each with its median,
 *    and put the meta columns in front and the label at the end;
 *  - the baseline tail (prepare_features.py): add category codes, fill the
 *    listed rolling columns with their medians, and keep the listed output
 *    columns that exist.
 *
 * Rows are identified by their index after the global sort; every
 * per-group result is written back to its own row.
 */
module Features {
  import opened Wrappers
  import opened Decimal
  import opened Duration
  import opened Windows
  import opened Grouping
  import opened Sorting
  import opened Frames
  import opened Codes

  /**
   * One line of the results table as read_csv(parse_dates=["date"]) sees it:
   * the date as a day number, season and round as integers, the identifiers
   * as text, every other field as the cell text, None where it is empty.
   */
  datatype RaceResult = RaceResult(
    season: int, round: int, raceName: Option<string>, date: int, circuit: string,
    position: Option<string>, positionText: Option<string>, points: Option<string>,
    driverNumber: Option<string>, driverId: string, driverCode: Option<string>,
    driverName: Option<string>, constructorName: string, grid: Option<string>,
    laps: Option<string>, status: Option<string>, finishTime: Option<string>,
    finishTimeMillis: Option<string>, fastestLapRank: Option<string>,
    fastestLapTime: Option<string>, fastestLapNumber: Option<string>)

  // ---------------------------------------------------------------------
  // Reading and sorting
  // ---------------------------------------------------------------------

  function RowKey(r: RaceResult): SortKey {
    SortKey(r.date, r.season, r.round)
  }

  /** sort_values(["date", "season", "round"]).reset_index(drop=True). */
  function SortRows(rows: seq<RaceResult>): seq<RaceResult> {
    SortByKey(rows, RowKey)
  }

  /** Every present cell of the column parses as a number. */
  predicate AllParse(cells: seq<Option<string>>) {
    forall i :: 0 <= i < |cells| && cells[i].Some? ==> ToNumeric(cells[i]).Some?
  }

  function ToNumerics(cells: seq<Option<string>>): (xs: seq<Option<real>>)
    ensures |xs| == |cells|
  {
    seq(|cells|, i requires 0 <= i < |cells| => ToNumeric(cells[i]))
  }

  /** read_csv's dtype inference: a column is numeric when every present cell is a number. */
  function Infer(cells: seq<Option<string>>): (c: Cells)
    ensures Height(c) == |cells|
    ensures c.Numeric? <==> AllParse(cells)
  {
    if AllParse(cells) then Numeric(ToNumerics(cells)) else Text(cells)
  }

  /** The fields of a results row, in the file's column order. */
  datatype Field =
    | SeasonF | RoundF | RaceNameF | DateF | CircuitF | PositionF | PositionTextF
    | PointsF | DriverNumberF | DriverIdF | DriverCodeF | DriverNameF | ConstructorF
    | GridF | LapsF | StatusF | FinishTimeF | FinishTimeMillisF | FastestLapRankF
    | FastestLapTimeF | FastestLapNumberF

  /** The cell text of a field that read_csv types by inference. */
  function CellText(r: RaceResult, f: Field): Option<string> {
    match f
    case SeasonF => None
    case RoundF => None
    case DateF => None
    case CircuitF => Some(r.circuit)
    case DriverIdF => Some(r.driverId)
    case ConstructorF => Some(r.constructorName)
    case RaceNameF => r.raceName
    case PositionF => r.position
    case PositionTextF => r.positionText
    case PointsF => r.points
    case DriverNumberF => r.driverNumber
    case DriverCodeF => r.driverCode
    case DriverNameF => r.driverName
    case GridF => r.grid
    case LapsF => r.laps
    case StatusF => r.status
    case FinishTimeF => r.finishTime
    case FinishTimeMillisF => r.finishTimeMillis
    case FastestLapRankF => r.fastestLapRank
    case FastestLapTimeF => r.fastestLapTime
    case FastestLapNumberF => r.fastestLapNumber
  }

  function TextField(s: seq<RaceResult>, f: Field): (cells: seq<Option<string>>)
    ensures |cells| == |s|
  {
    seq(|s|, i requires 0 <= i < |s| => CellText(s[i], f))
  }

  /**
   * A column as read: season and round are integers, date is parsed, the
   * identifiers are text, every other field is typed by inference.
   */
  function Read(s: seq<RaceResult>, f: Field): (c: Cells)
    ensures Height(c) == |s|
  {
    match f
    case SeasonF => Numeric(seq(|s|, i requires 0 <= i < |s| => Some(s[i].season as real)))
    case RoundF => Numeric(seq(|s|, i requires 0 <= i < |s| => Some(s[i].round as real)))
    case DateF => Dates(seq(|s|, i requires 0 <= i < |s| => s[i].date))
    case CircuitF => Text(TextField(s, f))
    case DriverIdF => Text(TextField(s, f))
    case ConstructorF => Text(TextField(s, f))
    case _ => Infer(TextField(s, f))
  }

  /** The column names of the results file and the field each holds. */
  const Schema: seq<(string, Field)> := [
    ("season", SeasonF), ("round", RoundF), ("race_name", RaceNameF), ("date", DateF),
    ("circuit", CircuitF), ("position", PositionF), ("position_text", PositionTextF),
    ("points", PointsF), ("driver_number", DriverNumberF), ("driver_id", DriverIdF),
    ("driver_code", DriverCodeF), ("driver_name", DriverNameF), ("constructor", ConstructorF),
    ("grid", GridF), ("laps", LapsF), ("status", StatusF), ("finish_time", FinishTimeF),
    ("finish_time_millis", FinishTimeMillisF), ("fastest_lap_rank", FastestLapRankF),
    ("fastest_lap_time", FastestLapTimeF), ("fastest_lap_number", FastestLapNumberF)
  ]

  /** The table as read, one column per schema entry. */
  function BaseFrame(s: seq<RaceResult>): (f: Frame)
    ensures |f| == |Schema| && Rectangular(f, |s|)
    ensures forall j :: 0 <= j < |f| ==> f[j] == Column(Schema[j].0, Read(s, Schema[j].1))
  {
    seq(|Schema|, j requires 0 <= j < |Schema| => Column(Schema[j].0, Read(s, Schema[j].1)))
  }

  /** The fields converted with pd.to_numeric(errors="coerce"), in loop order. */
  const CoercedNames: seq<string> :=
    ["position", "grid", "laps", "points", "finish_time_millis", "fastest_lap_rank", "fastest_lap_number"]

  // ---------------------------------------------------------------------
  // Derived columns
  // ---------------------------------------------------------------------

  /** A field after pd.to_numeric(errors="coerce"). */
  function NumericField(s: seq<RaceResult>, f: Field): (xs: seq<Option<real>>)
    ensures |xs| == |s|
  {
    ToNumerics(TextField(s, f))
  }

  /** position_numeric: the coerced finishing position. */
  function Positions(s: seq<RaceResult>): (xs: seq<Option<real>>)
    ensures |xs| == |s|
  {
    NumericField(s, PositionF)
  }

  function Grids(s: seq<RaceResult>): (xs: seq<Option<real>>)
    ensures |xs| == |s|
  {
    NumericField(s, GridF)
  }

  function PointsOf(s: seq<RaceResult>): (xs: seq<Option<real>>)
    ensures |xs| == |s|
  {
    NumericField(s, PointsF)
  }

  /** fastest_lap_time_sec: time_to_seconds of each fastest lap time. */
  function LapSeconds(s: seq<RaceResult>): (xs: seq<Option<real>>)
    ensures |xs| == |s|
  {
    seq(|s|, i requires 0 <= i < |s| => TimeToSeconds(s[i].fastestLapTime))
  }

  /**
   * Series.apply(time_to_seconds) on the column as read: a numeric column
   * goes through str() and float() unchanged, a text column is parsed cell
   * by cell.
   */
  function ApplyTimeToSeconds(c: Cells): seq<Option<real>> {
    match c
    case Numeric(xs) => xs
    case Text(ts) => seq(|ts|, i requires 0 <= i < |ts| => TimeToSeconds(ts[i]))
    case Dates(ds) => seq(|ds|, i requires 0 <= i < |ds| => None)
  }

  function DriverKeys(s: seq<RaceResult>): (ks: seq<string>)
    ensures |ks| == |s|
  {
    seq(|s|, i requires 0 <= i < |s| => s[i].driverId)
  }

  function TeamKeys(s: seq<RaceResult>): (ks: seq<string>)
    ensures |ks| == |s|
  {
    seq(|s|, i requires 0 <= i < |s| => s[i].constructorName)
  }

  function CircuitKeys(s: seq<RaceResult>): (ks: seq<string>)
    ensures |ks| == |s|
  {
    seq(|s|, i requires 0 <= i < |s| => s[i].circuit)
  }

  /** The joint (driver_id, circuit) key of the driver-track feature. */
  function TrackKeys(s: seq<RaceResult>): (ks: seq<(string, string)>)
    ensures |ks| == |s|
  {
    seq(|s|, i requires 0 <= i < |s| => (s[i].driverId, s[i].circuit))
  }

  /** is_winner: (position_numeric == 1).astype(int); a missing position is not a win. */
  function Label(pos: seq<Option<real>>): (ys: seq<Option<real>>)
    ensures |ys| == |pos|
    ensures forall i :: 0 <= i < |pos| ==> (ys[i] == Some(1.0) <==> pos[i] == Some(1.0))
    ensures forall i :: 0 <= i < |pos| ==> ys[i] == Some(1.0) || ys[i] == Some(0.0)
  {
    seq(|pos|, i requires 0 <= i < |pos| => Some(if pos[i] == Some(1.0) then 1.0 else 0.0))
  }

  /** The columns added after the coercion loop, in the order they are assigned. */
  function Derived(s: seq<RaceResult>): (f: Frame)
    ensures |f| == 11 && Rectangular(f, |s|)
  {
    var pos := Positions(s);
    [ Column("fastest_lap_time_sec", Numeric(LapSeconds(s))),
      Column("position_numeric", Numeric(pos)),
      Column("driver_avg_finish_last5", Numeric(RollingColumn(DriverKeys(s), pos, Mean, LastFive))),
      Column("driver_wins_last5", Numeric(RollingColumn(DriverKeys(s), pos, Wins, LastFive))),
      Column("driver_podiums_last5", Numeric(RollingColumn(DriverKeys(s), pos, Podiums, LastFive))),
      Column("driver_avg_grid_last5", Numeric(RollingColumn(DriverKeys(s), Grids(s), Mean, LastFive))),
      Column("driver_points_last5", Numeric(RollingColumn(DriverKeys(s), PointsOf(s), Sum, LastFive))),
      Column("constructor_avg_finish_last5", Numeric(RollingColumn(TeamKeys(s), pos, Mean, LastFive))),
      Column("constructor_points_last5", Numeric(RollingColumn(TeamKeys(s), PointsOf(s), Sum, LastFive))),
      Column("driver_track_avg_finish", Numeric(RollingColumn(TrackKeys(s), pos, Mean, Expanding))),
      Column("is_winner", Numeric(Label(pos))) ]
  }

  /** The frame both scripts hold after the label is added. */
  function Enriched(rows: seq<RaceResult>): Frame {
    var s := SortRows(rows);
    ApplyNamed(BaseFrame(s), CoercedNames, ToNumericOp) + Derived(s)
  }

  /** Lines 25-65 of prepare_features_2.py and 26-68 of prepare_features.py. */
  method BuildEnriched(rows: seq<RaceResult>) returns (df: Frame)
    ensures df == Enriched(rows)
  {
    var s := SortRows(rows);
    df := BaseFrame(s);
    df := ApplyToNamed(df, CoercedNames, ToNumericOp);
    var pos := Positions(s);
    var drivers := DriverKeys(s);
    var teams := TeamKeys(s);
    var tracks := TrackKeys(s);
    var avgFinish := RollingFeature(drivers, pos, Mean, LastFive);
    var wins := RollingFeature(drivers, pos, Wins, LastFive);
    var podiums := RollingFeature(drivers, pos, Podiums, LastFive);
    var avgGrid := RollingFeature(drivers, Grids(s), Mean, LastFive);
    var points := RollingFeature(drivers, PointsOf(s), Sum, LastFive);
    var teamFinish := RollingFeature(teams, pos, Mean, LastFive);
    var teamPoints := RollingFeature(teams, PointsOf(s), Sum, LastFive);
    var track := RollingFeature(tracks, pos, Mean, Expanding);
    df := df + [
      Column("fastest_lap_time_sec", Numeric(LapSeconds(s))),
      Column("position_numeric", Numeric(pos)),
      Column("driver_avg_finish_last5", Numeric(avgFinish)),
      Column("driver_wins_last5", Numeric(wins)),
      Column("driver_podiums_last5", Numeric(podiums)),
      Column("driver_avg_grid_last5", Numeric(avgGrid)),
      Column("driver_points_last5", Numeric(points)),
      Column("constructor_avg_finish_last5", Numeric(teamFinish)),
      Column("constructor_points_last5", Numeric(teamPoints)),
      Column("driver_track_avg_finish", Numeric(track)),
      Column("is_winner", Numeric(Label(pos))) ];
  }

  // ---------------------------------------------------------------------
  // The clean tail (prepare_features_2.py)
  // ---------------------------------------------------------------------

  const LeakageCols: set<string> := {
    "position", "position_text", "points", "finish_time_millis",
    "fastest_lap_time", "fastest_lap_time_sec",
    "fastest_lap_rank", "fastest_lap_number", "driver_number",
    "position_numeric", "laps"
  }

  const MetaCols: seq<string> :=
    ["season", "round", "date", "race_name", "driver_id", "driver_name", "constructor", "circuit"]

  /** The candidate features: numeric, and neither label, meta nor leakage. */
  function Candidates(df: Frame): Frame {
    Without(Without(Without(NumericColumns(df), {"is_winner"}), SetOf(MetaCols)), LeakageCols)
  }

  /**
   * The clean output built from a frame and its label values: the meta
   * columns it has, then its candidate features median-filled, then the label.
   */
  function CleanTail(df: Frame, winner: seq<Option<real>>): (out: Frame)
    ensures |out| > 0 && out[|out| - 1] == Column("is_winner", Numeric(winner))
    ensures forall j :: 0 <= j < |out| - 1 ==> out[j].name != "is_winner" && out[j].name !in LeakageCols
  {
    var meta := Select(df, MetaCols);
    var numeric := Candidates(df);
    var filled := ApplyNamed(numeric, Names(numeric), FillMedianOp);
    MetaAllowed(df);
    FilledAllowed(numeric);
    AllowedConcat(meta, filled, Column("is_winner", Numeric(winner)));
    meta + filled + [Column("is_winner", Numeric(winner))]
  }

  /** A feature name of the clean output: neither the label nor a leakage column. */
  predicate Allowed(name: string) {
    name != "is_winner" && name !in LeakageCols
  }

  lemma MetaAllowed(df: Frame)
    ensures forall c :: c in Select(df, MetaCols) ==> Allowed(c.name)
  {
    forall c | c in Select(df, MetaCols) ensures Allowed(c.name) {
      MetaNameAllowed(c.name);
    }
  }

  /** No meta column is the label or a leakage column. */
  lemma MetaNameAllowed(name: string)
    requires name in MetaCols
    ensures Allowed(name)
  {
  }

  lemma FilledAllowed(numeric: Frame)
    requires forall c :: c in numeric ==> Allowed(c.name)
    ensures forall c :: c in ApplyNamed(numeric, Names(numeric), FillMedianOp) ==> Allowed(c.name)
  {
    var filled := ApplyNamed(numeric, Names(numeric), FillMedianOp);
    forall c | c in filled ensures Allowed(c.name) {
      var k :| 0 <= k < |filled| && filled[k] == c;
      assert Names(filled)[k] == Names(numeric)[k] && numeric[k] in numeric;
    }
  }

  lemma AllowedConcat(a: Frame, b: Frame, last: Column)
    requires forall c :: c in a ==> Allowed(c.name)
    requires forall c :: c in b ==> Allowed(c.name)
    ensures forall j :: 0 <= j < |a + b + [last]| - 1 ==> Allowed((a + b + [last])[j].name)
  {
    forall j | 0 <= j < |a + b + [last]| - 1 ensures Allowed((a + b + [last])[j].name) {
      if j < |a| {
        assert (a + b + [last])[j] == a[j] && a[j] in a;
      } else {
        assert (a + b + [last])[j] == b[j - |a|] && b[j - |a|] in b;
      }
    }
  }

  /** The output of prepare_features_2.py. */
  function CleanFeatures(rows: seq<RaceResult>): Frame {
    CleanTail(Enriched(rows), Label(Positions(SortRows(rows))))
  }

  /** prepare_features_2 from the sorted read to the concatenated output (lines 25-99). */
  method PrepareClean(rows: seq<RaceResult>) returns (out: Frame)
    ensures out == CleanFeatures(rows)
  {
    var df := BuildEnriched(rows);
    var numeric := NumericColumns(df);
    numeric := Without(numeric, {"is_winner"});
    numeric := DropEach(numeric, MetaCols);
    numeric := DropMatching(numeric, LeakageCols);
    numeric := ApplyToNamed(numeric, Names(numeric), FillMedianOp);
    out := Select(df, MetaCols) + numeric + [Column("is_winner", Numeric(Label(Positions(SortRows(rows)))))];
  }

  // ---------------------------------------------------------------------
  // The baseline tail (prepare_features.py)
  // ---------------------------------------------------------------------

  const RollingCols: seq<string> := [
    "driver_avg_finish_last5", "driver_wins_last5", "driver_podiums_last5",
    "driver_avg_grid_last5", "driver_points_last5",
    "constructor_avg_finish_last5", "constructor_points_last5",
    "driver_track_avg_finish", "fastest_lap_time_sec"
  ]

  const OutputCols: seq<string> := [
    "season", "round", "date", "race_name", "driver_id", "driver_name", "constructor",
    "grid", "laps", "points", "finish_time_millis", "fastest_lap_time_sec",
    "driver_code_num", "constructor_code_num", "circuit_code_num",
    "driver_avg_finish_last5", "driver_wins_last5", "driver_podiums_last5",
    "driver_avg_grid_last5", "driver_points_last5",
    "constructor_avg_finish_last5", "constructor_points_last5",
    "driver_track_avg_finish", "is_winner"
  ]

  /** A cat.codes column as a numeric column. */
  function CodeColumn(name: string, values: seq<string>): (c: Column)
    ensures c.name == name && c.cells.Numeric? && |c.cells.values| == |values|
    ensures forall i :: 0 <= i < |values| ==> c.cells.values[i].Some? && c.cells.values[i].value >= 0.0
    ensures forall i, j :: 0 <= i < |values| && 0 <= j < |values| ==>
      (c.cells.values[i] == c.cells.values[j] <==> values[i] == values[j])
  {
    var codes := CategoryCodes(values);
    var c := Column(name, Numeric(seq(|codes|, i requires 0 <= i < |codes| => Some(codes[i] as real))));
    assert forall i, j :: 0 <= i < |values| && 0 <= j < |values| ==>
      (c.cells.values[i] == c.cells.values[j] <==> values[i] == values[j]) by {
      forall i, j | 0 <= i < |values| && 0 <= j < |values|
        ensures c.cells.values[i] == c.cells.values[j] <==> values[i] == values[j]
      {
        CategoryCodesFaithful(values, i, j);
      }
    }
    c
  }

  /** The frame after the three code columns are added (lines 71-73). */
  function WithCodes(rows: seq<RaceResult>): Frame {
    var s := SortRows(rows);
    Enriched(rows) + [
      CodeColumn("driver_code_num", DriverKeys(s)),
      CodeColumn("constructor_code_num", TeamKeys(s)),
      CodeColumn("circuit_code_num", CircuitKeys(s)) ]
  }

  /** The baseline output built from a frame: fill the rolling columns, keep the listed ones. */
  function BaselineTail(df: Frame): (out: Frame)
    ensures Names(out) == Kept(OutputCols, Names(df))
  {
    var filled := ApplyNamed(df, RollingCols, FillMedianOp);
    SelectNames(filled, OutputCols);
    Select(filled, OutputCols)
  }

  /** The output of prepare_features.py. */
  function BaselineFeatures(rows: seq<RaceResult>): Frame {
    BaselineTail(WithCodes(rows))
  }

  /** prepare_features from the sorted read to the selected output columns (lines 26-97). */
  method PrepareBaseline(rows: seq<RaceResult>) returns (out: Frame)
    ensures out == BaselineFeatures(rows)
  {
    var df := BuildEnriched(rows);
    var s := SortRows(rows);
    df := df + [
      CodeColumn("driver_code_num", DriverKeys(s)),
      CodeColumn("constructor_code_num", TeamKeys(s)),
      CodeColumn("circuit_code_num", CircuitKeys(s)) ];
    df := ApplyToNamed(df, RollingCols, FillMedianOp);
    out := Select(df, OutputCols);
  }

  // ---------------------------------------------------------------------
  // Properties of the shared front half
  // ---------------------------------------------------------------------

  /** After the global sort the rows run through time: dates never decrease. */
  lemma DatesAscending(rows: seq<RaceResult>, a: nat, b: nat)
    requires a < b < |rows|
    ensures var s := SortRows(rows); s[a].date <= s[b].date
  {
    var s := SortRows(rows);
    assert KeyLe(RowKey(s[a]), RowKey(s[b]));
  }

  /** pd.to_numeric on a column as read gives the parsed cells, whichever type read_csv inferred. */
  lemma CoerceInfer(cells: seq<Option<string>>)
    ensures Coerce(Infer(cells)) == Numeric(ToNumerics(cells))
  {
    if !AllParse(cells) {
      assert |Coerce(Infer(cells)).values| == |ToNumerics(cells)|;
    }
  }

  /** A text that parses as a float holds no colon. */
  lemma NumberHasNoColon(c: string)
    requires ParseDecimal(c).Some?
    ensures ':' !in c
  {
    if ':' in c {
      var i :| 0 <= i < |c| && c[i] == ':';
      ParseDecimalRejects(c, i, ':');
    }
  }

  /**
   * The fastest lap seconds are time_to_seconds of each raw cell, also when
   * read_csv already typed the column as numbers.
   */
  lemma LapSecondsOfFrame(s: seq<RaceResult>)
    ensures ApplyTimeToSeconds(Read(s, FastestLapTimeF)) == LapSeconds(s)
  {
    var cells := TextField(s, FastestLapTimeF);
    assert Read(s, FastestLapTimeF) == Infer(cells);
    InferredLapSeconds(cells);
    forall i | 0 <= i < |s| ensures cells[i] == s[i].fastestLapTime {
    }
  }

  /** time_to_seconds over a column as read is time_to_seconds of each cell. */
  lemma InferredLapSeconds(cells: seq<Option<string>>)
    ensures ApplyTimeToSeconds(Infer(cells)) == seq(|cells|, i requires 0 <= i < |cells| => TimeToSeconds(cells[i]))
  {
    if AllParse(cells) {
      forall i | 0 <= i < |cells|
        ensures ToNumerics(cells)[i] == TimeToSeconds(cells[i])
      {
        LapCell(cells[i]);
      }
    }
  }

  /** A cell that parses as a float is read by time_to_seconds as the same number. */
  lemma LapCell(cell: Option<string>)
    requires cell.Some? ==> ToNumeric(cell).Some?
    ensures ToNumeric(cell) == TimeToSeconds(cell)
  {
    if cell.Some? {
      NumberHasNoColon(cell.value);
      BareSeconds(cell.value);
    }
  }

  /**
   * The inputs of the rolling features are the coerced frame's columns:
   * position_numeric and the position, grid and points columns after
   * pd.to_numeric, and fastest_lap_time as read.
   */
  lemma CoercedSources(s: seq<RaceResult>)
    ensures var g := ApplyNamed(BaseFrame(s), CoercedNames, ToNumericOp);
      && g[5] == Column("position", Numeric(Positions(s)))
      && g[7] == Column("points", Numeric(PointsOf(s)))
      && g[13] == Column("grid", Numeric(Grids(s)))
      && g[19] == Column("fastest_lap_time", Read(s, FastestLapTimeF))
  {
    CoercedPosition(s);
    CoercedPoints(s);
    CoercedGrid(s);
    LapTimeUncoerced(s);
  }

  lemma CoercedPosition(s: seq<RaceResult>)
    ensures ApplyNamed(BaseFrame(s), CoercedNames, ToNumericOp)[5] == Column("position", Numeric(Positions(s)))
  {
    CoercedAt(s, 5, "position", PositionF);
  }

  lemma CoercedPoints(s: seq<RaceResult>)
    ensures ApplyNamed(BaseFrame(s), CoercedNames, ToNumericOp)[7] == Column("points", Numeric(PointsOf(s)))
  {
    CoercedAt(s, 7, "points", PointsF);
  }

  lemma CoercedGrid(s: seq<RaceResult>)
    ensures ApplyNamed(BaseFrame(s), CoercedNames, ToNumericOp)[13] == Column("grid", Numeric(Grids(s)))
  {
    CoercedAt(s, 13, "grid", GridF);
  }

  /** fastest_lap_time is not among the coerced columns. */
  lemma LapTimeUncoerced(s: seq<RaceResult>)
    ensures ApplyNamed(BaseFrame(s), CoercedNames, ToNumericOp)[19] == Column("fastest_lap_time", Read(s, FastestLapTimeF))
  {
    assert BaseFrame(s)[19].name !in CoercedNames;
  }

  /** A coerced column whose type was inferred becomes the parsed cells of its field. */
  lemma CoercedAt(s: seq<RaceResult>, j: nat, name: string, fld: Field)
    requires j < |Schema| && Schema[j] == (name, fld) && name in CoercedNames
    requires Read(s, fld) == Infer(TextField(s, fld))
    ensures ApplyNamed(BaseFrame(s), CoercedNames, ToNumericOp)[j] == Column(name, Numeric(NumericField(s, fld)))
  {
    var f := BaseFrame(s);
    assert f[j] == Column(name, Infer(TextField(s, fld)));
    ApplyNamedAt(f, CoercedNames, ToNumericOp, j);
    CoerceInfer(TextField(s, fld));
  }

  /** Every column of the enriched frame has one cell per input row. */
  lemma EnrichedRectangular(rows: seq<RaceResult>)
    ensures Rectangular(Enriched(rows), |rows|)
  {
    var s := SortRows(rows);
    var g := ApplyNamed(BaseFrame(s), CoercedNames, ToNumericOp);
    assert Rectangular(g, |s|) by {
      forall j | 0 <= j < |g| ensures Height(g[j].cells) == |s| {
        assert g[j] == (if BaseFrame(s)[j].name in CoercedNames then ApplyOp(ToNumericOp, BaseFrame(s)[j]) else BaseFrame(s)[j]);
      }
    }
    var d := Derived(s);
    forall j | 0 <= j < |g + d| ensures Height((g + d)[j].cells) == |rows| {
      if j < |g| {
        assert (g + d)[j] == g[j];
      } else {
        assert (g + d)[j] == d[j - |g|];
      }
    }
  }

  /**
   * The driver features of row i look only at that driver's earlier rows,
   * none dated later than row i's race, and at no more than five of them.
   */
  lemma DriverFormIsPast(rows: seq<RaceResult>, i: nat)
    requires i < |rows|
    ensures var s := SortRows(rows);
      var w := WindowIds(DriverKeys(s), i, LastFive);
      && |w| <= WindowSize
      && forall t :: 0 <= t < |w| ==> w[t] < i && s[w[t]].driverId == s[i].driverId && s[w[t]].date <= s[i].date
  {
    var s := SortRows(rows);
    var keys := DriverKeys(s);
    var dates := seq(|s|, k requires 0 <= k < |s| => s[k].date);
    forall a, b | 0 <= a < b < |dates| ensures dates[a] <= dates[b] {
      DatesAscending(rows, a, b);
    }
    WindowNotLater(keys, dates, i, LastFive);
    WindowSizeBound(keys, i);
    var w := WindowIds(keys, i, LastFive);
    forall t | 0 <= t < |w| ensures s[w[t]].driverId == s[i].driverId {
      var p := Prior(keys, i);
      assert w[t] in p;
      var u :| 0 <= u < |p| && p[u] == w[t];
    }
  }

  /**
   * The constructor window counts rows, not races: the team's previous row
   * is in the window even when it is a teammate's result from the same race.
   */
  lemma TeamWindowSeesTeammate(rows: seq<RaceResult>, i: nat, j: nat)
    requires j < i < |rows|
    requires var s := SortRows(rows);
      && s[j].constructorName == s[i].constructorName
      && forall m :: j < m < i ==> s[m].constructorName != s[i].constructorName
    ensures j in WindowIds(TeamKeys(SortRows(rows)), i, LastFive)
  {
    PreviousRowInWindow(TeamKeys(SortRows(rows)), i, j);
  }

  /**
   * The driver-track feature is past-only: its window is the earlier rows of
   * the same driver at the same circuit, every one of them, none dated later.
   */
  lemma TrackFormIsPast(rows: seq<RaceResult>, i: nat)
    requires i < |rows|
    ensures var s := SortRows(rows);
      var w := WindowIds(TrackKeys(s), i, Expanding);
      && |w| == |EarlierRows(TrackKeys(s), i)|
      && forall t :: 0 <= t < |w| ==>
        (&& w[t] < i && s[w[t]].driverId == s[i].driverId
         && s[w[t]].circuit == s[i].circuit && s[w[t]].date <= s[i].date)
  {
    var s := SortRows(rows);
    var keys := TrackKeys(s);
    var dates := seq(|s|, k requires 0 <= k < |s| => s[k].date);
    forall a, b | 0 <= a < b < |dates| ensures dates[a] <= dates[b] {
      DatesAscending(rows, a, b);
    }
    WindowNotLater(keys, dates, i, Expanding);
    WindowSizeBound(keys, i);
    var w := WindowIds(keys, i, Expanding);
    forall t | 0 <= t < |w| ensures keys[w[t]] == keys[i] {
      assert w[t] in EarlierRows(keys, i);
    }
  }

  // ---------------------------------------------------------------------
  // The driver-track transform in the frame order the source leaves
  // ---------------------------------------------------------------------

  /**
   * driver_track_avg_finish as the transform computes it over a frame that
   * the constructor-level apply has left in constructor blocks: the blocks in
   * order of first appearance, each in date order. Each row receives the
   * expanding mean over the frame positions before its own with the same
   * (driver, circuit), aligned back to its row index.
   */
  function TrackAfterTeamApply(teams: seq<string>, tracks: seq<(string, string)>, pos: seq<Option<real>>)
    : (col: seq<Option<real>>)
    requires |teams| == |tracks| == |pos|
    ensures |col| == |teams|
  {
    RollingAligned(tracks, pos, Mean, Expanding, BlockOrder(teams))
  }

  /** The same for the sorted results. */
  function TrackAsWritten(s: seq<RaceResult>): (col: seq<Option<real>>)
    ensures |col| == |s|
  {
    TrackAfterTeamApply(TeamKeys(s), TrackKeys(s), Positions(s))
  }

  /**
   * Row 0: driver y for A at circuit m, 2nd. Row 1: driver x for B at m,
   * 1st, same race. Row 2: driver x for A at m, 3rd, a later race. A's block
   * comes first, so the transform reaches x's later race before the earlier
   * one, and row 1, the earlier race, is given the later finish; in date
   * order it has no history and the later race sees the earlier finish.
   */
  lemma TrackAsWrittenLeaks()
    ensures var teams, tracks, pos := ["A", "B", "A"], [("y", "m"), ("x", "m"), ("x", "m")], [Some(2.0), Some(1.0), Some(3.0)];
      && BlockOrder(teams) == [0, 2, 1]
      && TrackAfterTeamApply(teams, tracks, pos)[1] == pos[2]
      && RollingColumn(tracks, pos, Mean, Expanding)[1] == None
      && RollingColumn(tracks, pos, Mean, Expanding)[2] == pos[1]
  {
    var teams, tracks, pos := ["A", "B", "A"], [("y", "m"), ("x", "m"), ("x", "m")], [Some(2.0), Some(1.0), Some(3.0)];
    assert teams[0] != teams[1] by {
      assert teams[0][0] != teams[1][0];
    }
    assert tracks[0] != tracks[1] by {
      assert tracks[0].0[0] != tracks[1].0[0];
    }
    TeamBlocks(teams);
    AsWrittenShape(teams, tracks, pos);
    DateOrderShape(tracks, pos);
  }

  /** x's later visit comes first in the block order, so row 1, the earlier visit, read last, averages its finish. */
  lemma AsWrittenShape(teams: seq<string>, tracks: seq<(string, string)>, pos: seq<Option<real>>)
    requires |teams| == |tracks| == |pos| == 3
    requires var order := BlockOrder(teams); |order| == 3 && order[0] == 0 && order[1] == 2 && order[2] == 1
    requires tracks[0] != tracks[1] && tracks[2] == tracks[1] && pos[2].Some?
    ensures TrackAfterTeamApply(teams, tracks, pos)[1] == pos[2]
  {
    ReorderedLeak(tracks, pos, BlockOrder(teams));
  }

  /** In date order x's first visit has no history and the second averages the first. */
  lemma DateOrderShape(tracks: seq<(string, string)>, pos: seq<Option<real>>)
    requires |tracks| == |pos| == 3
    requires tracks[0] != tracks[1] && tracks[2] == tracks[1] && pos[1].Some?
    ensures RollingColumn(tracks, pos, Mean, Expanding)[1] == None
    ensures RollingColumn(tracks, pos, Mean, Expanding)[2] == pos[1]
  {
    FirstOccurrenceMissing(tracks, pos, Mean, Expanding, 1);
    LaterOfTwo(tracks, pos);
  }

  /** Read in the order 0, 2, 1, the expanding mean at the last position is row 2's value. */
  lemma ReorderedLeak(tracks: seq<(string, string)>, pos: seq<Option<real>>, order: seq<nat>)
    requires |tracks| == |pos| == 3 && |order| == 3 && order[0] == 0 && order[1] == 2 && order[2] == 1
    requires tracks[0] != tracks[1] && tracks[2] == tracks[1] && pos[2].Some?
    ensures RollingInOrder(tracks, pos, Mean, Expanding, order)[2] == pos[2]
  {
    var keys, src := Reorder(tracks, order), Reorder(pos, order);
    assert keys[0] == tracks[0] && keys[1] == tracks[2] && keys[2] == tracks[1];
    assert src[1] == pos[2];
    LaterOfTwo(keys, src);
  }

  /** Three rows of two constructors, the first one's rows around the other's. */
  lemma TeamBlocks(teams: seq<string>)
    requires |teams| == 3 && teams[0] != teams[1] && teams[2] == teams[0]
    ensures BlockOrder(teams) == [0, 2, 1]
    ensures |BlockOrder(teams)| == 3 && BlockOrder(teams)[0] == 0 && BlockOrder(teams)[1] == 2 && BlockOrder(teams)[2] == 1
  {
    var a, b := teams[0], teams[1];
    FirstSeenThree(teams);
    PartitionsThree(teams);
    assert [a, b][1..] == [b] && [b][1..] == [];
    assert Blocks(teams, [b]) == [1];
  }

  lemma FirstSeenThree(teams: seq<string>)
    requires |teams| == 3 && teams[0] != teams[1] && teams[2] == teams[0]
    ensures FirstSeen(teams, 3) == [teams[0], teams[1]]
  {
    assert FirstSeen(teams, 1) == [teams[0]];
    assert FirstSeen(teams, 2) == [teams[0], teams[1]];
  }

  lemma PartitionsThree(teams: seq<string>)
    requires |teams| == 3 && teams[0] != teams[1] && teams[2] == teams[0]
    ensures Partition(teams, teams[0]) == [0, 2] && Partition(teams, teams[1]) == [1]
  {
    var a, b := teams[0], teams[1];
    assert Members(teams, a, 0) == [] && Members(teams, b, 0) == [];
    assert Members(teams, a, 1) == [0] && Members(teams, b, 1) == [];
    assert Members(teams, a, 2) == [0] && Members(teams, b, 2) == [1];
    assert Members(teams, a, 3) == [0, 2] && Members(teams, b, 3) == [1];
  }

  /** Two rows of one key after a row of another: the later one averages the earlier one's finish. */
  lemma LaterOfTwo(keys: seq<(string, string)>, src: seq<Option<real>>)
    requires |keys| == |src| == 3 && keys[0] != keys[1] && keys[1] == keys[2] && src[1].Some?
    ensures RollingColumn(keys, src, Mean, Expanding)[2] == src[1]
  {
    assert Members(keys, keys[2], 1) == [];
    assert Prior(keys, 2) == [1];
    var w := Gather(src, WindowIds(keys, 2, Expanding));
    assert w == [src[1]];
    assert w[1..] == [];
    assert Present(w) == [src[1].value];
    var vs := Present(w);
    assert vs[1..] == [];
    assert Total(vs) == src[1].value;
  }

  // ---------------------------------------------------------------------
  // Properties of the clean tail
  // ---------------------------------------------------------------------

  /** A numeric column after fillna(median()). */
  function Filled(c: Column): Column
    requires IsNumeric(c)
  {
    Column(c.name, Numeric(FillMedian(c.cells.values)))
  }

  /** The candidate columns are exactly the numeric non-label, non-meta, non-leakage columns. */
  lemma CandidatesExact(df: Frame, c: Column)
    ensures c in Candidates(df) <==>
      c in df && IsNumeric(c) && c.name != "is_winner" && c.name !in MetaCols && c.name !in LeakageCols
  {
  }

  /**
   * The clean output is the meta columns, then the filled candidate
   * features, then the label; no feature column is meta, leakage or the
   * label, and each is the median fill of a numeric column of the frame.
   */
  lemma CleanLayout(df: Frame, winner: seq<Option<real>>, j: nat)
    ensures var out := CleanTail(df, winner);
      var m := |Select(df, MetaCols)|;
      && |out| == m + |Candidates(df)| + 1
      && (j < m ==> out[j] in df && out[j].name in MetaCols)
      && (m <= j < |out| - 1 ==>
            && out[j].name !in LeakageCols && out[j].name !in MetaCols && out[j].name != "is_winner"
            && IsNumeric(out[j])
            && exists c :: c in df && IsNumeric(c) && out[j] == Filled(c))
      && out[|out| - 1] == Column("is_winner", Numeric(winner))
  {
    var out := CleanTail(df, winner);
    var meta := Select(df, MetaCols);
    var numeric := Candidates(df);
    var filled := ApplyNamed(numeric, Names(numeric), FillMedianOp);
    assert out == meta + filled + [Column("is_winner", Numeric(winner))];
    if j < |meta| {
      assert out[j] == meta[j] && meta[j] in meta;
    } else if j < |out| - 1 {
      var k := j - |meta|;
      assert out[j] == filled[k];
      ApplyNamedAll(numeric, FillMedianOp, k);
      var c := numeric[k];
      assert c in numeric;
      CandidatesExact(df, c);
      assert out[j] == Filled(c);
    }
  }

  /** The clean output keeps the frame's row count in every column. */
  lemma CleanTailRectangular(df: Frame, winner: seq<Option<real>>, n: nat)
    requires Rectangular(df, n) && |winner| == n
    ensures Rectangular(CleanTail(df, winner), n)
  {
    var out := CleanTail(df, winner);
    forall j | 0 <= j < |out| ensures Height(out[j].cells) == n {
      CleanLayout(df, winner, j);
      var m := |Select(df, MetaCols)|;
      if j < m {
        var k :| 0 <= k < |df| && df[k] == out[j];
      } else if j < |out| - 1 {
        var c :| c in df && IsNumeric(c) && out[j] == Filled(c);
        var k :| 0 <= k < |df| && df[k] == c;
      }
    }
  }

  /** Filling every column of a frame fills each numeric one with its median. */
  lemma FilledMember(f: Frame, c: Column)
    requires c in f && IsNumeric(c)
    ensures Filled(c) in ApplyNamed(f, Names(f), FillMedianOp)
  {
    var k :| 0 <= k < |f| && f[k] == c;
    ApplyNamedAll(f, FillMedianOp, k);
    assert ApplyNamed(f, Names(f), FillMedianOp)[k] == Filled(c);
  }

  /** A numeric column that is neither label, meta nor leakage ends up, median-filled, among the features. */
  lemma CandidateKept(df: Frame, winner: seq<Option<real>>, c: Column)
    requires c in df && IsNumeric(c)
    requires c.name != "is_winner" && c.name !in MetaCols && c.name !in LeakageCols
    ensures Filled(c) in CleanTail(df, winner)
  {
    var numeric := Candidates(df);
    var filled := ApplyNamed(numeric, Names(numeric), FillMedianOp);
    assert c in numeric by {
      CandidatesExact(df, c);
    }
    FilledMember(numeric, c);
    assert CleanTail(df, winner) == Select(df, MetaCols) + filled + [Column("is_winner", Numeric(winner))];
  }

  /** The clean output has one value per input row in every column. */
  lemma CleanRectangular(rows: seq<RaceResult>)
    ensures Rectangular(CleanFeatures(rows), |rows|)
  {
    EnrichedRectangular(rows);
    CleanTailRectangular(Enriched(rows), Label(Positions(SortRows(rows))), |rows|);
  }

  /** The label is 1 exactly for a winning row and 0 for every other row, a missing position included. */
  lemma CleanLabel(rows: seq<RaceResult>, i: nat)
    requires i < |rows|
    ensures var out := CleanFeatures(rows);
      var s := SortRows(rows);
      && out[|out| - 1].name == "is_winner"
      && out[|out| - 1].cells.Numeric?
      && i < |out[|out| - 1].cells.values|
      && (out[|out| - 1].cells.values[i] == Some(1.0) <==> ToNumeric(s[i].position) == Some(1.0))
      && (out[|out| - 1].cells.values[i] == Some(1.0) || out[|out| - 1].cells.values[i] == Some(0.0))
  {
    var s := SortRows(rows);
    var winner := Label(Positions(s));
    CleanLayout(Enriched(rows), winner, 0);
    PositionAt(s, i);
  }

  lemma PositionAt(s: seq<RaceResult>, i: nat)
    requires i < |s|
    ensures Positions(s)[i] == ToNumeric(s[i].position)
  {
    assert TextField(s, PositionF)[i] == s[i].position;
  }

  /** Row d of the derived columns is a column of the enriched frame. */
  lemma DerivedInEnriched(rows: seq<RaceResult>, d: nat)
    requires d < 11
    ensures Derived(SortRows(rows))[d] in Enriched(rows)
  {
    var s := SortRows(rows);
    var base := ApplyNamed(BaseFrame(s), CoercedNames, ToNumericOp);
    assert Enriched(rows) == base + Derived(s);
    assert Enriched(rows)[|base| + d] == Derived(s)[d];
  }

  /** The driver's recent finishing form is one of the clean features, median-filled. */
  lemma CleanKeepsDriverForm(rows: seq<RaceResult>)
    ensures var s := SortRows(rows);
      Filled(Column("driver_avg_finish_last5", Numeric(RollingColumn(DriverKeys(s), Positions(s), Mean, LastFive)))) in CleanFeatures(rows)
  {
    var s := SortRows(rows);
    var c := Column("driver_avg_finish_last5", Numeric(RollingColumn(DriverKeys(s), Positions(s), Mean, LastFive)));
    DriverFormInEnriched(rows);
    FeatureNameAllowed("driver_avg_finish_last5");
    EnrichedKept(rows, c);
  }

  /** So is the driver's expanding mean finish at the circuit. */
  lemma CleanKeepsTrackForm(rows: seq<RaceResult>)
    ensures var s := SortRows(rows);
      Filled(Column("driver_track_avg_finish", Numeric(RollingColumn(TrackKeys(s), Positions(s), Mean, Expanding)))) in CleanFeatures(rows)
  {
    var s := SortRows(rows);
    var c := Column("driver_track_avg_finish", Numeric(RollingColumn(TrackKeys(s), Positions(s), Mean, Expanding)));
    TrackFormInEnriched(rows);
    FeatureNameAllowed("driver_track_avg_finish");
    EnrichedKept(rows, c);
  }

  /** The two form features are neither meta nor leakage columns. */
  lemma FeatureNameAllowed(name: string)
    requires name == "driver_avg_finish_last5" || name == "driver_track_avg_finish"
    ensures name != "is_winner" && name !in MetaCols && name !in LeakageCols
  {
  }

  lemma DriverFormInEnriched(rows: seq<RaceResult>)
    ensures var s := SortRows(rows);
      Column("driver_avg_finish_last5", Numeric(RollingColumn(DriverKeys(s), Positions(s), Mean, LastFive))) in Enriched(rows)
  {
    var s := SortRows(rows);
    assert Derived(s)[2] == Column("driver_avg_finish_last5", Numeric(RollingColumn(DriverKeys(s), Positions(s), Mean, LastFive)));
    DerivedInEnriched(rows, 2);
  }

  lemma TrackFormInEnriched(rows: seq<RaceResult>)
    ensures var s := SortRows(rows);
      Column("driver_track_avg_finish", Numeric(RollingColumn(TrackKeys(s), Positions(s), Mean, Expanding))) in Enriched(rows)
  {
    var s := SortRows(rows);
    assert Derived(s)[9] == Column("driver_track_avg_finish", Numeric(RollingColumn(TrackKeys(s), Positions(s), Mean, Expanding)));
    DerivedInEnriched(rows, 9);
  }

  /** A candidate column of the enriched frame is kept, median-filled, by the clean script. */
  lemma EnrichedKept(rows: seq<RaceResult>, c: Column)
    requires c in Enriched(rows) && IsNumeric(c)
    requires c.name != "is_winner" && c.name !in MetaCols && c.name !in LeakageCols
    ensures Filled(c) in CleanFeatures(rows)
  {
    CandidateKept(Enriched(rows), Label(Positions(SortRows(rows))), c);
  }

  // ---------------------------------------------------------------------
  // Properties of the baseline tail
  // ---------------------------------------------------------------------

  /**
   * Each baseline column is a listed column of the frame: a rolling column
   * after fillna(median()), any other column unchanged.
   */
  lemma BaselineColumns(df: Frame, c: Column)
    requires c in BaselineTail(df)
    ensures c.name in OutputCols
    ensures exists d :: (d in df && d.name == c.name
      && c == (if d.name in RollingCols then ApplyOp(FillMedianOp, d) else d))
  {
    var filled := ApplyNamed(df, RollingCols, FillMedianOp);
    var j :| 0 <= j < |filled| && filled[j] == c;
    assert df[j] in df;
  }

  /** The coded frame has the read columns first, under their file names. */
  lemma WithCodesNames(rows: seq<RaceResult>, j: nat)
    requires j < |Schema|
    ensures j < |WithCodes(rows)| && WithCodes(rows)[j].name == Schema[j].0
  {
    var s := SortRows(rows);
    var base := ApplyNamed(BaseFrame(s), CoercedNames, ToNumericOp);
    assert Names(base)[j] == Names(BaseFrame(s))[j];
    assert WithCodes(rows) == base + Derived(s) + [
      CodeColumn("driver_code_num", DriverKeys(s)),
      CodeColumn("constructor_code_num", TeamKeys(s)),
      CodeColumn("circuit_code_num", CircuitKeys(s)) ];
    assert WithCodes(rows)[j] == base[j];
  }

  /** A listed column the frame has is in the baseline output. */
  lemma BaselineKeepsName(df: Frame, name: string)
    requires name in Names(df) && name in OutputCols
    ensures name in Names(BaselineTail(df))
  {
  }

  /** A listed column of the results file is in the baseline output. */
  lemma BaselineKeepsReadColumn(rows: seq<RaceResult>, j: nat)
    requires j < |Schema| && Schema[j].0 in OutputCols
    ensures Schema[j].0 in Names(BaselineFeatures(rows))
  {
    var f := WithCodes(rows);
    WithCodesNames(rows, j);
    assert Names(f)[j] == Schema[j].0;
    BaselineKeepsName(f, Schema[j].0);
  }

  /**
   * The baseline keeps post-race fields among its outputs: points (column 7),
   * laps (14) and finish_time_millis (17), all of them leakage for the
   * clean script.
   */
  lemma BaselineKeepsResultFields(rows: seq<RaceResult>, j: nat)
    requires j == 7 || j == 14 || j == 17
    ensures Schema[j].0 in LeakageCols
    ensures Schema[j].0 in Names(BaselineFeatures(rows))
  {
    ResultFieldNames(j);
    BaselineKeepsReadColumn(rows, j);
  }

  lemma ResultFieldNames(j: nat)
    requires j == 7 || j == 14 || j == 17
    ensures Schema[j].0 in LeakageCols && Schema[j].0 in OutputCols
  {
  }
}
