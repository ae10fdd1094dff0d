/**
 * The temporal train/validation split of train_model_2.py and the feature
 * matrices it hands to the classifier. Rows are identified by their index
 * in the feature table; the season column is the one after
 * pd.to_numeric(errors="coerce"), so a season that failed to parse is
 * missing.
 */
module TrainSplit {
  import opened Wrappers
  import opened Frames

  /** int(x) on a float: truncation toward zero. */
  function Trunc(x: real): (r: int)
    ensures x >= 0.0 ==> r as real <= x < r as real + 1.0
    ensures x < 0.0 ==> r as real - 1.0 < x <= r as real
  {
    if x >= 0.0 then x.Floor else -((-x).Floor)
  }

  function Max(a: real, b: real): real { if a >= b then a else b }
  function Min(a: real, b: real): real { if a <= b then a else b }

  /** The largest present season, if any season is present. */
  function MaxSeason(season: seq<Option<real>>): (m: Option<real>)
    ensures m.Some? <==> exists i :: 0 <= i < |season| && season[i].Some?
    ensures m.Some? ==> forall i :: 0 <= i < |season| && season[i].Some? ==> season[i].value <= m.value
    ensures m.Some? ==> exists i :: 0 <= i < |season| && season[i] == m
  {
    if season == [] then None
    else
      var front := season[..|season| - 1];
      var last := season[|season| - 1];
      assert forall i :: 0 <= i < |front| ==> front[i] == season[i];
      match (MaxSeason(front), last)
      case (None, _) => last
      case (Some(a), None) => Some(a)
      case (Some(a), Some(b)) => Some(Max(a, b))
  }

  /** The smallest present season, if any season is present. */
  function MinSeason(season: seq<Option<real>>): (m: Option<real>)
    ensures m.Some? <==> exists i :: 0 <= i < |season| && season[i].Some?
    ensures m.Some? ==> forall i :: 0 <= i < |season| && season[i].Some? ==> m.value <= season[i].value
    ensures m.Some? ==> exists i :: 0 <= i < |season| && season[i] == m
  {
    if season == [] then None
    else
      var front := season[..|season| - 1];
      var last := season[|season| - 1];
      assert forall i :: 0 <= i < |front| ==> front[i] == season[i];
      match (MinSeason(front), last)
      case (None, _) => last
      case (Some(a), None) => Some(a)
      case (Some(a), Some(b)) => Some(Min(a, b))
  }

  /** len(sorted(df["season"].dropna().unique())) >= 2. */
  predicate SeveralSeasons(season: seq<Option<real>>) {
    MaxSeason(season).Some? && MinSeason(season) != MaxSeason(season)
  }

  /** There are two distinct present seasons exactly when the test above holds. */
  lemma SeveralSeasonsIff(season: seq<Option<real>>)
    ensures SeveralSeasons(season) <==>
      exists i, j :: 0 <= i < |season| && 0 <= j < |season| && season[i].Some? && season[j].Some?
        && season[i].value != season[j].value
  {
    if SeveralSeasons(season) {
      var i :| 0 <= i < |season| && season[i] == MinSeason(season);
      var j :| 0 <= j < |season| && season[j] == MaxSeason(season);
      assert season[i].value != season[j].value;
    }
  }

  /** The rows whose season is present and below t, in row order. */
  function RowsBelow(season: seq<Option<real>>, t: real): (ids: seq<nat>)
    ensures forall i: nat :: i in ids <==> i < |season| && season[i].Some? && season[i].value < t
    ensures forall a, b :: 0 <= a < b < |ids| ==> ids[a] < ids[b]
  {
    if season == [] then []
    else
      var n := |season| - 1;
      var front := RowsBelow(season[..n], t);
      assert forall i :: 0 <= i < n ==> season[..n][i] == season[i];
      assert forall k :: 0 <= k < |front| ==> front[k] in front;
      front + (if season[n].Some? && season[n].value < t then [n] else [])
  }

  /** The rows whose season equals t, in row order. */
  function RowsAt(season: seq<Option<real>>, t: real): (ids: seq<nat>)
    ensures forall i: nat :: i in ids <==> i < |season| && season[i] == Some(t)
    ensures forall a, b :: 0 <= a < b < |ids| ==> ids[a] < ids[b]
  {
    if season == [] then []
    else
      var n := |season| - 1;
      var front := RowsAt(season[..n], t);
      assert forall i :: 0 <= i < n ==> season[..n][i] == season[i];
      assert forall k :: 0 <= k < |front| ==> front[k] in front;
      front + (if season[n] == Some(t) then [n] else [])
  }

  /** The row indices lo, lo+1, ..., hi-1. */
  function Range(lo: nat, hi: nat): (ids: seq<nat>)
    requires lo <= hi
    ensures |ids| == hi - lo
    ensures forall k :: 0 <= k < |ids| ==> ids[k] == lo + k
  {
    seq(hi - lo, k requires 0 <= k < hi - lo => lo + k)
  }

  /** int(n * 0.8), computed exactly. */
  function SplitIndex(n: nat): nat {
    n * 4 / 5
  }

  datatype Split = Split(train: seq<nat>, validation: seq<nat>)

  /** Lines 18-29: the validation season is int(max season); otherwise the last 20% of rows. */
  function TemporalSplit(season: seq<Option<real>>): (s: Split)
    ensures forall i: nat :: (i in s.train ==> i < |season|) && (i in s.validation ==> i < |season|)
    ensures forall i: nat :: !(i in s.train && i in s.validation)
    ensures forall a, b :: 0 <= a < b < |s.train| ==> s.train[a] < s.train[b]
    ensures forall a, b :: 0 <= a < b < |s.validation| ==> s.validation[a] < s.validation[b]
  {
    if SeveralSeasons(season) then
      var test := Trunc(MaxSeason(season).value) as real;
      Split(RowsBelow(season, test), RowsAt(season, test))
    else
      var n := |season|;
      Split(Range(0, SplitIndex(n)), Range(SplitIndex(n), n))
  }

  /**
   * With several seasons, training rows are exactly those with a present
   * season below the validation season and validation rows exactly those of
   * that season; no row is in both, and a row whose season is missing is in
   * neither.
   */
  lemma SeasonSplitExact(season: seq<Option<real>>, i: nat)
    requires SeveralSeasons(season)
    ensures var test := Trunc(MaxSeason(season).value) as real;
      var s := TemporalSplit(season);
      && (i in s.train <==> i < |season| && season[i].Some? && season[i].value < test)
      && (i in s.validation <==> i < |season| && season[i] == Some(test))
      && !(i in s.train && i in s.validation)
      && (i < |season| && season[i].None? ==> i !in s.train && i !in s.validation)
  {
  }

  /** When the latest season is a whole number, validation is exactly the rows of the latest season. */
  lemma ValidationIsLatestSeason(season: seq<Option<real>>, i: nat)
    requires SeveralSeasons(season)
    requires Trunc(MaxSeason(season).value) as real == MaxSeason(season).value
    ensures i in TemporalSplit(season).validation <==> i < |season| && season[i] == MaxSeason(season)
    ensures i in TemporalSplit(season).train <==> i < |season| && season[i].Some? && season[i] != MaxSeason(season)
  {
  }

  /** Without several seasons, training is the first floor(0.8 n) rows and validation the rest, in order. */
  lemma FallbackSplit(season: seq<Option<real>>)
    requires !SeveralSeasons(season)
    ensures var s := TemporalSplit(season);
      && s.train + s.validation == Range(0, |season|)
      && |s.train| == |season| * 4 / 5
      && 5 * |s.validation| >= |season|
  {
    var s := TemporalSplit(season);
    var all := Range(0, |season|);
    assert |s.train + s.validation| == |all|;
    forall k | 0 <= k < |all|
      ensures (s.train + s.validation)[k] == all[k]
    {
      if k >= |s.train| {
        assert (s.train + s.validation)[k] == s.validation[k - |s.train|];
      }
    }
  }

  // ---------------------------------------------------------------------
  // Feature columns and matrices
  // ---------------------------------------------------------------------

  const Excluded: set<string> := {"is_winner", "season", "round"}

  /** Line 35-36: the numeric columns other than is_winner, season and round, in table order. */
  function FeatureFrame(f: Frame): (g: Frame)
    ensures forall c :: c in g <==> c in f && IsNumeric(c) && c.name !in Excluded
  {
    Without(NumericColumns(f), Excluded)
  }

  function FeatureCols(f: Frame): seq<string> {
    Names(FeatureFrame(f))
  }

  /** Feature selection keeps table order: it distributes over a split of the columns. */
  lemma FeatureFrameAppend(f: Frame, h: Frame)
    ensures FeatureFrame(f + h) == FeatureFrame(f) + FeatureFrame(h)
  {
    NumericColumnsAppend(f, h);
    WithoutAppend(NumericColumns(f), NumericColumns(h), Excluded);
  }

  /** The value .fillna(0) gives a cell. */
  function ZeroIfMissing(x: Option<real>): real {
    match x
    case Some(v) => v
    case None => 0.0
  }

  /** df[cols].fillna(0).values restricted to the given rows: one row of reals per row index. */
  function Matrix(cols: Frame, n: nat, ids: seq<nat>): (m: seq<seq<real>>)
    requires forall c :: 0 <= c < |cols| ==> cols[c].cells.Numeric? && |cols[c].cells.values| == n
    requires forall k :: 0 <= k < |ids| ==> ids[k] < n
    ensures |m| == |ids| && forall r :: 0 <= r < |m| ==> |m[r]| == |cols|
  {
    seq(|ids|, r requires 0 <= r < |ids| =>
      seq(|cols|, c requires 0 <= c < |cols| => ZeroIfMissing(cols[c].cells.values[ids[r]])))
  }

  /** The matrices keep every present value and put 0 exactly where a value was missing. */
  lemma MatrixEntries(cols: Frame, n: nat, ids: seq<nat>, r: nat, c: nat)
    requires forall c :: 0 <= c < |cols| ==> cols[c].cells.Numeric? && |cols[c].cells.values| == n
    requires forall k :: 0 <= k < |ids| ==> ids[k] < n
    requires r < |ids| && c < |cols|
    ensures var x := cols[c].cells.values[ids[r]];
      && (x.Some? ==> Matrix(cols, n, ids)[r][c] == x.value)
      && (x.None? ==> Matrix(cols, n, ids)[r][c] == 0.0)
  {
  }
}
