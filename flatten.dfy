/**
 * Flattening one season's JSON document into one row per race result, as
 * prepare_f1_data.py does: the document maps round keys to API payloads,
 * each payload holds a RaceTable with a season and its Races, each race
 * holds its Results.
 *
 * Python's dictionary operations are modelled on a JSON value datatype.
 * Any exception the Python code would raise (calling .get on something that
 * is not a dict, iterating a value that is not a list) makes the whole parse
 * fail, which is a None result here.
 */
module Flatten {
  import opened Wrappers

  datatype Json =
    | JNull
    | JBool(b: bool)
    | JNum(n: real)
    | JStr(s: string)
    | JArr(items: seq<Json>)
    | JObj(fields: seq<(string, Json)>)

  /** Python truthiness: None, False, 0, "", [] and {} are false. */
  predicate Truthy(j: Json) {
    match j
    case JNull => false
    case JBool(b) => b
    case JNum(n) => n != 0.0
    case JStr(s) => s != ""
    case JArr(xs) => xs != []
    case JObj(fs) => fs != []
  }

  /** `k in d`. */
  predicate HasKey(fs: seq<(string, Json)>, k: string) {
    exists i :: 0 <= i < |fs| && fs[i].0 == k
  }

  /** d[k]; json.load keeps the last binding of a repeated key. */
  function GetField(fs: seq<(string, Json)>, k: string): (r: Option<Json>)
    ensures r.Some? <==> HasKey(fs, k)
    ensures r.Some? ==> exists i :: 0 <= i < |fs| && fs[i] == (k, r.value)
  {
    if fs == [] then None
    else
      var front := fs[..|fs| - 1];
      assert forall i :: 0 <= i < |front| ==> front[i] == fs[i];
      if fs[|fs| - 1].0 == k then Some(fs[|fs| - 1].1) else GetField(front, k)
  }

  /** The distinct keys of a JSON object, in order of first appearance. */
  function KeyOrder(fs: seq<(string, Json)>): (ks: seq<string>)
    ensures forall k :: k in ks <==> HasKey(fs, k)
    ensures forall a, b :: 0 <= a < b < |ks| ==> ks[a] != ks[b]
  {
    if fs == [] then []
    else
      var front := fs[..|fs| - 1];
      var ks := KeyOrder(front);
      assert forall i :: 0 <= i < |front| ==> front[i] == fs[i];
      if fs[|fs| - 1].0 in ks then ks else ks + [fs[|fs| - 1].0]
  }

  /**
   * d.items() of the dict json.load builds: each key once, at the place it
   * first appears, with the value of its last binding.
   */
  function Items(fs: seq<(string, Json)>): (r: seq<(string, Json)>)
    ensures forall k :: HasKey(r, k) <==> HasKey(fs, k)
    ensures forall a, b :: 0 <= a < b < |r| ==> r[a].0 != r[b].0
    ensures forall i :: 0 <= i < |r| ==> GetField(fs, r[i].0) == Some(r[i].1)
  {
    var ks := KeyOrder(fs);
    var r := seq(|ks|, i requires 0 <= i < |ks| => (ks[i], GetField(fs, ks[i]).value));
    assert forall k :: HasKey(r, k) ==> k in ks;
    assert forall k :: k in ks ==> HasKey(r, k) by {
      forall k | k in ks ensures HasKey(r, k) {
        var i :| 0 <= i < |ks| && ks[i] == k;
        assert r[i].0 == k;
      }
    }
    r
  }

  /** d.get(k, default). */
  function Get(fs: seq<(string, Json)>, k: string, default: Json): (r: Json)
    ensures !HasKey(fs, k) ==> r == default
  {
    GetField(fs, k).GetOr(default)
  }

  /** `x or {}` whose result is then used as a dict: anything else truthy makes .get raise. */
  function AsDict(j: Json): (r: Option<seq<(string, Json)>>)
    ensures !Truthy(j) ==> r == Some([])
    ensures Truthy(j) ==> (r.Some? <==> j.JObj?)
  {
    if !Truthy(j) then Some([])
    else match j
      case JObj(fs) => Some(fs)
      case _ => None
  }

  /**
   * `x or []` whose result is then iterated: a truthy value that is not a
   * list either is not iterable or yields elements that have no .get.
   */
  function AsList(j: Json): (r: Option<seq<Json>>)
    ensures !Truthy(j) ==> r == Some([])
    ensures Truthy(j) ==> (r.Some? <==> j.JArr?)
  {
    if !Truthy(j) then Some([])
    else match j
      case JArr(xs) => Some(xs)
      case _ => None
  }

  // ---------------------------------------------------------------------
  // safe_get
  // ---------------------------------------------------------------------

  /** The value at a key path, or None as soon as a step meets a non-dict or a missing key. */
  function Walk(d: Json, keys: seq<string>): Option<Json> {
    if keys == [] then Some(d)
    else match d
      case JObj(fs) =>
        (match GetField(fs, keys[0])
         case Some(v) => Walk(v, keys[1..])
         case None => None)
      case _ => None
  }

  /** safe_get(d, *keys, default=default). */
  method SafeGet(d: Json, keys: seq<string>, default: Json) returns (r: Json)
    ensures r == Walk(d, keys).GetOr(default)
  {
    var cur := d;
    for i := 0 to |keys|
      invariant Walk(d, keys) == Walk(cur, keys[i..])
    {
      assert keys[i..][1..] == keys[i + 1..];
      if !cur.JObj? || !HasKey(cur.fields, keys[i]) {
        return default;
      }
      cur := GetField(cur.fields, keys[i]).value;
    }
    assert keys[|keys|..] == [];
    r := cur;
  }

  /** A path walks as its prefix, then as the rest from where the prefix ended. */
  lemma {:induction false} WalkAppend(d: Json, a: seq<string>, b: seq<string>)
    ensures Walk(d, a + b) == (match Walk(d, a) case Some(v) => Walk(v, b) case None => None)
  {
    if a != [] {
      var ab := a + b;
      assert ab != [] && ab[0] == a[0] && ab[1..] == a[1..] + b;
      if d.JObj? && GetField(d.fields, a[0]).Some? {
        var v := GetField(d.fields, a[0]).value;
        WalkAppend(v, a[1..], b);
        assert Walk(d, ab) == Walk(v, ab[1..]);
        assert Walk(d, a) == Walk(v, a[1..]);
      }
    } else {
      assert a + b == b;
    }
  }

  /** safe_get with no keys returns its argument; on a non-dict with keys it returns the default. */
  lemma WalkEnds(d: Json, keys: seq<string>, default: Json)
    ensures keys == [] ==> Walk(d, keys).GetOr(default) == d
    ensures keys != [] && !d.JObj? ==> Walk(d, keys).GetOr(default) == default
    ensures keys != [] && d.JObj? && !HasKey(d.fields, keys[0]) ==> Walk(d, keys).GetOr(default) == default
  {
  }

  // ---------------------------------------------------------------------
  // driver_name
  // ---------------------------------------------------------------------

  /** str.isspace: the characters Python's str.strip() removes. */
  predicate IsSpace(c: char) {
    || ('\t' <= c <= '\r')
    || ('\U{1c}' <= c <= '\U{1f}')
    || c == ' '
    || c == '\U{85}'
    || c == '\U{a0}'
    || c == '\U{1680}'
    || ('\U{2000}' <= c <= '\U{200a}')
    || c == '\U{2028}'
    || c == '\U{2029}'
    || c == '\U{202f}'
    || c == '\U{205f}'
    || c == '\U{3000}'
  }

  function StripLeft(s: string): (r: string)
    ensures |r| <= |s| && r == s[|s| - |r|..]
    ensures r == [] || !IsSpace(r[0])
    ensures forall i :: 0 <= i < |s| - |r| ==> IsSpace(s[i])
  {
    if s != [] && IsSpace(s[0]) then StripLeft(s[1..]) else s
  }

  function StripRight(s: string): (r: string)
    ensures |r| <= |s| && r == s[..|r|]
    ensures r == [] || !IsSpace(r[|r| - 1])
    ensures forall i :: |r| <= i < |s| ==> IsSpace(s[i])
  {
    if s != [] && IsSpace(s[|s| - 1]) then StripRight(s[..|s| - 1]) else s
  }

  /** str.strip(). */
  function Strip(s: string): string {
    StripRight(StripLeft(s))
  }

  /** str(v) for the values a name field can hold; numbers and containers are not modelled. */
  function Show(j: Json): Option<string> {
    match j
    case JStr(s) => Some(s)
    case JNull => Some("None")
    case JBool(b) => Some(if b then "True" else "False")
    case _ => None
  }

  /** f"{driver.get('givenName', '')} {driver.get('familyName', '')}".strip() */
  function DriverName(driver: seq<(string, Json)>): Option<string> {
    match (Show(Get(driver, "givenName", JStr(""))), Show(Get(driver, "familyName", JStr(""))))
    case (Some(g), Some(f)) => Some(Strip(g + " " + f))
    case _ => None
  }

  /** A driver with neither name gets the empty name. */
  lemma DriverNameAbsent(driver: seq<(string, Json)>)
    requires !HasKey(driver, "givenName") && !HasKey(driver, "familyName")
    ensures DriverName(driver) == Some("")
  {
    assert Get(driver, "givenName", JStr("")) == JStr("");
    assert Get(driver, "familyName", JStr("")) == JStr("");
    StripBlank();
    assert "" + " " + "" == " ";
  }

  lemma StripBlank()
    ensures Strip(" ") == ""
  {
    assert IsSpace(" "[0]);
    assert StripLeft(" ") == [];
  }

  /** Names without surrounding blanks are joined by one space and kept whole. */
  lemma DriverNameJoined(driver: seq<(string, Json)>, g: string, f: string)
    requires GetField(driver, "givenName") == Some(JStr(g))
    requires GetField(driver, "familyName") == Some(JStr(f))
    requires g != [] && !IsSpace(g[0])
    requires f != [] && !IsSpace(f[|f| - 1])
    ensures DriverName(driver) == Some(g + " " + f)
  {
    var s := g + " " + f;
    assert s[0] == g[0];
    assert StripLeft(s) == s;
    assert s[|s| - 1] == f[|f| - 1];
  }

  // ---------------------------------------------------------------------
  // parse_season_file
  // ---------------------------------------------------------------------

  /** The race-level values every row of a race copies. */
  datatype RaceInfo = RaceInfo(season: Json, round: Json, raceName: Json, date: Json, circuit: Json)

  /** One output row, with the fields of the row dict in its order. */
  datatype FlatRow = FlatRow(
    season: Json, round: Json, raceName: Json, date: Json, circuit: Json,
    position: Json, positionText: Json, points: Json, driverNumber: Json,
    driverId: Json, driverCode: Json, driverName: Option<string>, team: Json,
    grid: Json, laps: Json, status: Json, finishTime: Json, finishTimeMillis: Json,
    fastestLapRank: Json, fastestLapTime: Json, fastestLapNumber: Json)

  /** Both parts must succeed; their rows are concatenated. */
  function Then(a: Option<seq<FlatRow>>, b: Option<seq<FlatRow>>): Option<seq<FlatRow>> {
    if a.Some? && b.Some? then Some(a.value + b.value) else None
  }

  /** The row dict built for one result (lines 37-63). */
  function ResultRow(info: RaceInfo, res: Json): Option<FlatRow> {
    match res
    case JObj(rs) =>
      var driver := AsDict(Get(rs, "Driver", JObj([])));
      var team := AsDict(Get(rs, "Constructor", JObj([])));
      var fastest := AsDict(Get(rs, "FastestLap", JObj([])));
      var finTime := AsDict(Get(rs, "Time", JObj([])));
      if driver.None? || team.None? || fastest.None? || finTime.None? then None
      else
        var d := driver.value;
        var fl := fastest.value;
        var t := finTime.value;
        Some(FlatRow(
          info.season, info.round, info.raceName, info.date, info.circuit,
          Get(rs, "position", JNull), Get(rs, "positionText", JNull), Get(rs, "points", JNull),
          Get(rs, "number", JNull), Get(d, "driverId", JNull), Get(d, "code", JNull),
          DriverName(d), Get(team.value, "name", JNull), Get(rs, "grid", JNull),
          Get(rs, "laps", JNull), Get(rs, "status", JNull), Get(t, "time", JNull),
          Get(t, "millis", JNull), Get(fl, "rank", JNull),
          Walk(JObj(fl), ["Time", "time"]).GetOr(JNull), Get(fl, "lap", JNull)))
    case _ => None
  }

  function Single(r: Option<FlatRow>): Option<seq<FlatRow>> {
    match r
    case Some(row) => Some([row])
    case None => None
  }

  function ResultsRows(info: RaceInfo, results: seq<Json>): Option<seq<FlatRow>> {
    if results == [] then Some([])
    else Then(Single(ResultRow(info, results[0])), ResultsRows(info, results[1..]))
  }

  /** The race-level values of a race dict. */
  function Info(season: Json, race: seq<(string, Json)>): RaceInfo {
    RaceInfo(season, Get(race, "round", JNull), Get(race, "raceName", JNull), Get(race, "date", JNull),
             Walk(JObj(race), ["Circuit", "circuitName"]).GetOr(JNull))
  }

  function RaceRows(season: Json, race: Json): Option<seq<FlatRow>> {
    match race
    case JObj(fs) =>
      (match AsList(Get(fs, "Results", JArr([])))
       case Some(results) => ResultsRows(Info(season, fs), results)
       case None => None)
    case _ => None
  }

  function RacesRows(season: Json, races: seq<Json>): Option<seq<FlatRow>> {
    if races == [] then Some([])
    else Then(RaceRows(season, races[0]), RacesRows(season, races[1..]))
  }

  /** The season and races of one round payload, or None when a step would raise. */
  function Season(payload: Json): Option<(Json, seq<Json>)> {
    match payload
    case JObj(ps) =>
      (match AsDict(Get(ps, "MRData", JObj([])))
       case None => None
       case Some(mr) =>
         match AsDict(Get(mr, "RaceTable", JObj([])))
         case None => None
         case Some(rt) =>
           match AsList(Get(rt, "Races", JArr([])))
           case None => None
           case Some(races) => Some((Get(rt, "season", JNull), races)))
    case _ => None
  }

  function PayloadRows(payload: Json): Option<seq<FlatRow>> {
    match Season(payload)
    case None => None
    case Some((season, races)) => RacesRows(season, races)
  }

  function PayloadsRows(items: seq<(string, Json)>): Option<seq<FlatRow>> {
    if items == [] then Some([])
    else Then(PayloadRows(items[0].1), PayloadsRows(items[1..]))
  }

  /** The rows of a season document; data.items() needs a dict. */
  function SeasonRows(data: Json): Option<seq<FlatRow>> {
    match data
    case JObj(fields) => PayloadsRows(Items(fields))
    case _ => None
  }

  /** The innermost loop of parse_season_file: a race's results appended to rows. */
  method AppendResults(rows: seq<FlatRow>, info: RaceInfo, results: seq<Json>) returns (r: Option<seq<FlatRow>>)
    ensures r == Then(Some(rows), ResultsRows(info, results))
  {
    var acc := rows;
    for m := 0 to |results|
      invariant Then(Some(rows), ResultsRows(info, results)) == Then(Some(acc), ResultsRows(info, results[m..]))
    {
      assert results[m..][0] == results[m] && results[m..][1..] == results[m + 1..];
      var row := ResultRow(info, results[m]);
      ghost var rest := ResultsRows(info, results[m + 1..]);
      assert ResultsRows(info, results[m..]) == Then(Single(row), rest);
      if row.None? {
        return None;
      }
      ThenAssoc(Some(acc), Some([row.value]), rest);
      acc := acc + [row.value];
    }
    assert results[|results|..] == [] && acc + [] == acc;
    r := Some(acc);
  }

  /** The middle loop: each race of a payload, its values read, its results appended. */
  method AppendRaces(rows: seq<FlatRow>, season: Json, races: seq<Json>) returns (r: Option<seq<FlatRow>>)
    ensures r == Then(Some(rows), RacesRows(season, races))
  {
    var acc := rows;
    for k := 0 to |races|
      invariant Then(Some(rows), RacesRows(season, races)) == Then(Some(acc), RacesRows(season, races[k..]))
    {
      assert races[k..][0] == races[k] && races[k..][1..] == races[k + 1..];
      var race := races[k];
      ghost var rest := RacesRows(season, races[k + 1..]);
      assert RacesRows(season, races[k..]) == Then(RaceRows(season, race), rest);
      if !race.JObj? {
        return None;
      }
      var roundNum := Get(race.fields, "round", JNull);
      var raceName := Get(race.fields, "raceName", JNull);
      var raceDate := Get(race.fields, "date", JNull);
      var circuit := SafeGet(race, ["Circuit", "circuitName"], JNull);
      var results := AsList(Get(race.fields, "Results", JArr([])));
      if results.None? {
        return None;
      }
      var info := RaceInfo(season, roundNum, raceName, raceDate, circuit);
      assert RaceRows(season, race) == ResultsRows(info, results.value);
      ThenAssoc(Some(acc), RaceRows(season, race), rest);
      var next := AppendResults(acc, info, results.value);
      if next.None? {
        return None;
      }
      acc := next.value;
    }
    assert races[|races|..] == [] && acc + [] == acc;
    r := Some(acc);
  }

  /** parse_season_file after json.load: every round payload's races appended to rows. */
  method ParseSeasonFile(data: Json) returns (rows: Option<seq<FlatRow>>)
    ensures rows == SeasonRows(data)
  {
    if !data.JObj? {
      return None;
    }
    var items := Items(data.fields);
    var acc: seq<FlatRow> := [];
    assert items[0..] == items;
    ThenUnit(PayloadsRows(items));
    for i := 0 to |items|
      invariant SeasonRows(data) == Then(Some(acc), PayloadsRows(items[i..]))
    {
      assert items[i..][0] == items[i] && items[i..][1..] == items[i + 1..];
      var payload := items[i].1;
      ghost var rest := PayloadsRows(items[i + 1..]);
      assert PayloadsRows(items[i..]) == Then(PayloadRows(payload), rest);
      if !payload.JObj? {
        return None;
      }
      var mrdata := AsDict(Get(payload.fields, "MRData", JObj([])));
      if mrdata.None? {
        return None;
      }
      var raceTable := AsDict(Get(mrdata.value, "RaceTable", JObj([])));
      if raceTable.None? {
        return None;
      }
      var season := Get(raceTable.value, "season", JNull);
      var races := AsList(Get(raceTable.value, "Races", JArr([])));
      if races.None? {
        return None;
      }
      assert PayloadRows(payload) == RacesRows(season, races.value);
      ThenAssoc(Some(acc), PayloadRows(payload), rest);
      var next := AppendRaces(acc, season, races.value);
      if next.None? {
        return None;
      }
      acc := next.value;
    }
    assert items[|items|..] == [] && acc + [] == acc;
    rows := Some(acc);
  }

  lemma ThenAssoc(x: Option<seq<FlatRow>>, y: Option<seq<FlatRow>>, z: Option<seq<FlatRow>>)
    ensures Then(x, Then(y, z)) == Then(Then(x, y), z)
  {
    if x.Some? && y.Some? && z.Some? {
      assert x.value + (y.value + z.value) == x.value + y.value + z.value;
    }
  }

  // ---------------------------------------------------------------------
  // What the rows are
  // ---------------------------------------------------------------------

  /** One row per result, in result order, each carrying the race's values. */
  lemma {:induction false} ResultsRowsShape(info: RaceInfo, results: seq<Json>)
    requires ResultsRows(info, results).Some?
    ensures |ResultsRows(info, results).value| == |results|
    ensures forall i :: 0 <= i < |results| ==>
      ResultRow(info, results[i]).Some? && ResultsRows(info, results).value[i] == ResultRow(info, results[i]).value
  {
    if results != [] {
      var head := Single(ResultRow(info, results[0]));
      var tail := ResultsRows(info, results[1..]);
      assert head.Some? && tail.Some?;
      ResultsRowsShape(info, results[1..]);
      var rows := head.value + tail.value;
      assert ResultsRows(info, results).value == rows;
      forall i | 0 <= i < |results|
        ensures ResultRow(info, results[i]).Some? && rows[i] == ResultRow(info, results[i]).value
      {
        if i > 0 {
          assert results[1..][i - 1] == results[i];
          assert rows[i] == tail.value[i - 1];
        }
      }
    }
  }

  /** Every row copies season, round, race name, date and circuit name from its race. */
  lemma ResultRowCopiesRace(info: RaceInfo, res: Json)
    requires ResultRow(info, res).Some?
    ensures var r := ResultRow(info, res).value;
      r.season == info.season && r.round == info.round && r.raceName == info.raceName
      && r.date == info.date && r.circuit == info.circuit
  {
  }

  /** A result with no Driver, Constructor, FastestLap or Time object gives null fields, not a failure. */
  lemma AbsentObjectsGiveNull(info: RaceInfo, rs: seq<(string, Json)>)
    requires !HasKey(rs, "Driver") && !HasKey(rs, "Constructor")
    requires !HasKey(rs, "FastestLap") && !HasKey(rs, "Time")
    ensures ResultRow(info, JObj(rs)).Some?
    ensures var r := ResultRow(info, JObj(rs)).value;
      r.driverId == JNull && r.driverCode == JNull && r.driverName == Some("")
      && r.team == JNull && r.finishTime == JNull && r.finishTimeMillis == JNull
      && r.fastestLapRank == JNull && r.fastestLapTime == JNull && r.fastestLapNumber == JNull
  {
    DriverNameAbsent([]);
  }

  /** How many results a race lists (none when it is not a race dict or they are absent). */
  function RaceResultCount(race: Json): nat {
    match race
    case JObj(fs) => |AsList(Get(fs, "Results", JArr([]))).GetOr([])|
    case _ => 0
  }

  function RacesResultCount(races: seq<Json>): nat {
    if races == [] then 0 else RaceResultCount(races[0]) + RacesResultCount(races[1..])
  }

  function PayloadResultCount(payload: Json): nat {
    match Season(payload)
    case None => 0
    case Some((_, races)) => RacesResultCount(races)
  }

  /** The number of Results entries across all races of all payloads. */
  function ResultCount(items: seq<(string, Json)>): nat {
    if items == [] then 0 else PayloadResultCount(items[0].1) + ResultCount(items[1..])
  }

  lemma {:induction false} RacesRowsCount(season: Json, races: seq<Json>)
    requires RacesRows(season, races).Some?
    ensures |RacesRows(season, races).value| == RacesResultCount(races)
  {
    if races != [] {
      RacesRowsCount(season, races[1..]);
      var race := races[0];
      assert race.JObj?;
      var results := AsList(Get(race.fields, "Results", JArr([]))).value;
      ResultsRowsShape(Info(season, race.fields), results);
    }
  }

  /** A successful parse yields exactly one row per Results entry. */
  lemma {:induction false} SeasonRowsCount(items: seq<(string, Json)>)
    requires PayloadsRows(items).Some?
    ensures |PayloadsRows(items).value| == ResultCount(items)
  {
    if items != [] {
      SeasonRowsCount(items[1..]);
      var (season, races) := Season(items[0].1).value;
      RacesRowsCount(season, races);
    }
  }

  lemma ThenUnit(x: Option<seq<FlatRow>>)
    ensures Then(Some([]), x) == x
  {
    if x.Some? {
      assert [] + x.value == x.value;
    }
  }

  /** Rows come in payload order: the rows of two runs of payloads are the two runs' rows, concatenated. */
  lemma {:induction false} PayloadsRowsAppend(a: seq<(string, Json)>, b: seq<(string, Json)>)
    ensures PayloadsRows(a + b) == Then(PayloadsRows(a), PayloadsRows(b))
  {
    if a == [] {
      assert a + b == b;
      ThenUnit(PayloadsRows(b));
    } else {
      assert (a + b)[0] == a[0] && (a + b)[1..] == a[1..] + b;
      PayloadsRowsAppend(a[1..], b);
      ThenAssoc(PayloadRows(a[0].1), PayloadsRows(a[1..]), PayloadsRows(b));
    }
  }

  /** Within a payload, rows come in race order. */
  lemma {:induction false} RacesRowsAppend(season: Json, a: seq<Json>, b: seq<Json>)
    ensures RacesRows(season, a + b) == Then(RacesRows(season, a), RacesRows(season, b))
  {
    if a == [] {
      assert a + b == b;
      ThenUnit(RacesRows(season, b));
    } else {
      assert (a + b)[0] == a[0] && (a + b)[1..] == a[1..] + b;
      RacesRowsAppend(season, a[1..], b);
      ThenAssoc(RaceRows(season, a[0]), RacesRows(season, a[1..]), RacesRows(season, b));
    }
  }

  /** Every row of a race carries the season of its RaceTable and the race's own values. */
  lemma {:induction false} RaceRowsCopy(season: Json, race: seq<(string, Json)>)
    requires RaceRows(season, JObj(race)).Some?
    ensures forall r :: r in RaceRows(season, JObj(race)).value ==>
      r.season == season && r.round == Get(race, "round", JNull)
      && r.raceName == Get(race, "raceName", JNull) && r.date == Get(race, "date", JNull)
      && r.circuit == Walk(JObj(race), ["Circuit", "circuitName"]).GetOr(JNull)
  {
    var info := Info(season, race);
    var results := AsList(Get(race, "Results", JArr([]))).value;
    ResultsRowsShape(info, results);
    var rows := RaceRows(season, JObj(race)).value;
    forall r | r in rows
      ensures r.season == season && r.round == info.round && r.raceName == info.raceName
        && r.date == info.date && r.circuit == info.circuit
    {
      var i :| 0 <= i < |rows| && rows[i] == r;
      ResultRowCopiesRace(info, results[i]);
    }
  }

  /** Without repeated keys, d.items() gives the bindings as written. */
  lemma ItemsDistinct(fs: seq<(string, Json)>)
    requires forall a, b :: 0 <= a < b < |fs| ==> fs[a].0 != fs[b].0
    ensures Items(fs) == fs
  {
    KeyOrderDistinct(fs);
    forall i | 0 <= i < |fs| ensures GetField(fs, fs[i].0) == Some(fs[i].1) {
      GetFieldDistinct(fs, i);
    }
  }

  lemma {:induction false} KeyOrderDistinct(fs: seq<(string, Json)>)
    requires forall a, b :: 0 <= a < b < |fs| ==> fs[a].0 != fs[b].0
    ensures KeyOrder(fs) == seq(|fs|, i requires 0 <= i < |fs| => fs[i].0)
  {
    if fs != [] {
      var front := fs[..|fs| - 1];
      KeyOrderDistinct(front);
      assert !HasKey(front, fs[|fs| - 1].0);
    }
  }

  lemma {:induction false} GetFieldDistinct(fs: seq<(string, Json)>, i: nat)
    requires forall a, b :: 0 <= a < b < |fs| ==> fs[a].0 != fs[b].0
    requires i < |fs|
    ensures GetField(fs, fs[i].0) == Some(fs[i].1)
  {
    var front := fs[..|fs| - 1];
    if i < |fs| - 1 {
      GetFieldDistinct(front, i);
    }
  }

  /** A repeated round key is iterated once, with the payload bound last. */
  lemma RepeatedKeyOnce(a: Json, b: Json)
    ensures Items([("1", a), ("1", b)]) == [("1", b)]
  {
    var fs := [("1", a), ("1", b)];
    assert fs[..1] == [("1", a)];
    assert KeyOrder(fs[..1]) == ["1"];
  }

  /** Absent or null MRData, RaceTable or Races give no rows and no failure. */
  lemma EmptyPayload(ps: seq<(string, Json)>)
    requires !HasKey(ps, "MRData")
    ensures PayloadRows(JObj(ps)) == Some([])
  {
  }
}
