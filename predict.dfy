/** Season prediction (src/models/predict.py): resolve the --season argument,
    select the normalized rows of the target season, build their feature matrix
    from the saved feature table and column list, apply the fitted model, and
    write predictions_{year}_{season}.parquet. */
module Predict {
  import opened Wrappers
  import Json
  import Text
  import Status
  import Seqs
  import Seasons
  import opened Store

  datatype PredictError =
    | MissingNormalized                // read_parquet of anime.parquet fails
    | MissingFeatures                  // read_parquet of features.parquet fails
    | MissingColumns                   // feature_columns.json cannot be read
    | MissingModel                     // joblib.load of the model fails
    | LengthMismatch                   // pred_score assignment with more predictions than target rows
    | BadSeasonArg                     // SystemExit: neither "auto" nor "YEAR:SEASON"
    | BadYear                          // int(y_str) raises
    | Detect(cause: Seasons.SeasonError)

  /** The (year, season) of every row that has both, season as stored (no case folding). */
  function Buckets(rows: seq<AnimeRow>): seq<(int, string)>
  {
    if rows == [] then []
    else
      var here := if rows[0].year.Some? && rows[0].season.Some? then [(rows[0].year.value, rows[0].season.value)] else [];
      here + Buckets(rows[1..])
  }

  /** `detect_next_season(df)`: the successor rule on the stored season names; no
      row with both year and season is an error (`iloc[-1]`), and so is a latest
      bucket whose name is not exactly one of the four. */
  function DetectNextSeason(rows: seq<AnimeRow>): (r: Result<(int, string), Seasons.SeasonError>)
    ensures r == Err(Seasons.NoSeasons) <==> Buckets(rows) == []
    ensures r == Err(Seasons.UnknownSeason) <==>
      Buckets(rows) != [] && !Seasons.KnownAt(Buckets(rows), Seasons.MaxYear(Buckets(rows)))
    ensures r.Ok? ==> r.value.1 in Seasons.Order
  {
    Seasons.Next(Buckets(rows))
  }

  /** Where every stored season name is already lowercase, this copy of the rule and
      the status report's copy give the same season. */
  lemma {:induction false} DetectAgreesWithStatus(rows: seq<AnimeRow>, currentYear: int)
    requires forall i | 0 <= i < |rows| && rows[i].season.Some? :: Text.Lower(rows[i].season.value) == rows[i].season.value
    requires Buckets(rows) != []
    ensures DetectNextSeason(rows).Ok? ==> Status.DetectNextSeason(rows, currentYear) == DetectNextSeason(rows)
    ensures Status.Buckets(rows) == Buckets(rows)
  {
    BucketsAgree(rows);
  }

  lemma {:induction false} BucketsAgree(rows: seq<AnimeRow>)
    requires forall i | 0 <= i < |rows| && rows[i].season.Some? :: Text.Lower(rows[i].season.value) == rows[i].season.value
    ensures Status.Buckets(rows) == Buckets(rows)
  {
    if rows != [] {
      assert forall i | 1 <= i < |rows| :: rows[i] == rows[1..][i - 1];
      BucketsAgree(rows[1..]);
    }
  }

  /** The `--season` argument of the command line (default "auto"), resolved against
      the normalized rows; the season part of "Y:S" is passed on as typed. */
  function ParseSeasonOption(arg: string, rows: seq<AnimeRow>): (r: Result<(int, string), PredictError>)
    ensures arg == "auto" ==> (r.Ok? <==> DetectNextSeason(rows).Ok?)
    ensures arg != "auto" && ':' !in arg ==> r == Err(BadSeasonArg)
  {
    if arg == "auto" then
      match DetectNextSeason(rows)
      case Err(e) => Err(Detect(e))
      case Ok(p) => Ok(p)
    else match Text.SplitFirst(arg, ':')
      case None => Err(BadSeasonArg)
      case Some((y, s)) =>
        match Text.ParseInt(y)
        case None => Err(BadYear)
        case Some(year) => Ok((year, s))
  }

  /** "Y:S" names year Y and season S exactly, without consulting the rows. */
  lemma ParseSeasonOptionRoundTrip(year: int, season: string, rows: seq<AnimeRow>)
    ensures ParseSeasonOption(Text.IntToString(year) + ":" + season, rows) == Ok((year, season))
  {
    var y := Text.IntToString(year);
    assert ':' !in y;
    Text.SplitFirstAt(y, ':', season);
    Text.ParseIntToString(year);
    assert (y + ":" + season)[|y|] == ':';
  }

  /** `df["year"] == year` and `df["season"].str.lower() == season.lower()`. */
  predicate IsTarget(row: AnimeRow, year: int, season: string)
  {
    row.year == Some(year) && row.season.Some? && Text.Lower(row.season.value) == Text.Lower(season)
  }

  function TargetRows(rows: seq<AnimeRow>, year: int, season: string): seq<AnimeRow>
  {
    Seqs.Filter(rows, (row: AnimeRow) => IsTarget(row, year, season))
  }

  /** The target is the rows of that year whose season matches ignoring ASCII case,
      in their stored order. */
  lemma TargetRowsFacts(rows: seq<AnimeRow>, year: int, season: string, row: AnimeRow)
    ensures row in TargetRows(rows, year, season) <==> row in rows && IsTarget(row, year, season)
    ensures Seqs.IsSubseq(TargetRows(rows, year, season), rows)
  {
    Seqs.FilterMembership(rows, (r: AnimeRow) => IsTarget(r, year, season), row);
    Seqs.FilterIsSubseq(rows, (r: AnimeRow) => IsTarget(r, year, season));
  }

  /** One feature row laid out on the saved columns: `reindex(columns=cols).fillna(0)`. */
  function Vector(row: FeatureRow, cols: seq<string>): (v: seq<real>)
    ensures |v| == |cols|
  {
    seq(|cols|, j requires 0 <= j < |cols| => if cols[j] in row.values then row.values[cols[j]] else 0.0)
  }

  function Zeros(n: nat): (v: seq<real>)
    ensures |v| == n && forall j | 0 <= j < n :: v[j] == 0.0
  {
    seq(n, j => 0.0)
  }

  function Matches(rows: seq<FeatureRow>, id: Option<Json.Value>): seq<FeatureRow>
  {
    Seqs.Filter(rows, (row: FeatureRow) => row.malId == id)
  }

  function Vectors(rows: seq<FeatureRow>, cols: seq<string>): (vs: seq<seq<real>>)
    ensures |vs| == |rows| && forall i | 0 <= i < |rows| :: vs[i] == Vector(rows[i], cols)
  {
    seq(|rows|, i requires 0 <= i < |rows| => Vector(rows[i], cols))
  }

  /** The matrix `model.predict` receives: the right merge on mal_id yields, per
      target id in order, every feature row with that id, or one all-missing row. */
  function Matrix(rows: seq<FeatureRow>, ids: seq<Option<Json.Value>>, cols: seq<string>): seq<seq<real>>
  {
    if ids == [] then []
    else Block(rows, ids[0], cols) + Matrix(rows, ids[1..], cols)
  }

  /** The vectors an id contributes to the matrix. */
  function Block(rows: seq<FeatureRow>, id: Option<Json.Value>, cols: seq<string>): seq<seq<real>>
  {
    var ms := Matches(rows, id);
    if ms == [] then [Zeros(|cols|)] else Vectors(ms, cols)
  }

  /** With one feature row per id, an id contributes exactly one vector: that row's
      values on the saved columns (0 where absent), or all zeros when no row matches. */
  lemma BlockFacts(rows: seq<FeatureRow>, id: Option<Json.Value>, cols: seq<string>)
    requires Seqs.UniqueKeys(rows, (row: FeatureRow) => row.malId)
    ensures var b := Block(rows, id, cols);
      && |b| == 1 && |b[0]| == |cols|
      && (Matches(rows, id) == [] ==> b[0] == Zeros(|cols|))
      && (Matches(rows, id) != [] ==> |Matches(rows, id)| == 1 && b[0] == Vector(Matches(rows, id)[0], cols))
  {
    UniqueMatch(rows, id);
  }

  /** With one feature row per id the matrix has one vector per target id, in
      target order, and vector i is the block of id i. */
  lemma {:induction false} MatrixFacts(rows: seq<FeatureRow>, ids: seq<Option<Json.Value>>, cols: seq<string>)
    requires Seqs.UniqueKeys(rows, (row: FeatureRow) => row.malId)
    ensures var m := Matrix(rows, ids, cols);
      && |m| == |ids|
      && forall i | 0 <= i < |ids| :: [m[i]] == Block(rows, ids[i], cols)
  {
    if ids != [] {
      MatrixFacts(rows, ids[1..], cols);
      BlockFacts(rows, ids[0], cols);
      var m := Matrix(rows, ids, cols);
      var rest := Matrix(rows, ids[1..], cols);
      assert m == Block(rows, ids[0], cols) + rest;
      forall i | 0 <= i < |ids| ensures [m[i]] == Block(rows, ids[i], cols) {
        if i > 0 {
          assert m[i] == rest[i - 1] && ids[i] == ids[1..][i - 1];
        }
      }
    }
  }

  /** With unique ids, at most one feature row matches an id. */
  lemma UniqueMatch(rows: seq<FeatureRow>, id: Option<Json.Value>)
    requires Seqs.UniqueKeys(rows, (row: FeatureRow) => row.malId)
    ensures |Matches(rows, id)| <= 1
  {
    var p := (row: FeatureRow) => row.malId == id;
    var ms := Matches(rows, id);
    if |ms| >= 2 {
      Seqs.FilterIsSubseq(rows, p);
      SubseqTwoDistinctPositions(ms, rows);
    }
  }

  /** A subsequence with two elements of the same id means two rows with that id. */
  lemma {:induction false} SubseqTwoDistinctPositions(r: seq<FeatureRow>, s: seq<FeatureRow>)
    requires |r| >= 2 && Seqs.IsSubseq(r, s) && r[0].malId == r[1].malId
    ensures !Seqs.UniqueKeys(s, (row: FeatureRow) => row.malId)
    decreases |s|
  {
    if s[0] == r[0] {
      Seqs.SubseqTail(r, s);
      Seqs.IsSubseqIn(r[1..], s[1..], r[1]);
      var k :| 0 <= k < |s| - 1 && s[1..][k] == r[1];
      assert s[k + 1] == r[1];
    } else {
      SubseqTwoDistinctPositions(r, s[1..]);
      var i, j :| 0 <= i < j < |s| - 1 && s[1..][i].malId == s[1..][j].malId;
      assert s[i + 1] == s[1..][i] && s[j + 1] == s[1..][j];
    }
  }

  function Ids(rows: seq<AnimeRow>): (ids: seq<Option<Json.Value>>)
    ensures |ids| == |rows| && forall i | 0 <= i < |rows| :: ids[i] == rows[i].malId
  {
    seq(|rows|, i requires 0 <= i < |rows| => rows[i].malId)
  }

  /** The output table: the target's mal_id, title, year and season, and the prediction. */
  function Output(target: seq<AnimeRow>, preds: seq<real>): (out: seq<PredictionRow>)
    requires |preds| == |target|
    ensures |out| == |target|
    ensures forall i | 0 <= i < |out| ::
      out[i].malId == target[i].malId && out[i].title == target[i].title
      && out[i].year == target[i].year && out[i].season == target[i].season && out[i].predScore == preds[i]
  {
    seq(|target|, i requires 0 <= i < |target| => PredictionRow(target[i].malId, target[i].title, target[i].year, target[i].season, preds[i]))
  }

  /** `model.predict(features.values)`: one prediction per matrix row. */
  function Apply(model: Model, m: seq<seq<real>>): (preds: seq<real>)
    ensures |preds| == |m| && forall i | 0 <= i < |m| :: preds[i] == model(m[i])
  {
    seq(|m|, i requires 0 <= i < |m| => model(m[i]))
  }

  datatype PredictOutcome = NoRows | Saved(file: string, count: nat)

  /** What `predict_for_season(year, season)` returns, and the prediction files
      afterwards, given the files it reads. Only a saved outcome writes a file:
      the season's own, holding one prediction per target row. */
  function Prediction(anime: Option<seq<AnimeRow>>, features: Option<FeatureTable>, columns: Option<seq<string>>,
                      model: Option<Model>, predictions: map<string, seq<PredictionRow>>, year: int, season: string)
    : (p: (Result<PredictOutcome, PredictError>, map<string, seq<PredictionRow>>))
    ensures p.0 == Err(MissingNormalized) <==> anime.None?
    ensures p.0 == Ok(NoRows) <==> anime.Some? && TargetRows(anime.value, year, season) == []
    ensures !(p.0.Ok? && p.0.value.Saved?) ==> p.1 == predictions
    ensures p.0.Ok? && p.0.value.Saved? ==>
      var target := TargetRows(anime.value, year, season);
      && p.0.value.file == PredictionFile(year, Text.Lower(season))
      && p.0.value.count == |target|
      && p.1.Keys == predictions.Keys + {p.0.value.file}
      && |p.1[p.0.value.file]| == |target|
      && forall i | 0 <= i < |target| :: p.1[p.0.value.file][i].malId == target[i].malId
  {
    if anime.None? then (Err(MissingNormalized), predictions)
    else
      var target := TargetRows(anime.value, year, season);
      if target == [] then (Ok(NoRows), predictions)
      else if features.None? then (Err(MissingFeatures), predictions)
      else if columns.None? then (Err(MissingColumns), predictions)
      else if model.None? then (Err(MissingModel), predictions)
      else
        var m := Matrix(features.value.rows, Ids(target), columns.value);
        if |m| != |target| then (Err(LengthMismatch), predictions)
        else
          var file := PredictionFile(year, Text.Lower(season));
          (Ok(Saved(file, |target|)), predictions[file := Output(target, Apply(model.value, m))])
  }

  /** `predict_for_season(year, season)`. */
  method PredictForSeason(ws: Workspace, year: int, season: string) returns (r: Result<PredictOutcome, PredictError>)
    modifies ws`predictions
    ensures ws.anime.None? ==> r == Err(MissingNormalized) && ws.predictions == old(ws.predictions)
    ensures ws.anime.Some? && TargetRows(ws.anime.value, year, season) == [] ==>
      r == Ok(NoRows) && ws.predictions == old(ws.predictions)
    ensures ws.anime.Some? && TargetRows(ws.anime.value, year, season) != [] ==>
      var target := TargetRows(ws.anime.value, year, season);
      if ws.features.None? then r == Err(MissingFeatures) && ws.predictions == old(ws.predictions)
      else if ws.featureColumns.None? then r == Err(MissingColumns) && ws.predictions == old(ws.predictions)
      else if ws.model.None? then r == Err(MissingModel) && ws.predictions == old(ws.predictions)
      else
        var m := Matrix(ws.features.value.rows, Ids(target), ws.featureColumns.value);
        if |m| != |target| then r == Err(LengthMismatch) && ws.predictions == old(ws.predictions)
        else
          var file := PredictionFile(year, Text.Lower(season));
          var out := Output(target, Apply(ws.model.value, m));
          r == Ok(Saved(file, |target|)) && ws.predictions == old(ws.predictions)[file := out]
    ensures (r, ws.predictions) == Prediction(ws.anime, ws.features, ws.featureColumns, ws.model, old(ws.predictions), year, season)
  {
    if ws.anime.None? {
      return Err(MissingNormalized);
    }
    var target := TargetRows(ws.anime.value, year, season);
    if target == [] {
      return Ok(NoRows);
    }
    if ws.features.None? {
      return Err(MissingFeatures);
    }
    if ws.featureColumns.None? {
      return Err(MissingColumns);
    }
    if ws.model.None? {
      return Err(MissingModel);
    }
    var features := Matrix(ws.features.value.rows, Ids(target), ws.featureColumns.value);
    var preds := Apply(ws.model.value, features);
    if |preds| != |target| {
      return Err(LengthMismatch);
    }
    var file := PredictionFile(year, Text.Lower(season));
    ws.predictions := ws.predictions[file := Output(target, preds)];
    r := Ok(Saved(file, |target|));
  }

  /** The `__main__` block: read the normalized table, resolve --season, predict. */
  method RunFromCommandLine(ws: Workspace, arg: string) returns (r: Result<PredictOutcome, PredictError>)
    modifies ws`predictions
    ensures ws.anime.None? ==> r == Err(MissingNormalized) && ws.predictions == old(ws.predictions)
    ensures ws.anime.Some? && ParseSeasonOption(arg, ws.anime.value).Err? ==>
      r == Err(ParseSeasonOption(arg, ws.anime.value).error) && ws.predictions == old(ws.predictions)
    ensures ws.anime.Some? && ParseSeasonOption(arg, ws.anime.value).Ok? ==>
      var (y, s) := ParseSeasonOption(arg, ws.anime.value).value;
      (r, ws.predictions) == Prediction(ws.anime, ws.features, ws.featureColumns, ws.model, old(ws.predictions), y, s)
  {
    if ws.anime.None? {
      return Err(MissingNormalized);
    }
    var target := ParseSeasonOption(arg, ws.anime.value);
    if target.Err? {
      return Err(target.error);
    }
    r := PredictForSeason(ws, target.value.0, target.value.1);
  }
}
