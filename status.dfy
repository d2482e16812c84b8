/** The status report (src/utils/status.py): parse the --season argument, resolve
    "auto" to the season after the latest normalized bucket, and decide which
    pipeline steps to suggest from what exists in the data directory. */
module Status {
  import opened Wrappers
  import Text
  import Seasons
  import opened Store

  datatype StatusError =
    | BadSeasonArg                    // SystemExit: neither empty, "auto" nor "YEAR:SEASON"
    | BadYear                         // int(y) raises on the part before the colon
    | Detect(cause: Seasons.SeasonError)

  /** `parse_season_arg(arg)`: (year, season) or the error it raises. */
  function ParseSeasonArg(arg: Option<string>): (r: Result<(Option<int>, Option<string>), StatusError>)
    ensures arg.None? || arg == Some("") ==> r == Ok((None, None))
    ensures arg == Some("auto") ==> r == Ok((None, Some("auto")))
    ensures arg.Some? && arg.value != "" && arg.value != "auto" && ':' !in arg.value ==> r == Err(BadSeasonArg)
    ensures r.Ok? && r.value.0.Some? ==> r.value.1.Some? && Text.Lower(r.value.1.value) == r.value.1.value
    ensures r.Ok? && r.value.0.None? ==> r.value.1.None? || r.value.1 == Some("auto")
  {
    if arg.None? || arg.value == "" then Ok((None, None))
    else if arg.value == "auto" then Ok((None, Some("auto")))
    else match Text.SplitFirst(arg.value, ':')
      case None => Err(BadSeasonArg)
      case Some((y, s)) =>
        match Text.ParseInt(y)
        case None => Err(BadYear)
        case Some(year) =>
          Text.LowerIdempotent(s);
          Ok((Some(year), Some(Text.Lower(s))))
  }

  /** "Y:S" parses back to Y and the lowercased S, whatever S holds (colons included). */
  lemma ParseSeasonArgRoundTrip(year: int, season: string)
    ensures ParseSeasonArg(Some(Text.IntToString(year) + ":" + season)) == Ok((Some(year), Some(Text.Lower(season))))
  {
    var y := Text.IntToString(year);
    assert ':' !in y;
    Text.SplitFirstAt(y, ':', season);
    Text.ParseIntToString(year);
  }

  /** The bucket a row contributes: its year and lowercased season, when it has both. */
  function BucketOf(row: AnimeRow): seq<(int, string)>
  {
    if row.year.Some? && row.season.Some? then [(row.year.value, Text.Lower(row.season.value))] else []
  }

  /** `df_norm.dropna(subset=["year", "season"])` with the season lowercased, in row order. */
  function Buckets(rows: seq<AnimeRow>): seq<(int, string)>
  {
    if rows == [] then [] else BucketOf(rows[0]) + Buckets(rows[1..])
  }

  /** A bucket is present exactly when some row has that year and, lowercased, that season. */
  lemma {:induction false} BucketsMembership(rows: seq<AnimeRow>, y: int, s: string)
    ensures (y, s) in Buckets(rows) <==>
      exists i | 0 <= i < |rows| :: rows[i].year == Some(y) && rows[i].season.Some? && Text.Lower(rows[i].season.value) == s
  {
    if rows != [] {
      BucketsMembership(rows[1..], y, s);
      assert forall i | 1 <= i < |rows| :: rows[i] == rows[1..][i - 1];
      if (y, s) in Buckets(rows[1..]) {
        var i :| 0 <= i < |rows| - 1 && rows[1..][i].year == Some(y) && rows[1..][i].season.Some? && Text.Lower(rows[1..][i].season.value) == s;
        assert rows[i + 1] == rows[1..][i];
      }
    }
  }

  /** `detect_next_season(df_norm)` with `datetime.now().year` passed in: winter of
      the current year when no row has both year and season. */
  function DetectNextSeason(rows: seq<AnimeRow>, currentYear: int): (r: Result<(int, string), Seasons.SeasonError>)
    ensures Buckets(rows) == [] ==> r == Ok((currentYear, "winter"))
    ensures r != Err(Seasons.NoSeasons)
    ensures r.Ok? ==> r.value.1 in Seasons.Order
  {
    var b := Buckets(rows);
    if b == [] then Ok((currentYear, "winter")) else Seasons.Next(b)
  }

  /** When there are present buckets, the detected season is one of the four and
      strictly later than every row whose lowercased season is one of the four. */
  lemma {:induction false} DetectNextSeasonIsLater(rows: seq<AnimeRow>, currentYear: int)
    requires Buckets(rows) != [] && DetectNextSeason(rows, currentYear).Ok?
    ensures var (y, s) := DetectNextSeason(rows, currentYear).value;
      && Seasons.IndexOf(s).Some?
      && (forall i | 0 <= i < |rows| && rows[i].year.Some? && rows[i].season.Some?
                     && Seasons.IndexOf(Text.Lower(rows[i].season.value)).Some? ::
            Seasons.Before((rows[i].year.value, Seasons.IndexOf(Text.Lower(rows[i].season.value)).value),
                           (y, Seasons.IndexOf(s).value)))
  {
    var b := Buckets(rows);
    Seasons.NextIsSuccessorOfLatest(b);
    var (y, s) := Seasons.Next(b).value;
    forall i | 0 <= i < |rows| && rows[i].year.Some? && rows[i].season.Some?
               && Seasons.IndexOf(Text.Lower(rows[i].season.value)).Some?
      ensures Seasons.Before((rows[i].year.value, Seasons.IndexOf(Text.Lower(rows[i].season.value)).value),
                             (y, Seasons.IndexOf(s).value))
    {
      BucketsMembership(rows, rows[i].year.value, Text.Lower(rows[i].season.value));
      var k :| 0 <= k < |b| && b[k] == (rows[i].year.value, Text.Lower(rows[i].season.value));
      assert Seasons.Position(b[k]) == (rows[i].year.value, Seasons.IndexOf(Text.Lower(rows[i].season.value)).value);
    }
  }

  /** ... and it is the successor of one of those rows' seasons, so no season lies
      between the latest present bucket and the detected one. */
  lemma {:induction false} DetectNextSeasonIsSuccessor(rows: seq<AnimeRow>, currentYear: int)
    requires Buckets(rows) != [] && DetectNextSeason(rows, currentYear).Ok?
    ensures var (y, s) := DetectNextSeason(rows, currentYear).value;
      && Seasons.IndexOf(s).Some?
      && (exists i | 0 <= i < |rows| && rows[i].year.Some? && rows[i].season.Some?
                     && Seasons.IndexOf(Text.Lower(rows[i].season.value)).Some? ::
            Seasons.Successor(rows[i].year.value, Seasons.IndexOf(Text.Lower(rows[i].season.value)).value)
              == (y, Seasons.IndexOf(s).value))
  {
    var b := Buckets(rows);
    Seasons.NextIsSuccessorOfLatest(b);
    var (y, s) := Seasons.Next(b).value;
    var k :| 0 <= k < |b| && Seasons.IndexOf(b[k].1).Some?
      && Seasons.Successor(b[k].0, Seasons.IndexOf(b[k].1).value) == (y, Seasons.IndexOf(s).value);
    assert b[k] in b;
    BucketsMembership(rows, b[k].0, b[k].1);
    var i :| 0 <= i < |rows| && rows[i].year == Some(b[k].0) && rows[i].season.Some? && Text.Lower(rows[i].season.value) == b[k].1;
  }

  /** The suggestions of the "Next actions" section. */
  datatype Action =
    | IngestHistory            // ingest 2012..2024, all four seasons
    | IngestAppend             // then ingest 2025 fall
    | IngestDetails            // ingest_details --year-min 2018 --year-max 2024
    | BuildFeatures
    | Train
    | Predict(year: int, season: string)

  /** The position of an action in the printed list: the order of the checks in `main`. */
  function Rank(a: Action): nat
  {
    match a
    case IngestHistory => 0
    case IngestAppend => 1
    case IngestDetails => 2
    case BuildFeatures => 3
    case Train => 4
    case Predict(_, _) => 5
  }

  /** Each action at most once, in the order `main` prints them. */
  predicate InCascadeOrder(actions: seq<Action>)
  {
    forall i, j | 0 <= i < j < |actions| :: Rank(actions[i]) < Rank(actions[j])
  }

  /** `df_feat["label_score"].notna().sum()`. */
  function Labeled(rows: seq<FeatureRow>): (n: nat)
    ensures n <= |rows|
    ensures n > 0 <==> exists i | 0 <= i < |rows| :: rows[i].labelScore.Some?
  {
    if rows == [] then 0
    else
      assert forall i | 1 <= i < |rows| :: rows[i] == rows[1..][i - 1];
      (if rows[0].labelScore.Some? then 1 else 0) + Labeled(rows[1..])
  }

  /** The number of normalized rows, 0 when the file is missing. */
  function NormRows(anime: Option<seq<AnimeRow>>): nat
  {
    if anime.Some? then |anime.value| else 0
  }

  /** `season_year and season_name`: both present, the year non-zero and the name non-empty. */
  predicate HasTarget(year: Option<int>, name: Option<string>)
  {
    year.Some? && year.value != 0 && name.Some? && name.value != ""
  }

  /** The target season after "auto" is resolved; "auto" is resolved only when
      normalized rows exist, and a detection error propagates. */
  function ResolveTarget(parsed: (Option<int>, Option<string>), anime: Option<seq<AnimeRow>>, currentYear: int)
    : (r: Result<(Option<int>, Option<string>), StatusError>)
    ensures parsed.1 != Some("auto") || NormRows(anime) == 0 ==> r == Ok(parsed)
    ensures r.Ok? && parsed.1 == Some("auto") && NormRows(anime) > 0 ==>
      r.value.0.Some? && r.value.1.Some? && r.value.1.value in Seasons.Order
  {
    if parsed.1 == Some("auto") && NormRows(anime) > 0 then
      match DetectNextSeason(anime.value, currentYear)
      case Err(e) => Err(Detect(e))
      case Ok((y, s)) => Ok((Some(y), Some(s)))
    else Ok(parsed)
  }

  /** The suggestion of one check: the action when the check fires, else nothing. */
  function Pick(fires: bool, a: Action): (r: seq<Action>)
    ensures |r| == if fires then 1 else 0
    ensures forall i | 0 <= i < |r| :: r[i] == a
  {
    if fires then [a] else []
  }

  /** The predict suggestion, when there is one. */
  function PickPredict(predict: Option<(int, string)>): (r: seq<Action>)
    ensures |r| == if predict.Some? then 1 else 0
    ensures forall i | 0 <= i < |r| :: r[i] == Predict(predict.value.0, predict.value.1)
  {
    if predict.Some? then [Predict(predict.value.0, predict.value.1)] else []
  }

  /** The suggestion lines of the checks that fire, in the order they are made. */
  function Cascade(details: bool, build: bool, train: bool, predict: Option<(int, string)>): seq<Action>
  {
    Pick(details, IngestDetails) + Pick(build, BuildFeatures) + Pick(train, Train) + PickPredict(predict)
  }

  /** The cascade suggests exactly the actions whose check fires, each once, in
      the order of the checks, and never an ingest run. */
  lemma CascadeFacts(details: bool, build: bool, train: bool, predict: Option<(int, string)>)
    ensures var c := Cascade(details, build, train, predict);
      && (IngestHistory !in c && IngestAppend !in c)
      && (IngestDetails in c <==> details)
      && (BuildFeatures in c <==> build)
      && (Train in c <==> train)
      && (forall y, s :: Predict(y, s) in c <==> predict == Some((y, s)))
      && |c| <= 4
      && InCascadeOrder(c)
  {
    CascadeOrdered(details, build, train, predict);
  }

  /** The cascade lists its actions in the order of the checks. */
  lemma CascadeOrdered(details: bool, build: bool, train: bool, predict: Option<(int, string)>)
    ensures InCascadeOrder(Cascade(details, build, train, predict))
  {
    LeadingChecksOrdered(details, build, train);
    OrderedAppend(Pick(details, IngestDetails) + Pick(build, BuildFeatures) + Pick(train, Train), PickPredict(predict), 5);
  }

  /** The details, build and train suggestions come in that order, all ranked below predict. */
  lemma LeadingChecksOrdered(details: bool, build: bool, train: bool)
    ensures var c := Pick(details, IngestDetails) + Pick(build, BuildFeatures) + Pick(train, Train);
      InCascadeOrder(c) && RanksBelow(c, 5)
  {
    var d, b := Pick(details, IngestDetails), Pick(build, BuildFeatures);
    assert InCascadeOrder(d) && RanksBelow(d, 3) by {
      OrderedAppend([], d, 2);
      assert [] + d == d;
    }
    assert InCascadeOrder(d + b) && RanksBelow(d + b, 4) by {
      OrderedAppend(d, b, 3);
    }
    OrderedAppend(d + b, Pick(train, Train), 4);
  }

  /** Every action of the list ranks below k. */
  predicate RanksBelow(actions: seq<Action>, k: nat)
  {
    forall i | 0 <= i < |actions| :: Rank(actions[i]) < k
  }

  /** Appending at most one action ranked k to an ordered list whose ranks are all
      below k keeps it ordered, with all ranks below k + 1. */
  lemma OrderedAppend(x: seq<Action>, y: seq<Action>, k: nat)
    requires InCascadeOrder(x) && RanksBelow(x, k)
    requires |y| <= 1 && forall i | 0 <= i < |y| :: Rank(y[i]) == k
    ensures InCascadeOrder(x + y) && RanksBelow(x + y, k + 1)
  {
    var xy := x + y;
    forall i | 0 <= i < |xy| ensures Rank(xy[i]) < k + 1 {
      if i < |x| {
        assert xy[i] == x[i];
      } else {
        assert xy[i] == y[i - |x|];
      }
    }
    forall i, j | 0 <= i < j < |xy| ensures Rank(xy[i]) < Rank(xy[j]) {
      assert xy[i] == x[i];
      if j < |x| {
        assert xy[j] == x[j];
      } else {
        assert xy[j] == y[j - |x|];
      }
    }
  }

  /** The suggestions after the early return for an empty normalized table. */
  method Suggest(ws: Workspace, year: Option<int>, name: Option<string>) returns (actions: seq<Action>)
    ensures var featRows := if ws.features.Some? then ws.features.value.rows else [];
      && (IngestHistory !in actions && IngestAppend !in actions)
      && (IngestDetails in actions <==> ws.labels.None? || ws.labels.value.rows == [])
      && (BuildFeatures in actions <==> featRows == [])
      && (Train in actions <==> ws.model.None? && featRows != [] && Labeled(featRows) > 0)
      && (forall y, s :: Predict(y, s) in actions <==>
            HasTarget(year, name) && y == year.value && s == name.value
            && PredictionFile(y, s) !in ws.predictions && ws.model.Some?)
      && |actions| <= 4
      && InCascadeOrder(actions)
  {
    var featRows := if ws.features.Some? then ws.features.value.rows else [];
    var labeled := if featRows != [] then Labeled(featRows) else 0;
    var details := ws.labels.None? || ws.labels.value.rows == [];
    var build := featRows == [];
    var train := ws.model.None? && (featRows != [] && labeled > 0);
    var predict := if HasTarget(year, name) && PredictionFile(year.value, name.value) !in ws.predictions && ws.model.Some?
                   then Some((year.value, name.value)) else None;
    actions := [];
    if details {
      actions := actions + [IngestDetails];
    }
    assert actions == Pick(details, IngestDetails);
    if build {
      actions := actions + [BuildFeatures];
    }
    assert actions == Pick(details, IngestDetails) + Pick(build, BuildFeatures);
    if train {
      actions := actions + [Train];
    }
    assert actions == Pick(details, IngestDetails) + Pick(build, BuildFeatures) + Pick(train, Train);
    if predict.Some? {
      actions := actions + [Predict(year.value, name.value)];
    }
    assert actions == Cascade(details, build, train, predict);
    CascadeFacts(details, build, train, predict);
  }

  /** `main`'s decision cascade over the files present: the season argument is
      parsed first (an error exits before anything else), an empty normalized
      table suggests only the two ingest runs, and otherwise each missing
      artifact suggests the step that builds it. */
  method NextActions(ws: Workspace, seasonArg: Option<string>, currentYear: int) returns (r: Result<seq<Action>, StatusError>)
    ensures ParseSeasonArg(seasonArg).Err? ==> r == Err(ParseSeasonArg(seasonArg).error)
    ensures ParseSeasonArg(seasonArg).Ok? && NormRows(ws.anime) == 0 ==> r == Ok([IngestHistory, IngestAppend])
    ensures ParseSeasonArg(seasonArg).Ok? && NormRows(ws.anime) > 0 ==>
      var target := ResolveTarget(ParseSeasonArg(seasonArg).value, ws.anime, currentYear);
      && (target.Err? ==> r == Err(target.error))
      && (target.Ok? ==>
            var (year, name) := target.value;
            var featRows := if ws.features.Some? then ws.features.value.rows else [];
            && r.Ok?
            && (IngestHistory !in r.value && IngestAppend !in r.value)
            && (IngestDetails in r.value <==> ws.labels.None? || ws.labels.value.rows == [])
            && (BuildFeatures in r.value <==> featRows == [])
            && (Train in r.value <==> ws.model.None? && featRows != [] && Labeled(featRows) > 0)
            && (forall y, s :: Predict(y, s) in r.value <==>
                  HasTarget(year, name) && y == year.value && s == name.value
                  && PredictionFile(y, s) !in ws.predictions && ws.model.Some?)
            && InCascadeOrder(r.value))
  {
    var parsed := ParseSeasonArg(seasonArg);
    if parsed.Err? {
      return Err(parsed.error);
    }
    var target := ResolveTarget(parsed.value, ws.anime, currentYear);
    if target.Err? {
      return Err(target.error);
    }
    if NormRows(ws.anime) == 0 {
      return Ok([IngestHistory, IngestAppend]);
    }
    var actions := Suggest(ws, target.value.0, target.value.1);
    r := Ok(actions);
  }
}
