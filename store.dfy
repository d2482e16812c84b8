/** The artifacts the pipeline reads and writes under `data/`, as one object
    whose fields are the files: raw season payloads, the per-id detail cache,
    the normalized and label tables, the feature table and its column list,
    the fitted model and the prediction tables. A missing file is None. */
module Store {
  import opened Wrappers
  import Json
  import Text

  /** One row of normalized/anime.parquet. Item fields keep the raw JSON value
      (None for an absent key or a null); year and season are the bucket's. */
  datatype AnimeRow = AnimeRow(
    malId: Option<Json.Value>,
    title: Option<Json.Value>,
    mediaType: Option<Json.Value>,  // the `type` column
    episodes: Option<Json.Value>,
    duration: Option<Json.Value>,
    source: Option<Json.Value>,
    rating: Option<Json.Value>,
    year: Option<int>,
    season: Option<string>,
    synopsis: Option<Json.Value>,
    members: Option<Json.Value>,
    favorites: Option<Json.Value>,
    score: Option<Json.Value>,
    status: Option<Json.Value>,
    studios: Option<Json.Value>,
    demographics: Option<Json.Value>,
    genres: Option<Json.Value>,
    relations: Option<Json.Value>,
    seasonKey: Option<string>)

  /** One row of normalized/labels.parquet. */
  datatype LabelRow = LabelRow(
    malId: Option<int>,
    finalScore: Option<real>,
    membersDetail: Option<Json.Value>,
    favoritesDetail: Option<Json.Value>)

  /** labels.parquet; a file without a mal_id column reads every id as missing. */
  datatype LabelFile = LabelFile(hasIdColumn: bool, rows: seq<LabelRow>)

  /** raw/details/{mal_id}.json: its text parses as JSON, or it does not. */
  datatype CacheEntry = Parsed(doc: Json.Value) | Unparseable

  /** One row of features/features.parquet: the feature values by column name,
      plus the id, label and grouping columns carried alongside. */
  datatype FeatureRow = FeatureRow(
    malId: Option<Json.Value>,
    values: map<string, real>,
    labelScore: Option<Json.Value>,
    seasonKey: Option<string>)

  /** features.parquet: the feature columns in order and the rows. */
  datatype FeatureTable = FeatureTable(columns: seq<string>, rows: seq<FeatureRow>)

  /** One row of predictions/predictions_{year}_{season}.parquet. */
  datatype PredictionRow = PredictionRow(
    malId: Option<Json.Value>,
    title: Option<Json.Value>,
    year: Option<int>,
    season: Option<string>,
    predScore: real)

  /** The name of the predictions file of a season: "predictions_{year}_{season}.parquet". */
  function PredictionFile(year: int, season: string): string
  {
    "predictions_" + Text.IntToString(year) + "_" + season + ".parquet"
  }

  /** Different seasons never share a predictions file. */
  lemma PredictionFileInjective(y1: int, s1: string, y2: int, s2: string)
    requires PredictionFile(y1, s1) == PredictionFile(y2, s2)
    ensures y1 == y2 && s1 == s2
  {
    var a, b := Text.IntToString(y1), Text.IntToString(y2);
    PredictionFileTail(y1, s1);
    PredictionFileTail(y2, s2);
    Text.SplitFirstAt(a, '_', s1 + ".parquet");
    Text.SplitFirstAt(b, '_', s2 + ".parquet");
    Text.IntToStringInjective(y1, y2);
    DropSuffix(s1, s2, ".parquet");
  }

  /** After the fixed 12-character prefix, a predictions file name is the year,
      an underscore, and the season with its extension. */
  lemma PredictionFileTail(y: int, s: string)
    ensures |PredictionFile(y, s)| >= 12
    ensures PredictionFile(y, s)[12..] == Text.IntToString(y) + "_" + (s + ".parquet")
  {
    var t := Text.IntToString(y) + "_" + (s + ".parquet");
    assert PredictionFile(y, s) == "predictions_" + t;
  }

  lemma DropSuffix(s1: string, s2: string, suffix: string)
    requires s1 + suffix == s2 + suffix
    ensures s1 == s2
  {
    assert |s1| == |s2|;
    assert s1 == (s1 + suffix)[..|s1|];
    assert s2 == (s2 + suffix)[..|s2|];
  }

  /** models/rf_model.joblib: the fitted regressor, one prediction per feature vector. */
  type Model = seq<real> -> real

  class Workspace {
    /** raw/{year}_{season}/season.json, keyed by the directory name. */
    var rawSeasons: map<string, Json.Value>
    /** raw/details/{mal_id}.json, keyed by the id. */
    var details: map<int, CacheEntry>
    /** normalized/anime.parquet. */
    var anime: Option<seq<AnimeRow>>
    /** normalized/labels.parquet. */
    var labels: Option<LabelFile>
    /** features/features.parquet. */
    var features: Option<FeatureTable>
    /** features/feature_columns.json. */
    var featureColumns: Option<seq<string>>
    /** models/rf_model.joblib. */
    var model: Option<Model>
    /** predictions/predictions_{year}_{season}.parquet files, keyed by file name. */
    var predictions: map<string, seq<PredictionRow>>

    /** A fresh data directory: the directories exist, no file does. */
    constructor()
      ensures rawSeasons == map[] && details == map[] && anime == None && labels == None
      ensures features == None && featureColumns == None && model == None && predictions == map[]
    {
      rawSeasons := map[];
      details := map[];
      anime := None;
      labels := None;
      features := None;
      featureColumns := None;
      model := None;
      predictions := map[];
    }
  }
}
