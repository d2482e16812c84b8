# MAL anime score predictor: a Dafny model of the pipeline

This project models the MyAnimeList score-prediction pipeline and proves properties about it. The pipeline has these stages:

- **Season ingest.** It fetches one list per (year, season) bucket from the Jikan catalog API. It normalizes the items into `anime.parquet` rows stamped with the bucket and a `season_key`. It overwrites the table with the run's buckets.
- **Label backfill.** It picks the normalized titles that still lack a label and fetches each title's detail document through a per-id cache. It extracts a label row from each document and merges the rows into `labels.parquet`. The newest row per id wins.
- **Features.** It fills numeric defaults, derives clipped text lengths, one-hot encodes four categoricals and fixes the column layout.
- **Predict.** It selects a season's rows, aligns them to the saved feature columns and writes a predictions file.
- **Status.** It reads what exists and suggests the next commands.
- **Frontend.** It loads predictions and hydrates missing covers. It searches and sorts, exports CSV, bands scores into badges and picks cover images.

How the model is built:

- The on-disk artifacts form one object, `Store.Workspace`. It has a field per file, and the steps that write files update those fields in place.
- Tables are sequences of records whose fields are `Option`s; a pandas NaN or a JSON null is `None`.
- The detail cache is a map from id to a parsed document or an unparseable file.
- Raw season payloads are a map keyed by `"{year}_{season}"`.
- The network is an oracle, a function from URL to reply. The Jikan client is a class with a log of the effects it performs (request, then cooldown sleep), so their order can be stated.
- Python exceptions and `SystemExit` become `Err` values.
- The trained regressor is an opaque function from a feature vector to a real.

Helper modules:

- `Wrappers` holds `Option` and `Result`.
- `Json` holds JSON values with Python's `dict.get`, `int()`, `float()` and truthiness.
- `Js` holds the JavaScript reading of the same values: truthiness, optional chaining and `||` chains.
- `Text` holds decimal conversion, ASCII lower-casing, trimming and joining.
- `Seqs` holds filtering and pandas' `drop_duplicates` with keep-first and keep-last.
- `Seasons` holds the season order and the successor rule, which `src/utils/status.py` and `src/models/predict.py` share.

## Model

| member | source | states |
|---|---|---|
| Client.RStripSlashes | src/mal/client.py:15 | the result is a prefix of the input, does not end in '/', and only '/' characters were removed |
| Client.LStripSlashes | src/mal/client.py:19 | the result is a suffix of the input, does not start with '/', and only '/' characters were removed |
| Client.RequestUrlOneSlash | src/mal/client.py:19 | the URL is the stripped base, exactly one '/', then the path without its leading slashes |
| Client.SeasonPathInjective | src/mal/client.py:26-31 | distinct (year, season) pairs give distinct season paths, and none equals the upcoming path |
| Client.AnimePathInjective | src/mal/client.py:34-35 | distinct ids give distinct detail paths |
| Client.Outcome | src/mal/client.py:20-23 | a call succeeds iff a reply arrived, its status does not raise, and it decodes; an unreachable host is a connection error and a raising status an HTTP error carrying the status |
| Client.CallEffects | src/mal/client.py:18-23 | each call issues exactly one request first; the cooldown sleep follows iff the status did not raise; a successful call always slept |
| Client.JikanClient.constructor | src/mal/client.py:14-16 | the stored base has its trailing slashes stripped; the cooldown is kept; nothing has happened yet |
| Client.JikanClient.Get | src/mal/client.py:18-23 | the result is the outcome of the single reply for the composed URL, and the effect log grows by exactly that call's effects |
| Client.JikanClient.Season | src/mal/client.py:26-27 | a GET of `seasons/{year}/{season}` |
| Client.JikanClient.SeasonsUpcoming | src/mal/client.py:30-31 | a GET of `seasons/upcoming` |
| Client.JikanClient.Anime | src/mal/client.py:34-35 | a GET of `anime/{mal_id}/full` |
| Client.NewAnimeItem | src/mal/client.py:39-57 | a record built from an id alone has that id and every optional field None |
| Ingest.YearRow | src/ingest.py:20-21 | the inner loop yields (year, s) for each season, in the given order |
| Ingest.GridLength | src/ingest.py:18-21 | the grid has (end-start+1)·\|seasons\| pairs, and none when start > end |
| Ingest.GridEmpty | src/ingest.py:18-21 | the grid is empty iff start > end or no season is given |
| Ingest.GridMembers | src/ingest.py:18-21 | a pair is in the grid iff its year lies in [start, end] and its season is one of the given ones |
| Ingest.GridYearsAscending | src/ingest.py:18-21 | years never decrease along the grid |
| Ingest.SeasonIter | src/ingest.py:18-21 | the nested loops produce exactly the grid |
| Ingest.DataItems | src/ingest.py:25 | a payload without "data" gives no items, a list gives its items, and a non-dict payload is an error |
| Ingest.NormalizeItem | src/ingest.py:29-48 | a row carries the bucket's year and season, not the item's; mal_id and title are read with dict.get, so an absent or null key is None |
| Ingest.NormalizeSeasonPayload | src/ingest.py:24-51 | the loop's result equals the normalization function |
| Ingest.NormalizeFacts | src/ingest.py:24-51 | the normalized rows are a subsequence of the item rows in item order; they are stamped with the bucket, have one row per mal_id, cover every id, and keep each id's first occurrence |
| Ingest.SeasonKeyInjective | src/ingest.py:70 | distinct buckets have distinct season keys |
| Ingest.WithSeasonKey | src/ingest.py:70 | every row gets season_key "{year}_{season}" and nothing else changes |
| Ingest.StepCases | src/ingest.py:59-71 | per bucket: a fetch failure stops the run before anything is saved; otherwise the raw payload is saved under its key before normalization, and a normalization error stops the run after that save |
| Ingest.IngestBucket | src/ingest.py:59-71 | one loop iteration performs exactly one bucket step on the workspace and the client's log |
| Ingest.RunIngest | src/ingest.py:54-76 | anime.parquet is overwritten with exactly the concatenated rows of this run; it is untouched when any bucket fails or when there is nothing to concatenate; the raw files are those the steps saved |
| Ingest.StepsStopAfterFailure | src/ingest.py:59-61 | after the first failure no further bucket is fetched |
| Ingest.StepRows | src/ingest.py:68-71 | a step keeps the rows so far and appends only rows of its own bucket, each carrying its season key |
| Ingest.AppendStamped | src/ingest.py:70-71 | appending a bucket's rows with their season key keeps the earlier rows and adds only stamped rows of that bucket |
| Ingest.StepRaw | src/ingest.py:61-66 | a step loses no raw file, and a step that did not stop the run has saved its bucket's payload |
| Ingest.StepsFacts | src/ingest.py:59-73 | every accumulated row belongs to a visited bucket and has its season key; on success every visited bucket has a raw file |
| Ingest.StepsRows | src/ingest.py:59-73 | after n buckets every accumulated row has its season key and belongs to one of the first n buckets |
| Ingest.StepsKeepRaw | src/ingest.py:63-66 | no raw file written before the loop or by an earlier bucket is lost |
| Ingest.StepsRaw | src/ingest.py:63-66 | when no bucket failed, each of the first n buckets has its raw payload saved |
| Ingest.IngestAll | src/ingest.py:59-71 | the loop ends in exactly the state the bucket steps give: raw files, rows, the failure that stopped it and the client's log |
| IngestDetails.Projected | src/ingest_details.py:26 | candidate rows are the four columns mal_id, year, season and title of each normalized row |
| IngestDetails.LabelledIds | src/ingest_details.py:38 | without a mal_id column the labelled set is empty; otherwise it is exactly the stored ids, and a missing stored id is an error |
| IngestDetails.Candidates | src/ingest_details.py:22-24 | a missing anime.parquet is an error, and it is the only error when there is no label file |
| IngestDetails.FilteredMembership | src/ingest_details.py:26-32 | before the labelled-id exclusion, a row is kept iff it projects a normalized row and its year is missing or within each given bound; deduplication on the four columns leaves no repeats |
| IngestDetails.CandidatesMembership | src/ingest_details.py:26-39 | a candidate is returned iff it projects a normalized row, its year is missing or within each given bound, and (when labels exist) its id is not labelled; no candidate is returned twice |
| IngestDetails.CachePathInjective | src/ingest_details.py:44-45 | distinct ids have distinct cache files |
| IngestDetails.AsPython | src/ingest_details.py:55 | a cached document of null reads as None, and any other document reads as itself |
| IngestDetails.Fetch | src/ingest_details.py:48-65 | a parseable cache hit is returned with no effects and no change; a miss or corrupt file makes exactly one detail request, with the client's effects for its reply; a client failure returns None and leaves the cache as it was; a successful fetch returns the payload and stores it in the cache; other entries are untouched |
| IngestDetails.FetchOnce | src/ingest_details.py:52-61 | once an id has been fetched, a second lookup is served from the cache without any request |
| IngestDetails.FetchDetail | src/ingest_details.py:48-65 | the method's result, cache and effects equal the fetch specification |
| IngestDetails.ScoreOf | src/ingest_details.py:73 | the score is read from "score"; "scored" is used only when "score" is absent; null gives None |
| IngestDetails.ExtractLabel | src/ingest_details.py:68-87 | a missing or falsy "data" gives no label; a missing or non-int-coercible mal_id gives no label; otherwise the label is exactly {mal_id, final_score, members_detail, favorites_detail}; a non-dict payload or data is an error |
| IngestDetails.Aligned | src/ingest_details.py:116-119 | stored rows from a file without a mal_id column take part in the merge with a missing id |
| IngestDetails.MergedFacts | src/ingest_details.py:112-124 | the merged table has one row per id and its ids are the stored ids plus the new ones; this run's first row per id wins, and a stored row survives iff its id was not fetched again, as that id's last stored row |
| IngestDetails.VisitCandidate | src/ingest_details.py:100-107 | one loop iteration performs exactly one visit step on the cache, the rows and the effect log |
| IngestDetails.VisitAll | src/ingest_details.py:100-110 | the loop over the candidates ends in exactly the state the visit steps give: detail cache, label rows, effect log and the exception that stopped it |
| IngestDetails.VisitRowsHaveIds | src/ingest_details.py:105-107 | when every label row so far has an id, every row after one more visit does too |
| IngestDetails.VisitsStopAfterCrash | src/ingest_details.py:100-107 | after an exception in the loop no further candidate is visited |
| IngestDetails.BackfillLabels | src/ingest_details.py:90-127 | a candidate error or an empty candidate set changes nothing and performs no effect; otherwise the loop's cache and effects are kept; labels.parquet becomes the merge of the stored rows with this run's rows, unless the loop crashed or extracted no label, which is an error that leaves it untouched |
| IngestDetails.VisitsRowsHaveIds | src/ingest_details.py:105-107 | every accumulated label row has an id |
| Status.ParseSeasonArg | src/utils/status.py:23-31 | None or "" gives (None, None); "auto" gives (None, "auto"); an argument without ':' is an error; a parsed season is lowercase |
| Status.ParseSeasonArgRoundTrip | src/utils/status.py:28-30 | "Y:S" parses to (Y, lowercase S) |
| Status.BucketsMembership | src/utils/status.py:36-41 | a bucket is present iff some row has that year and that lowercased season |
| Status.DetectNextSeason | src/utils/status.py:33-47 | without any row that has both a year and a season the answer is (current year, "winter"); the season returned is always one of the four |
| Status.DetectNextSeasonIsLater | src/utils/status.py:40-46 | the answer is strictly later than every present bucket with a known season |
| Status.DetectNextSeasonIsSuccessor | src/utils/status.py:42-46 | the answer is the successor of a present bucket |
| Status.Labeled | src/utils/status.py:73 | the count is positive iff some feature row has a label score |
| Status.ResolveTarget | src/utils/status.py:76-77 | "auto" with normalized rows resolves to a concrete year and season; otherwise the parsed target is kept |
| Status.Suggest | src/utils/status.py:130-137 | backfill is suggested iff labels are missing or empty; build iff there are no features; train iff the model is missing and some feature row is labelled; predict iff a target is set, its file is missing and the model exists; ingest is never suggested here; each action appears at most once, in the order backfill, build, train, predict |
| Status.CascadeFacts | src/utils/status.py:130-137 | the checks made in sequence suggest exactly the actions whose check fires, each once, strictly in check order, and never an ingest run |
| Status.CascadeOrdered | src/utils/status.py:130-137 | the suggestion lines come out in the order the checks are made |
| Status.NextActions | src/utils/status.py:53-137 | an unparseable argument is an error; with zero normalized rows only the two ingest suggestions are made; otherwise the cascade above applies, each action at most once and in check order |
| Seasons.IndexOf | src/utils/status.py:35 | a season's index names it, and only the four names have one |
| Seasons.Successor | src/utils/status.py:44-46 | the successor is later than the bucket and no valid bucket lies strictly between them; fall rolls over to winter of the next year |
| Seasons.MaxYear | src/utils/status.py:42-43 | the latest year present |
| Seasons.MaxIndexAt | src/utils/status.py:42-43 | the latest season index within the latest year |
| Seasons.Next | src/models/predict.py:20-26 | no buckets is an error; a latest year with an unknown season is an error; otherwise the answer is one of the four season names |
| Seasons.NextIsSuccessorOfLatest | src/models/predict.py:22-26 | the answer is the successor of a present bucket and later than every present bucket |
| Predict.DetectNextSeason | src/models/predict.py:18-27 | it fails with no seasons iff no row has both a year and a season, and with an unknown season iff some bucket of the latest year has a name that is not exactly one of the four (its NaN index sorts last and `int(NaN)` raises); the answer is one of the four names |
| Predict.BucketsAgree | src/models/predict.py:20-21 | on lowercase seasons, the bucket sets of the two detectors coincide |
| Predict.DetectAgreesWithStatus | src/models/predict.py:18-27 | on lowercase seasons, both detectors give the same next season |
| Predict.ParseSeasonOption | src/models/predict.py:72-78 | "auto" succeeds iff detection does; an argument without ':' is an error |
| Predict.ParseSeasonOptionRoundTrip | src/models/predict.py:74-76 | "Y:S" parses to (Y, S) with the season's case kept |
| Predict.TargetRowsFacts | src/models/predict.py:37 | the target rows are the rows, in order, whose year equals the year and whose lowercased season equals the lowercased argument |
| Predict.Zeros | src/models/predict.py:50 | a row with no matching features is all zeros |
| Predict.Vectors | src/models/predict.py:46-51 | one vector per feature row, in the saved column order |
| Predict.BlockFacts | src/models/predict.py:46-51 | with unique feature ids, each target id contributes exactly one row: its feature vector in column order, or zeros when it has none |
| Predict.MatrixFacts | src/models/predict.py:46-51 | with unique feature ids, the matrix has one row per target row, aligned with it |
| Predict.UniqueMatch | src/models/predict.py:47 | with unique feature ids, the right merge matches at most one feature row |
| Predict.Ids | src/models/predict.py:47 | the merge keys are the target rows' ids, in order |
| Predict.Output | src/models/predict.py:56-57 | one output row per target row, with its mal_id, title, year and season and the prediction at the same position |
| Predict.Apply | src/models/predict.py:54 | one prediction per matrix row, in order |
| Predict.Prediction | src/models/predict.py:34-61 | a missing anime.parquet is the only cause of that error, an empty target is the only no-rows outcome; nothing is written unless the outcome is saved, and a saved outcome writes only `predictions_{year}_{lower(season)}`, holding one prediction per target row with the row's id |
| Predict.PredictForSeason | src/models/predict.py:34-61 | a missing input file is an error and writes nothing; an empty target writes nothing; otherwise `predictions_{year}_{lower(season)}` holds exactly the output rows; result and files are those of `Prediction` |
| Predict.RunFromCommandLine | src/models/predict.py:65-80 | a missing anime.parquet or a bad --season is an error that writes nothing; a parsed --season gives the result and files of predicting that season |
| Store.PredictionFileInjective | src/models/predict.py:60 | distinct (year, season) targets write distinct prediction files |
| Features.FilledFacts | src/features/build_features.py:32-35 | missing episodes, members and favorites become 0 and nothing else changes |
| Features.FilledRows | src/features/build_features.py:32-35 | the defaults are filled row by row |
| Features.Insert | src/features/build_features.py:38 | inserting keeps the level list strictly increasing and adds exactly the value |
| Features.Levels | src/features/build_features.py:38 | the dummy levels are the distinct values, strictly increasing |
| Features.Column | src/features/build_features.py:38 | a categorical column reads each row's category, with "unknown" for a missing one |
| Features.GroupNames | src/features/build_features.py:38 | the dummy columns of a group are "{prefix}_{level}" per level, in level order |
| Features.Dummies | src/features/build_features.py:38 | a row's dummy values are keyed by exactly its group's dummy columns |
| Features.ClippedLength | src/features/build_features.py:41-42 | the length is the string length capped at the limit, and 0 when there is no string |
| Features.SimpleFeatures | src/features/build_features.py:29-58 | the defaults loop and the derivation give the feature table, and the saved column list equals its columns |
| Features.Build | src/features/build_features.py:61-77 | without anime.parquet nothing changes; otherwise features.parquet and feature_columns.json hold the table and its columns |
| Features.DummyNameInjective | src/features/build_features.py:38 | within a group, distinct levels give distinct dummy columns |
| Features.DummyNameApart | src/features/build_features.py:38-44 | a dummy column never equals a leading column or a dummy column of another group |
| Features.LayoutDistinct | src/features/build_features.py:44 | no column appears twice |
| Features.LevelsFacts | src/features/build_features.py:38 | a group's levels are strictly increasing and are exactly the categories that occur |
| Features.LayoutMembers | src/features/build_features.py:44 | the columns start with the six leading columns, include every level's dummy column, and contain nothing else |
| Features.LayoutExcludes | src/features/build_features.py:44-55 | neither mal_id nor label_score is a feature column, so attaching them adds new columns rather than overwriting one |
| Features.FilledCategory | src/features/build_features.py:32-38 | filling numeric defaults leaves every categorical value unchanged |
| Features.DeriveLeading | src/features/build_features.py:32-44 | a derived row holds all six leading columns: the three counts with their defaults, the year, and the two clipped lengths |
| Features.ColumnsFacts | src/features/build_features.py:44-56 | the saved columns are the six leading ones, then every dummy column and nothing else, without repeats and without mal_id or label_score |
| Features.RowKeys | src/features/build_features.py:44-47 | every row has a value for every column and for nothing else, so none is missing |
| Features.RowOneHot | src/features/build_features.py:38 | within each group, a row has exactly one 1, at its own category |
| Features.RowShape | src/features/build_features.py:54-56 | one output row per input row, carrying its mal_id, label_score = score and season_key |
| Features.RowNumbers | src/features/build_features.py:32-44 | episodes, members and favorites are 0 when missing; year is passed through; title_len and synopsis_len are the lengths clipped at 200 and 2000 |
| Features.RowDummies | src/features/build_features.py:38 | in the built table, every row has exactly one 1 among each group's dummy columns, at its own category |
| Io.LayoutFacts | src/utils/io.py:10-15 | RAW, NORMALIZED, FEATURES, MODELS and PREDICTIONS are direct children of DATA, and the six directories are distinct |
| Io.Ancestry | src/utils/io.py:18 | `mkdir(parents=True)` makes exactly the path's non-empty prefixes exist |
| Io.FileSystem.MakeDirs | src/utils/io.py:18 | the directory and its parents now exist, and nothing else was created |
| Io.FileSystem.CreateLayout | src/utils/io.py:17-18 | after the loop all six directories exist with their parents, and exactly those were added |
| Io.SafeStem | src/utils/io.py:34-35 | same length; every output character is alphanumeric, '-' or '_'; kept characters are unchanged and all others become '_' |
| Io.SafeStemIdempotent | src/utils/io.py:35 | sanitising twice equals sanitising once, and a name is its own stem iff all its characters are kept |
| Js.Member | anime-frontend/src/components/AnimeCard.jsx:14 | optional chaining yields a value iff the object has that property |
| Js.FirstTruthy | anime-frontend/src/components/AnimeCard.jsx:15-21 | an `\|\|` chain yields the first truthy alternative, and null iff none is truthy |
| AnimeCard.ScoreToBadge | anime-frontend/src/components/AnimeCard.jsx:3-10 | the band's threshold is met and it is the highest band whose threshold is met; red iff the score is below 6.5 |
| AnimeCard.BadgeMonotone | anime-frontend/src/components/AnimeCard.jsx:3-10 | a higher score never gets a lower band |
| AnimeCard.CardBadge | anime-frontend/src/components/AnimeCard.jsx:27 | a missing pred_score counts as 0 and gets the red band |
| AnimeCard.PickCover | anime-frontend/src/components/AnimeCard.jsx:13-24 | a cover is always truthy; without an images object the value itself is the cover when truthy, else null |
| AnimeCard.PickCoverPrefersSmall | anime-frontend/src/components/AnimeCard.jsx:14-21 | with images, the cover is the first truthy of small webp, small jpg, webp and jpg image URLs: small webp wins, then small jpg, then full webp; it is null iff none of the four is truthy |
| AnimeCard.LoadingFor | anime-frontend/src/components/AnimeCard.jsx:37 | a card loads eagerly iff its index is below 8 |
| PredictionsApp.SearchedFacts | anime-frontend/src/AnimePredictionsApp.jsx:75-82 | an empty trimmed query keeps every item; otherwise an item is kept iff its lowercased title or its id text contains the needle; the result is a subsequence |
| PredictionsApp.InsertPermutes | anime-frontend/src/AnimePredictionsApp.jsx:85 | insertion adds exactly the one item |
| PredictionsApp.InsertSorted | anime-frontend/src/AnimePredictionsApp.jsx:85 | insertion keeps the list non-increasing in score |
| PredictionsApp.InsertStable | anime-frontend/src/AnimePredictionsApp.jsx:85 | the inserted item goes before the existing items of equal score |
| PredictionsApp.SortFacts | anime-frontend/src/AnimePredictionsApp.jsx:85 | the sorted list is a permutation, non-increasing in score with missing as 0, and stable: items of equal score keep their order |
| PredictionsApp.FilteredFacts | anime-frontend/src/AnimePredictionsApp.jsx:74-88 | with sort off the view is a subsequence of the items in original order; with sort on it holds the same searched items, sorted and stable |
| PredictionsApp.Escape | anime-frontend/src/AnimePredictionsApp.jsx:148 | doubling quotes adds no line break |
| PredictionsApp.UnquoteQuote | anime-frontend/src/AnimePredictionsApp.jsx:148 | a quoted cell starts and ends with '"', and undoubling its inside gives back the text (RFC 4180 section 2, rule 7) |
| PredictionsApp.UnescapeEscape | anime-frontend/src/AnimePredictionsApp.jsx:148 | undoubling the doubled quotes gives back the text |
| PredictionsApp.CsvLines | anime-frontend/src/AnimePredictionsApp.jsx:144-154 | one line per row, in display order |
| PredictionsApp.CsvLineSingleLine | anime-frontend/src/AnimePredictionsApp.jsx:145-153 | a row whose cells have no line break gives one line |
| PredictionsApp.ImageText | anime-frontend/src/AnimePredictionsApp.jsx:152 | a falsy image_url gives "", a string gives itself, and any other truthy value throws (None) |
| PredictionsApp.Csv | anime-frontend/src/AnimePredictionsApp.jsx:142-155 | building the CSV throws iff some row's image_url is a truthy non-string |
| PredictionsApp.CsvLayout | anime-frontend/src/AnimePredictionsApp.jsx:142-155 | when no field holds a line break, the CSV is built, and splitting it at line breaks gives the header and then one line per row, with no trailing newline; zero rows give the header followed by one "\n" |
| PredictionsApp.CoverFromDetail | anime-frontend/src/AnimePredictionsApp.jsx:20-25 | the cover is the large webp if truthy, else the first truthy of the large jpg and the jpg image_url, else null |
| PredictionsApp.FetchCoverFor | anime-frontend/src/AnimePredictionsApp.jsx:15-29 | a cover is found only from a 2xx answer with a body; a failed request or a non-2xx status gives null |
| PredictionsApp.Hydrate | anime-frontend/src/AnimePredictionsApp.jsx:51-57 | count and order are kept and only image_url can change; an item with a truthy image_url is unchanged; others get the fetched cover or null |
| PredictionsApp.HydrateIdempotent | anime-frontend/src/AnimePredictionsApp.jsx:51-57 | hydrating twice equals hydrating once |
| PredictionsApp.Message | anime-frontend/src/AnimePredictionsApp.jsx:62 | the error text is never empty |
| PredictionsApp.LoadOutcome | anime-frontend/src/AnimePredictionsApp.jsx:8-12 | a rejected fetch or an undecodable body gives its message ("Failed to fetch" when empty), a non-2xx answer gives "HTTP {status}", and a 2xx list is hydrated |
| PredictionsApp.App.constructor | anime-frontend/src/AnimePredictionsApp.jsx:32-40 | the initial state: the API base from the environment or the default, 2025 fall, no error, no items, an empty query and sort on |
| PredictionsApp.App.Refresh | anime-frontend/src/AnimePredictionsApp.jsx:44-67 | afterwards loading is off; on success the items are the hydrated list and the error is cleared; on failure the error is set and the items are emptied |
| PredictionsApp.App.Export | anime-frontend/src/AnimePredictionsApp.jsx:131-163 | nothing is downloaded iff a shown row's image_url is a truthy non-string; otherwise the CSV of the current view is downloaded as `predictions_{year}_{season}.csv` |
| Json.Get | src/ingest_details.py:70 | `dict.get` yields None both for an absent key and for null |
| Json.GetOrElse | src/ingest_details.py:73 | the default is used only when the key is absent |
| Json.PyInt | src/ingest_details.py:75 | `int()` keeps an int, truncates a float toward zero, reads a bool as 1 or 0, parses a decimal string, and fails on null, lists and dicts |
| Json.PyFloat | src/ingest_details.py:79 | `float()` keeps numbers, reads a bool as 1.0 or 0.0, parses a decimal string, and fails on null, lists and dicts |
| Seqs.KeepFirstFacts | src/ingest.py:50 | keep-first deduplication has one row per key, covers every key, is a subsequence, and keeps each key's first row |
| Seqs.MergeKeepIncoming | src/ingest_details.py:118-122 | a keep-last merge contains every incoming row, and a stored row survives only when its key is not incoming |

## Left out

- The network, the clock, sleeping, parquet and JSON encoding, `rich` printing and the browser download are not modelled as such. Replies are an oracle function from URL to reply; sleeps are entries in an effect log; files are fields of the workspace.
- The current year (`datetime.now()`) and the environment reads (`JIKAN_COOLDOWN`, `DEFAULT_SEASONS`, `VITE_API_BASE`) are parameters.
- The argument parsing around the command-line entry points is left out.
- `save_json`, `load_json` and `timestamp` are I/O helpers. Their effect is the map updates the callers make.
- A parquet file that exists but cannot be read (`safe_read_parquet`) is treated as absent.
- A failing cache write in `fetch_detail` is not modelled.
- `build()` computes `season_order` but never uses it, so it is left out.
- `src/models/train.py` is not part of this model: it is scikit-learn model fitting. The trained model is an opaque function from a feature vector to a real.
- `src/serving/app.py`, `anime-frontend/src/main.jsx` and `anime-frontend/src/components/BackgroundParticles.jsx` are not part of this model: they are a thin HTTP wrapper and pure UI.
- Floating-point arithmetic is not modelled. Reals stand in for floats, and NaN and infinities do not occur, so the inf-to-NaN hygiene step is the identity here.
- JavaScript number formatting (`toFixed`, number-to-string in the CSV) is a parameter `num`.
- Features.Number: a non-numeric value in a numeric column reads as 0 instead of failing the frame.
- Features.Cat: a non-string categorical value reads as "unknown" instead of its text.
- Features.SimpleFeaturesOf: if a category value were "key", its dummy column `season_key` would clash with the pass-through `season_key` column in pandas. The model keeps the dummy in the row's values and season_key as a separate field.
- Python's Unicode `isalnum` and `lower`, and JavaScript's `toLowerCase`, are modelled on ASCII characters. JavaScript's `trim` is modelled with its full set of white-space and line-terminator characters.
- `Promise.all` runs the cover fetches concurrently; the model is a sequential map with the same result.
- The intermediate `loading = true` state and the `useEffect` call on mount are not modelled.
- A 2xx body that does not decode to a list of items (`res.json()` failing, or `data.map` on a non-array) is an error with its message. The model does not distinguish the two causes.
- Js.IdText: an absent mal_id and a null one are both None in an item, and both print as "null"; JavaScript prints an absent one as "undefined" in the search text and the cover URL (AnimePredictionsApp.jsx:17, :81).
- Status.Suggest: the `"label_score" not in df_feat` test (status.py:132) is not modelled, because every stored feature row carries a label_score (build_features always adds the column); a non-empty features file without it cannot be represented.
- Text.ParseInt and Text.ParseFloat accept only optionally signed decimal digits (with one point for floats). Python's `int()` and `float()` also accept surrounding white space, `_` digit separators, and for floats exponents, "inf" and "nan". Such text reads as a conversion failure in the model: in status.py:30, predict.py:76, and through Json.PyInt and Json.PyFloat in ingest_details.py:75-79.
- Ids, years and titles that are not integers or strings in the frontend are out of scope; a truthy non-string title would throw in the CSV export like a non-string image_url does.
