/** Season ingest (src/ingest.py): enumerate the (year, season) grid, fetch each
    bucket, save its raw payload, normalize it, stamp the season key, and
    overwrite normalized/anime.parquet with this run's rows. No pagination, no
    per-bucket error tolerance and no merge with earlier contents. */
module Ingest {
  import opened Wrappers
  import Json
  import Text
  import Seqs
  import Client
  import opened Store

  /** SEASONS, also the DEFAULT_SEASONS default. */
  const DefaultSeasons: seq<string> := ["winter", "spring", "summer", "fall"]

  /** The buckets of one year, in the given season order. */
  function YearRow(year: int, seasons: seq<string>): (r: seq<(int, string)>)
    ensures |r| == |seasons|
    ensures forall i | 0 <= i < |r| :: r[i] == (year, seasons[i])
  {
    seq(|seasons|, i requires 0 <= i < |seasons| => (year, seasons[i]))
  }

  /** The grid `season_iter` yields: years `start..end` ascending, each with the seasons in order. */
  function Grid(start: int, end: int, seasons: seq<string>): seq<(int, string)>
    decreases end - start
  {
    if start > end then [] else Grid(start, end - 1, seasons) + YearRow(end, seasons)
  }

  /** The grid has (end - start + 1) * |seasons| pairs, none when start > end. */
  lemma {:induction false} GridLength(start: int, end: int, seasons: seq<string>)
    ensures |Grid(start, end, seasons)| == (if start <= end then (end - start + 1) * |seasons| else 0)
    decreases end - start
  {
    if start <= end {
      GridLength(start, end - 1, seasons);
      var q := end - start;
      assert (q + 1) * |seasons| == q * |seasons| + |seasons|;
    }
  }

  /** The grid is empty exactly when the range or the season list is. */
  lemma GridEmpty(start: int, end: int, seasons: seq<string>)
    ensures Grid(start, end, seasons) == [] <==> start > end || seasons == []
  {
    GridLength(start, end, seasons);
    if start <= end && seasons != [] {
      assert (end - start + 1) * |seasons| > 0;
    }
  }

  /** A pair is in the grid exactly when its year is in range and its season is listed. */
  lemma {:induction false} GridMembers(start: int, end: int, seasons: seq<string>)
    ensures forall p :: p in Grid(start, end, seasons) <==> start <= p.0 <= end && p.1 in seasons
    decreases end - start
  {
    if start <= end {
      GridMembers(start, end - 1, seasons);
      var g := Grid(start, end, seasons);
      var prev := Grid(start, end - 1, seasons);
      var row := YearRow(end, seasons);
      assert g == prev + row;
      forall p ensures p in g <==> start <= p.0 <= end && p.1 in seasons {
        if p in row {
          var k :| 0 <= k < |row| && row[k] == p;
        }
        if p.0 == end && p.1 in seasons {
          var k :| 0 <= k < |seasons| && seasons[k] == p.1;
          assert row[k] == p;
        }
      }
    }
  }

  /** Years never decrease along the grid. */
  lemma {:induction false} GridYearsAscending(start: int, end: int, seasons: seq<string>)
    ensures forall i, j | 0 <= i < j < |Grid(start, end, seasons)| ::
      Grid(start, end, seasons)[i].0 <= Grid(start, end, seasons)[j].0
    decreases end - start
  {
    if start <= end {
      GridYearsAscending(start, end - 1, seasons);
      GridMembers(start, end - 1, seasons);
      var g := Grid(start, end, seasons);
      var prev := Grid(start, end - 1, seasons);
      assert g == prev + YearRow(end, seasons);
      forall i, j | 0 <= i < j < |g| ensures g[i].0 <= g[j].0 {
        var row := YearRow(end, seasons);
        if j >= |prev| {
          assert g[j] == row[j - |prev|];
        }
        if i < |prev| {
          assert g[i] == prev[i] && prev[i] in prev;
          assert prev[i].0 <= end - 1;
          if j < |prev| { assert g[j] == prev[j]; assert prev[i].0 <= prev[j].0; }
        } else {
          assert g[i] == row[i - |prev|];
        }
      }
    }
  }

  /** `season_iter(start_year, end_year, seasons)`: two nested loops. */
  method SeasonIter(start: int, end: int, seasons: seq<string>) returns (pairs: seq<(int, string)>)
    ensures pairs == Grid(start, end, seasons)
  {
    pairs := [];
    if start > end {
      return;
    }
    var y := start;
    while y <= end
      invariant start <= y <= end + 1
      invariant pairs == Grid(start, y - 1, seasons)
    {
      var k := 0;
      while k < |seasons|
        invariant 0 <= k <= |seasons|
        invariant pairs == Grid(start, y - 1, seasons) + YearRow(y, seasons)[..k]
      {
        pairs := pairs + [(y, seasons[k])];
        k := k + 1;
      }
      y := y + 1;
    }
  }

  datatype IngestError =
    | Fetch(cause: Client.FetchError)
    | PayloadNotObject      // payload.get on a non-dict
    | DataNotIterable       // `for item in data` on null or a number
    | ItemNotObject         // item.get on a non-dict item
    | NoMalIdColumn         // drop_duplicates("mal_id") on a frame built from no rows
    | NothingToConcatenate  // pd.concat([]) when the grid is empty

  /** What `for item in payload.get("data", [])` iterates over, or the error it meets
      first: an absent key iterates nothing; a string or object iterates strings,
      which fail at `item.get` unless there are none. */
  function DataItems(payload: Json.Value): (r: Result<seq<Json.Value>, IngestError>)
    ensures !payload.Obj? ==> r == Err(PayloadNotObject)
    ensures payload.Obj? && "data" !in payload.fields ==> r == Ok([])
    ensures payload.Obj? && "data" in payload.fields && payload.fields["data"].Arr? ==>
      r == Ok(payload.fields["data"].items)
    ensures payload.Obj? && "data" in payload.fields && !payload.fields["data"].Arr? && r.Ok? ==> r.value == []
  {
    if !payload.Obj? then Err(PayloadNotObject)
    else if "data" !in payload.fields then Ok([])
    else match payload.fields["data"]
      case Arr(items) => Ok(items)
      case Str(s) => if s == "" then Ok([]) else Err(ItemNotObject)
      case Obj(m) => if m == map[] then Ok([]) else Err(ItemNotObject)
      case _ => Err(DataNotIterable)
  }

  /** The row dict built for one item: every item field read with `.get`, year and
      season taken from the bucket arguments. */
  function NormalizeItem(item: map<string, Json.Value>, year: int, season: string): (row: AnimeRow)
    ensures row.year == Some(year) && row.season == Some(season) && row.seasonKey == None
    ensures row.malId == Json.Get(item, "mal_id") && row.title == Json.Get(item, "title")
    ensures row.malId.None? <==> "mal_id" !in item || item["mal_id"] == Json.Null
  {
    AnimeRow(
      Json.Get(item, "mal_id"), Json.Get(item, "title"), Json.Get(item, "type"),
      Json.Get(item, "episodes"), Json.Get(item, "duration"), Json.Get(item, "source"),
      Json.Get(item, "rating"), Some(year), Some(season), Json.Get(item, "synopsis"),
      Json.Get(item, "members"), Json.Get(item, "favorites"), Json.Get(item, "score"),
      Json.Get(item, "status"), Json.Get(item, "studios"), Json.Get(item, "demographics"),
      Json.Get(item, "genres"), Json.Get(item, "relations"), None)
  }

  function MalIdOf(row: AnimeRow): Option<Json.Value> { row.malId }

  predicate AllObjects(items: seq<Json.Value>) {
    forall i | 0 <= i < |items| :: items[i].Obj?
  }

  function ItemRows(items: seq<Json.Value>, year: int, season: string): (rows: seq<AnimeRow>)
    requires AllObjects(items)
    ensures |rows| == |items|
  {
    seq(|items|, i requires 0 <= i < |items| && AllObjects(items) => NormalizeItem(items[i].fields, year, season))
  }

  /** What `normalize_season_payload(payload, year, season)` returns or raises. */
  function Normalize(payload: Json.Value, year: int, season: string): Result<seq<AnimeRow>, IngestError>
  {
    match DataItems(payload)
    case Err(e) => Err(e)
    case Ok(items) =>
      if !AllObjects(items) then Err(ItemNotObject)
      else if items == [] then Err(NoMalIdColumn)
      else Ok(Seqs.KeepFirst(ItemRows(items, year, season), MalIdOf))
  }

  /** `normalize_season_payload`: a loop appending one row per item, then
      `drop_duplicates("mal_id")`. */
  method NormalizeSeasonPayload(payload: Json.Value, year: int, season: string)
    returns (r: Result<seq<AnimeRow>, IngestError>)
    ensures r == Normalize(payload, year, season)
  {
    var data := DataItems(payload);
    if data.Err? {
      return Err(data.error);
    }
    var items := data.value;
    var rows: seq<AnimeRow> := [];
    var i := 0;
    while i < |items|
      invariant 0 <= i <= |items|
      invariant AllObjects(items[..i])
      invariant rows == ItemRows(items[..i], year, season)
    {
      if !items[i].Obj? {
        return Err(ItemNotObject);
      }
      rows := rows + [NormalizeItem(items[i].fields, year, season)];
      i := i + 1;
      assert items[..i] == items[..i - 1] + [items[i - 1]];
    }
    assert items[..i] == items;
    if rows == [] {
      return Err(NoMalIdColumn);
    }
    r := Ok(Seqs.KeepFirst(rows, MalIdOf));
  }

  /** Every normalized row is stamped with the bucket's year and season, rows keep
      the item order, each mal_id occurs once, and the row kept for an id is the
      one built from its first item. */
  lemma NormalizeFacts(payload: Json.Value, year: int, season: string)
    requires Normalize(payload, year, season).Ok?
    ensures var rows := Normalize(payload, year, season).value;
      var all := ItemRows(DataItems(payload).value, year, season);
      && rows != []
      && (forall i | 0 <= i < |rows| :: rows[i].year == Some(year) && rows[i].season == Some(season))
      && Seqs.UniqueKeys(rows, MalIdOf)
      && Seqs.IsSubseq(rows, all)
      && Seqs.Keys(rows, MalIdOf) == Seqs.Keys(all, MalIdOf)
      && (forall x | x in rows :: x == Seqs.FirstWith(all, MalIdOf, x.malId))
  {
    var items := DataItems(payload).value;
    var all := ItemRows(items, year, season);
    var rows := Normalize(payload, year, season).value;
    Seqs.KeepFirstFacts(all, MalIdOf);
    forall i | 0 <= i < |rows| ensures rows[i].year == Some(year) && rows[i].season == Some(season) {
      Seqs.IsSubseqIn(rows, all, rows[i]);
    }
    assert all[0].malId in Seqs.Keys(all, MalIdOf);
  }

  /** The directory name of a bucket's raw payload and its `season_key`: "{year}_{season}". */
  function SeasonKey(year: int, season: string): string
  {
    Text.IntToString(year) + "_" + season
  }

  /** Distinct buckets never share a raw directory or a season key. */
  lemma SeasonKeyInjective(y1: int, s1: string, y2: int, s2: string)
    requires SeasonKey(y1, s1) == SeasonKey(y2, s2)
    ensures y1 == y2 && s1 == s2
  {
    var a, b := Text.IntToString(y1), Text.IntToString(y2);
    var k := SeasonKey(y1, s1);
    assert '_' !in a && '_' !in b;
    assert k[|a|] == '_' && k[..|a|] == a;
    assert k[|b|] == '_' && k[..|b|] == b;
    assert a == b;
    Text.IntToStringInjective(y1, y2);
    assert s1 == k[|a| + 1..];
  }

  /** `df["season_key"] = df["year"].astype(str) + "_" + df["season"].astype(str)`. */
  function WithSeasonKey(rows: seq<AnimeRow>, year: int, season: string): (r: seq<AnimeRow>)
    ensures |r| == |rows|
    ensures forall i | 0 <= i < |r| :: r[i] == rows[i].(seasonKey := Some(SeasonKey(year, season)))
  {
    seq(|rows|, i requires 0 <= i < |rows| => rows[i].(seasonKey := Some(SeasonKey(year, season))))
  }

  /** The run so far: raw files written, rows accumulated, the error that stopped
      it if any, and the client's effects. */
  datatype Run = Run(
    raw: map<string, Json.Value>,
    rows: seq<AnimeRow>,
    failure: Option<IngestError>,
    effects: seq<Client.Effect>)

  /** One iteration of `run_ingest`'s loop: fetch (a failure propagates), save the
      raw payload, normalize (a failure propagates), stamp and accumulate. */
  function Step(st: Run, base: string, cooldown: real, net: Client.Network, bucket: (int, string)): Run
  {
    if st.failure.Some? then st
    else
      var url := Client.RequestUrl(base, Client.SeasonPath(bucket.0, bucket.1));
      var fetched := st.(effects := st.effects + Client.CallEffects(url, net(url), cooldown));
      match Client.Outcome(net(url))
      case Err(e) => fetched.(failure := Some(Fetch(e)))
      case Ok(payload) =>
        var saved := fetched.(raw := fetched.raw[SeasonKey(bucket.0, bucket.1) := payload]);
        match Normalize(payload, bucket.0, bucket.1)
        case Err(e) => saved.(failure := Some(e))
        case Ok(rows) => saved.(rows := saved.rows + WithSeasonKey(rows, bucket.0, bucket.1))
  }

  /** The three ways a step can end, spelled out. */
  lemma StepCases(st: Run, base: string, cooldown: real, net: Client.Network, y: int, s: string)
    requires st.failure.None?
    ensures var url := Client.RequestUrl(base, Client.SeasonPath(y, s));
      var out := Client.Outcome(net(url));
      var eff := st.effects + Client.CallEffects(url, net(url), cooldown);
      && (out.Err? ==> Step(st, base, cooldown, net, (y, s)) == Run(st.raw, st.rows, Some(Fetch(out.error)), eff))
      && (out.Ok? && Normalize(out.value, y, s).Err? ==>
            Step(st, base, cooldown, net, (y, s)) == Run(st.raw[SeasonKey(y, s) := out.value], st.rows, Some(Normalize(out.value, y, s).error), eff))
      && (out.Ok? && Normalize(out.value, y, s).Ok? ==>
            Step(st, base, cooldown, net, (y, s)) == Run(st.raw[SeasonKey(y, s) := out.value], st.rows + WithSeasonKey(Normalize(out.value, y, s).value, y, s), None, eff))
  {
  }

  /** The run after the first n buckets. */
  function Steps(st: Run, base: string, cooldown: real, net: Client.Network, buckets: seq<(int, string)>, n: nat): Run
    requires n <= |buckets|
  {
    if n == 0 then st
    else Step(Steps(st, base, cooldown, net, buckets, n - 1), base, cooldown, net, buckets[n - 1])
  }

  /** One pass of `run_ingest`'s loop body over bucket (year, season). */
  method IngestBucket(ws: Workspace, client: Client.JikanClient, year: int, season: string, net: Client.Network,
                      ghost rows: seq<AnimeRow>)
    returns (failure: Option<IngestError>, added: seq<AnimeRow>)
    modifies ws`rawSeasons, client
    ensures Step(Run(old(ws.rawSeasons), rows, None, old(client.effects)), client.base, client.cooldown, net, (year, season))
      == Run(ws.rawSeasons, rows + added, failure, client.effects)
  {
    ghost var before := Run(ws.rawSeasons, rows, None, client.effects);
    StepCases(before, client.base, client.cooldown, net, year, season);
    var payload := client.Season(year, season, net);
    if payload.Err? {
      assert rows + [] == rows;
      return Some(Fetch(payload.error)), [];
    }
    ws.rawSeasons := ws.rawSeasons[SeasonKey(year, season) := payload.value];
    var normalized := NormalizeSeasonPayload(payload.value, year, season);
    if normalized.Err? {
      assert rows + [] == rows;
      return Some(normalized.error), [];
    }
    failure, added := None, WithSeasonKey(normalized.value, year, season);
  }

  /** `run_ingest(start_year, end_year, seasons)` with the network as an oracle and the
      cooldown as configuration: returns the row count written, or the error that
      stopped the run, and the client's effects. Raw payloads are saved as the run
      goes; normalized/anime.parquet is replaced only when every bucket succeeded. */
  method RunIngest(ws: Workspace, start: int, end: int, seasons: seq<string>, net: Client.Network, cooldown: real)
    returns (r: Result<nat, IngestError>, effects: seq<Client.Effect>)
    modifies ws`rawSeasons, ws`anime
    ensures var st := Steps(Run(old(ws.rawSeasons), [], None, []), Client.RStripSlashes(Client.JikanBase), cooldown, net, Grid(start, end, seasons), |Grid(start, end, seasons)|);
      && ws.rawSeasons == st.raw
      && effects == st.effects
      && (st.failure.Some? ==> r == Err(st.failure.value) && ws.anime == old(ws.anime))
      && (st.failure.None? && (start > end || seasons == []) ==> r == Err(NothingToConcatenate) && ws.anime == old(ws.anime))
      && (st.failure.None? && start <= end && seasons != [] ==> r == Ok(|st.rows|) && ws.anime == Some(st.rows))
  {
    var client := new Client.JikanClient(Client.JikanBase, cooldown);
    var buckets := SeasonIter(start, end, seasons);
    GridEmpty(start, end, seasons);
    var failure, rows := IngestAll(ws, client, buckets, net);
    if failure.Some? {
      return Err(failure.value), client.effects;
    }
    effects := client.effects;
    if |buckets| == 0 {
      return Err(NothingToConcatenate), effects;
    }
    ws.anime := Some(rows);
    r := Ok(|rows|);
  }

  /** The loop of `run_ingest` over the buckets; a failure ends it. */
  method IngestAll(ws: Workspace, client: Client.JikanClient, buckets: seq<(int, string)>, net: Client.Network)
    returns (failure: Option<IngestError>, rows: seq<AnimeRow>)
    modifies ws`rawSeasons, client
    ensures Steps(Run(old(ws.rawSeasons), [], None, old(client.effects)), client.base, client.cooldown, net, buckets, |buckets|)
      == Run(ws.rawSeasons, rows, failure, client.effects)
  {
    rows := [];
    failure := None;
    ghost var st0 := Run(ws.rawSeasons, [], None, client.effects);
    var i := 0;
    while i < |buckets|
      invariant 0 <= i <= |buckets|
      invariant Steps(st0, client.base, client.cooldown, net, buckets, i) == Run(ws.rawSeasons, rows, None, client.effects)
    {
      var f, added := IngestBucket(ws, client, buckets[i].0, buckets[i].1, net, rows);
      rows := rows + added;
      if f.Some? {
        failure := f;
        StepsStopAfterFailure(st0, client.base, client.cooldown, net, buckets, i + 1, |buckets|);
        return;
      }
      i := i + 1;
    }
  }

  /** Once a step has failed, later buckets change nothing. */
  lemma {:induction false} StepsStopAfterFailure(st0: Run, base: string, cooldown: real, net: Client.Network,
                                                 buckets: seq<(int, string)>, k: nat, m: nat)
    requires k <= m <= |buckets|
    requires Steps(st0, base, cooldown, net, buckets, k).failure.Some?
    ensures Steps(st0, base, cooldown, net, buckets, m) == Steps(st0, base, cooldown, net, buckets, k)
    decreases m - k
  {
    if m > k {
      StepsStopAfterFailure(st0, base, cooldown, net, buckets, k, m - 1);
    }
  }

  /** Each row is stamped consistently: its season_key is built from its own year and season. */
  predicate Stamped(row: AnimeRow)
  {
    row.year.Some? && row.season.Some? && row.seasonKey == Some(SeasonKey(row.year.value, row.season.value))
  }

  /** One step appends only rows of its own bucket, stamped. */
  lemma StepRows(st: Run, base: string, cooldown: real, net: Client.Network, y: int, s: string)
    requires st.failure.None?
    ensures var nx := Step(st, base, cooldown, net, (y, s));
      && |st.rows| <= |nx.rows| && nx.rows[..|st.rows|] == st.rows
      && (forall j | |st.rows| <= j < |nx.rows| :: Stamped(nx.rows[j]) && nx.rows[j].year == Some(y) && nx.rows[j].season == Some(s))
  {
    StepCases(st, base, cooldown, net, y, s);
    var url := Client.RequestUrl(base, Client.SeasonPath(y, s));
    var out := Client.Outcome(net(url));
    if out.Ok? && Normalize(out.value, y, s).Ok? {
      NormalizeFacts(out.value, y, s);
      AppendStamped(st.rows, Normalize(out.value, y, s).value, y, s);
    } else {
      assert st.rows[..|st.rows|] == st.rows;
    }
  }

  /** Appending a bucket's rows with their season key keeps what came before and
      adds only stamped rows of that bucket. */
  lemma AppendStamped(prefix: seq<AnimeRow>, rows: seq<AnimeRow>, y: int, s: string)
    requires forall i | 0 <= i < |rows| :: rows[i].year == Some(y) && rows[i].season == Some(s)
    ensures var all := prefix + WithSeasonKey(rows, y, s);
      && |prefix| <= |all| && all[..|prefix|] == prefix
      && (forall j | |prefix| <= j < |all| :: Stamped(all[j]) && all[j].year == Some(y) && all[j].season == Some(s))
  {
    var stamped := WithSeasonKey(rows, y, s);
    var all := prefix + stamped;
    assert all[..|prefix|] == prefix;
    forall j | |prefix| <= j < |all| ensures Stamped(all[j]) && all[j].year == Some(y) && all[j].season == Some(s) {
      assert all[j] == stamped[j - |prefix|];
    }
  }

  /** After any number of buckets, every accumulated row carries a consistent season
      key and comes from one of the buckets visited; the raw payload of every visited
      bucket has been saved unless the run stopped, and no earlier raw file is lost. */
  lemma {:induction false} StepsFacts(st0: Run, base: string, cooldown: real, net: Client.Network,
                                      buckets: seq<(int, string)>, n: nat)
    requires n <= |buckets| && st0.rows == [] && st0.failure.None?
    ensures var st := Steps(st0, base, cooldown, net, buckets, n);
      && (forall row | row in st.rows :: Stamped(row) && (row.year.value, row.season.value) in buckets[..n])
      && st0.raw.Keys <= st.raw.Keys
      && (st.failure.None? ==> forall k | 0 <= k < n :: SeasonKey(buckets[k].0, buckets[k].1) in st.raw)
  {
    StepsRows(st0, base, cooldown, net, buckets, n);
    StepsKeepRaw(st0, base, cooldown, net, buckets, n);
    StepsRaw(st0, base, cooldown, net, buckets, n);
  }

  /** The accumulated rows are stamped and come from the buckets visited. */
  lemma {:induction false} StepsRows(st0: Run, base: string, cooldown: real, net: Client.Network,
                                     buckets: seq<(int, string)>, n: nat)
    requires n <= |buckets| && st0.rows == []
    ensures forall row | row in Steps(st0, base, cooldown, net, buckets, n).rows ::
      Stamped(row) && (row.year.value, row.season.value) in buckets[..n]
  {
    if n > 0 {
      StepsRows(st0, base, cooldown, net, buckets, n - 1);
      var prev := Steps(st0, base, cooldown, net, buckets, n - 1);
      var st := Steps(st0, base, cooldown, net, buckets, n);
      var (y, s) := buckets[n - 1];
      assert buckets[..n] == buckets[..n - 1] + [(y, s)];
      if prev.failure.None? {
        StepRows(prev, base, cooldown, net, y, s);
        forall row | row in st.rows ensures Stamped(row) && (row.year.value, row.season.value) in buckets[..n] {
          var j :| 0 <= j < |st.rows| && st.rows[j] == row;
          if j < |prev.rows| {
            assert row in prev.rows;
          }
        }
      } else {
        assert st == prev;
      }
    }
  }

  /** One step's effect on the raw files: none are lost, a stopped run stays
      stopped, and a step that did not stop saved its bucket. */
  lemma StepRaw(st: Run, base: string, cooldown: real, net: Client.Network, bucket: (int, string))
    ensures var nx := Step(st, base, cooldown, net, bucket);
      && st.raw.Keys <= nx.raw.Keys
      && (nx.failure.None? ==> st.failure.None? && SeasonKey(bucket.0, bucket.1) in nx.raw)
  {
    if st.failure.None? {
      StepCases(st, base, cooldown, net, bucket.0, bucket.1);
    }
  }

  /** The raw payload of a bucket has been saved. */
  predicate Saved(raw: map<string, Json.Value>, bucket: (int, string))
  {
    SeasonKey(bucket.0, bucket.1) in raw
  }

  /** No raw file is lost. */
  lemma {:induction false} StepsKeepRaw(st0: Run, base: string, cooldown: real, net: Client.Network,
                                        buckets: seq<(int, string)>, n: nat)
    requires n <= |buckets|
    ensures st0.raw.Keys <= Steps(st0, base, cooldown, net, buckets, n).raw.Keys
  {
    if n > 0 {
      StepsKeepRaw(st0, base, cooldown, net, buckets, n - 1);
      StepRaw(Steps(st0, base, cooldown, net, buckets, n - 1), base, cooldown, net, buckets[n - 1]);
    }
  }

  /** Unless the run stopped, every visited bucket has its raw file. */
  lemma {:induction false} StepsRaw(st0: Run, base: string, cooldown: real, net: Client.Network,
                                    buckets: seq<(int, string)>, n: nat)
    requires n <= |buckets|
    ensures Steps(st0, base, cooldown, net, buckets, n).failure.None? ==>
      forall k | 0 <= k < n :: Saved(Steps(st0, base, cooldown, net, buckets, n).raw, buckets[k])
  {
    if n > 0 {
      StepsRaw(st0, base, cooldown, net, buckets, n - 1);
      var prev := Steps(st0, base, cooldown, net, buckets, n - 1);
      var st := Step(prev, base, cooldown, net, buckets[n - 1]);
      assert Steps(st0, base, cooldown, net, buckets, n) == st;
      StepRaw(prev, base, cooldown, net, buckets[n - 1]);
      if st.failure.None? {
        forall k | 0 <= k < n ensures Saved(st.raw, buckets[k]) {
          if k < n - 1 {
            assert Saved(prev.raw, buckets[k]);
          }
        }
      }
    }
  }
}
