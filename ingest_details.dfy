/** Label backfill (src/ingest_details.py): pick the normalized titles that still
    lack a label, fetch each one's detail document (from the per-id cache when it
    holds a parseable file, from the API otherwise), extract a label row, and merge
    the new rows into labels.parquet with the newest row per id winning. */
module IngestDetails {
  import opened Wrappers
  import Json
  import Text
  import Seqs
  import Client
  import opened Store

  /** One candidate row: the four columns read from anime.parquet. */
  datatype Candidate = Candidate(malId: Option<Json.Value>, year: Option<int>, season: Option<string>, title: Option<Json.Value>)

  datatype DetailsError =
    | MissingNormalized   // SystemExit: anime.parquet does not exist
    | BadCandidateId      // int() / astype(int) of a candidate mal_id raises
    | BadStoredId         // astype(int) of a missing id in labels.parquet raises
    | NoLabelsExtracted   // drop_duplicates("mal_id") on a frame built from no rows
    | PayloadNotObject    // payload.get on a non-dict detail document
    | DataNotObject       // d.get on a truthy non-dict "data" value

  function Project(row: AnimeRow): Candidate
  {
    Candidate(row.malId, row.year, row.season, row.title)
  }

  function Projected(rows: seq<AnimeRow>): (cs: seq<Candidate>)
    ensures |cs| == |rows| && forall i | 0 <= i < |rows| :: cs[i] == Project(rows[i])
  {
    seq(|rows|, i requires 0 <= i < |rows| => Project(rows[i]))
  }

  function Whole(c: Candidate): Candidate { c }

  /** The year filters: a row with a missing year always passes. */
  predicate InYearRange(c: Candidate, yearMin: Option<int>, yearMax: Option<int>)
  {
    && (yearMin.None? || c.year.None? || c.year.value >= yearMin.value)
    && (yearMax.None? || c.year.None? || c.year.value <= yearMax.value)
  }

  /** `int(mal_id)` of a candidate; None where it raises. */
  function IdOf(c: Candidate): Option<int>
  {
    if c.malId.Some? then Json.PyInt(c.malId.value) else None
  }

  /** The ids already labelled: `set(lab["mal_id"].astype(int))`, empty when the
      file has no mal_id column, an error when an id is missing. */
  function LabelledIds(lf: LabelFile): (r: Result<set<int>, DetailsError>)
    ensures !lf.hasIdColumn ==> r == Ok({})
    ensures lf.hasIdColumn ==> (r.Ok? <==> forall i | 0 <= i < |lf.rows| :: lf.rows[i].malId.Some?)
    ensures r.Ok? && lf.hasIdColumn ==> forall id :: id in r.value <==> exists i | 0 <= i < |lf.rows| :: lf.rows[i].malId == Some(id)
  {
    if !lf.hasIdColumn then Ok({})
    else if exists i | 0 <= i < |lf.rows| :: lf.rows[i].malId.None? then Err(BadStoredId)
    else Ok(set i | 0 <= i < |lf.rows| :: lf.rows[i].malId.value)
  }

  /** The rows of the candidate table before the labelled-id exclusion. */
  function Filtered(anime: seq<AnimeRow>, yearMin: Option<int>, yearMax: Option<int>): seq<Candidate>
  {
    Seqs.Filter(Seqs.KeepFirst(Projected(anime), Whole), (c: Candidate) => InYearRange(c, yearMin, yearMax))
  }

  predicate NotIn(c: Candidate, have: set<int>)
  {
    IdOf(c).Some? && IdOf(c).value !in have
  }

  /** What `load_candidates(year_min, year_max)` returns or raises. */
  function Candidates(anime: Option<seq<AnimeRow>>, labels: Option<LabelFile>, yearMin: Option<int>, yearMax: Option<int>)
    : (r: Result<seq<Candidate>, DetailsError>)
    ensures anime.None? <==> r == Err(MissingNormalized)
    ensures anime.Some? && labels.None? ==> r.Ok?
  {
    if anime.None? then Err(MissingNormalized)
    else
      var df := Filtered(anime.value, yearMin, yearMax);
      if labels.None? then Ok(df)
      else match LabelledIds(labels.value)
        case Err(e) => Err(e)
        case Ok(have) =>
          if exists i | 0 <= i < |df| :: IdOf(df[i]).None? then Err(BadCandidateId)
          else Ok(Seqs.Filter(df, (c: Candidate) => NotIn(c, have)))
  }

  /** Before the labelled-id exclusion: a candidate is a projected normalized row
      that passes the year filters, and none appears twice. */
  lemma FilteredMembership(anime: seq<AnimeRow>, yearMin: Option<int>, yearMax: Option<int>, c: Candidate)
    ensures var df := Filtered(anime, yearMin, yearMax);
      && (c in df <==> (exists i | 0 <= i < |anime| :: Project(anime[i]) == c) && InYearRange(c, yearMin, yearMax))
      && Seqs.UniqueKeys(df, Whole)
  {
    var all := Projected(anime);
    var firsts := Seqs.KeepFirst(all, Whole);
    Seqs.KeepFirstFacts(all, Whole);
    var p := (x: Candidate) => InYearRange(x, yearMin, yearMax);
    var df := Seqs.Filter(firsts, p);
    Seqs.FilterMembership(firsts, p, c);
    Seqs.FilterIsSubseq(firsts, p);
    assert c in firsts <==> c in all by {
      if c in all {
        var i :| 0 <= i < |all| && all[i] == c;
        assert Whole(all[i]) in Seqs.Keys(all, Whole);
        assert c in Seqs.Keys(firsts, Whole);
        var j :| 0 <= j < |firsts| && Whole(firsts[j]) == c;
      }
      if c in firsts {
        Seqs.IsSubseqIn(firsts, all, c);
      }
    }
    assert c in all <==> exists i | 0 <= i < |anime| :: Project(anime[i]) == c by {
      if c in all {
        var i :| 0 <= i < |all| && all[i] == c;
        assert Project(anime[i]) == c;
      }
    }
    UniqueSubseqDistinct(firsts, df);
  }

  /** A candidate is returned exactly when it is the projection of a normalized row,
      passes the year filters, and (when labels exist) its id is not labelled yet;
      no candidate is returned twice. */
  lemma CandidatesMembership(anime: seq<AnimeRow>, labels: Option<LabelFile>, yearMin: Option<int>, yearMax: Option<int>, c: Candidate)
    requires Candidates(Some(anime), labels, yearMin, yearMax).Ok?
    ensures var cs := Candidates(Some(anime), labels, yearMin, yearMax).value;
      && (c in cs <==>
            && (exists i | 0 <= i < |anime| :: Project(anime[i]) == c)
            && InYearRange(c, yearMin, yearMax)
            && (labels.Some? ==> IdOf(c).Some? && IdOf(c).value !in LabelledIds(labels.value).value))
      && (forall i, j | 0 <= i < j < |cs| :: cs[i] != cs[j])
  {
    var df := Filtered(anime, yearMin, yearMax);
    FilteredMembership(anime, yearMin, yearMax, c);
    if labels.Some? {
      var have := LabelledIds(labels.value).value;
      var q := (x: Candidate) => NotIn(x, have);
      assert Candidates(Some(anime), labels, yearMin, yearMax).value == Seqs.Filter(df, q);
      Seqs.FilterMembership(df, q, c);
      Seqs.FilterIsSubseq(df, q);
      UniqueSubseqDistinct(df, Seqs.Filter(df, q));
    } else {
      assert forall i, j | 0 <= i < j < |df| :: Whole(df[i]) != Whole(df[j]);
    }
  }

  /** A subsequence of a sequence without repeated elements has none either. */
  lemma {:induction false} UniqueSubseqDistinct(s: seq<Candidate>, r: seq<Candidate>)
    requires Seqs.UniqueKeys(s, Whole) && Seqs.IsSubseq(r, s)
    ensures forall i, j | 0 <= i < j < |r| :: r[i] != r[j]
    ensures Seqs.UniqueKeys(r, Whole)
    decreases |s|
  {
    if r != [] {
      if s[0] == r[0] {
        Seqs.SubseqTail(r, s);
        assert Seqs.IsSubseq(r[1..], s[1..]);
        UniqueTail(s);
        UniqueSubseqDistinct(s[1..], r[1..]);
        forall j | 0 < j < |r| ensures r[0] != r[j] {
          assert r[j] == r[1..][j - 1];
          Seqs.IsSubseqIn(r[1..], s[1..], r[j]);
          var k :| 0 <= k < |s| - 1 && s[1..][k] == r[j];
          assert Whole(s[0]) != Whole(s[k + 1]);
        }
        forall i, j | 0 <= i < j < |r| ensures Whole(r[i]) != Whole(r[j]) {
          if i > 0 {
            assert r[i] == r[1..][i - 1] && r[j] == r[1..][j - 1];
          }
        }
      } else {
        UniqueTail(s);
        UniqueSubseqDistinct(s[1..], r);
      }
    }
  }

  lemma UniqueTail(s: seq<Candidate>)
    requires s != [] && Seqs.UniqueKeys(s, Whole)
    ensures Seqs.UniqueKeys(s[1..], Whole)
  {
    forall i, j | 0 <= i < j < |s| - 1 ensures Whole(s[1..][i]) != Whole(s[1..][j]) {
      assert s[1..][i] == s[i + 1] && s[1..][j] == s[j + 1];
    }
  }

  /** `cache_path(mal_id)`: the cache file name of an id. */
  function CachePath(malId: int): string
  {
    Text.IntToString(malId) + ".json"
  }

  /** Distinct ids never share a cache file. */
  lemma CachePathInjective(a: int, b: int)
    requires CachePath(a) == CachePath(b)
    ensures a == b
  {
    var sa, sb := Text.IntToString(a), Text.IntToString(b);
    assert |sa| == |CachePath(a)| - 5 == |sb|;
    assert sa == CachePath(a)[..|sa|];
    assert sb == CachePath(b)[..|sb|];
    Text.IntToStringInjective(a, b);
  }

  /** A parsed JSON document as the Python value the code tests with `is None`. */
  function AsPython(doc: Json.Value): (p: Option<Json.Value>)
    ensures p.None? <==> doc == Json.Null
    ensures p.Some? ==> p.value == doc
  {
    if doc == Json.Null then None else Some(doc)
  }

  /** The value `fetch_detail` returns, the cache afterwards, and the effects. */
  datatype Fetched = Fetched(payload: Option<Json.Value>, cache: map<int, CacheEntry>, effects: seq<Client.Effect>)

  /** `fetch_detail(client, mal_id)`: a parseable cache file is returned as is; an
      unparseable or missing one is re-fetched; a successful fetch is cached; any
      failure of the client yields None. */
  function Fetch(cache: map<int, CacheEntry>, malId: int, base: string, cooldown: real, net: Client.Network): (f: Fetched)
    ensures malId in cache && cache[malId].Parsed? ==> f == Fetched(AsPython(cache[malId].doc), cache, [])
    ensures f.cache.Keys == cache.Keys || f.cache.Keys == cache.Keys + {malId}
    ensures forall id | id in cache && (id != malId || cache[id].Parsed?) :: f.cache[id] == cache[id]
    ensures f.payload.Some? ==> malId in f.cache && f.cache[malId] == Parsed(f.payload.value)
    ensures (malId !in cache || cache[malId].Unparseable?) ==>
      && f.effects != [] && f.effects[0] == Client.Request(Client.RequestUrl(base, Client.AnimePath(malId)))
      && forall k | 1 <= k < |f.effects| :: f.effects[k].Sleep?
    ensures (malId !in cache || cache[malId].Unparseable?) ==>
      var url := Client.RequestUrl(base, Client.AnimePath(malId));
      var out := Client.Outcome(net(url));
      && f.effects == Client.CallEffects(url, net(url), cooldown)
      && (out.Err? ==> f.payload.None? && f.cache == cache)
      && (out.Ok? ==> f.payload == AsPython(out.value) && f.cache == cache[malId := Parsed(out.value)])
  {
    if malId in cache && cache[malId].Parsed? then Fetched(AsPython(cache[malId].doc), cache, [])
    else
      var url := Client.RequestUrl(base, Client.AnimePath(malId));
      var effects := Client.CallEffects(url, net(url), cooldown);
      match Client.Outcome(net(url))
      case Err(_) => Fetched(None, cache, effects)
      case Ok(doc) => Fetched(AsPython(doc), cache[malId := Parsed(doc)], effects)
  }

  /** A document fetched once is served from the cache the second time: same value,
      no request and no sleep. */
  lemma FetchOnce(cache: map<int, CacheEntry>, malId: int, base: string, cooldown: real, net: Client.Network)
    ensures var first := Fetch(cache, malId, base, cooldown, net);
      (malId in first.cache && first.cache[malId].Parsed?) ==>
        Fetch(first.cache, malId, base, cooldown, net) == Fetched(first.payload, first.cache, [])
  {
  }

  /** `fetch_detail` against the cache held by the workspace. */
  method FetchDetail(ws: Workspace, client: Client.JikanClient, malId: int, net: Client.Network) returns (p: Option<Json.Value>)
    modifies ws`details, client
    ensures var f := Fetch(old(ws.details), malId, client.base, client.cooldown, net);
      p == f.payload && ws.details == f.cache && client.effects == old(client.effects) + f.effects
  {
    if malId in ws.details && ws.details[malId].Parsed? {
      assert old(client.effects) + [] == client.effects;
      return AsPython(ws.details[malId].doc);
    }
    var payload := client.Anime(malId, net);
    if payload.Err? {
      return None;
    }
    ws.details := ws.details[malId := Parsed(payload.value)];
    p := AsPython(payload.value);
  }

  /** `d.get("score", d.get("scored"))` converted with float(): an absent score falls
      back to "scored", a null score does not; an unconvertible value becomes None. */
  function ScoreOf(d: map<string, Json.Value>): (score: Option<real>)
    ensures "score" in d && d["score"] != Json.Null ==> score == Json.PyFloat(d["score"])
    ensures "score" in d && d["score"] == Json.Null ==> score == None
    ensures "score" !in d && "scored" in d && d["scored"] != Json.Null ==> score == Json.PyFloat(d["scored"])
    ensures "score" !in d && ("scored" !in d || d["scored"] == Json.Null) ==> score == None
  {
    var score := Json.GetOrElse(d, "score", Json.Get(d, "scored"));
    if score.Some? then Json.PyFloat(score.value) else None
  }

  /** `payload.get("data") or {}`. */
  function DataOf(fields: map<string, Json.Value>): Json.Value
  {
    var data := Json.Get(fields, "data");
    if data.Some? && Json.Truthy(data.value) then data.value else Json.Obj(map[])
  }

  /** `extract_label(payload)`: a label row, None when the document has no usable
      id, or the error raised by `.get` on a non-dict. */
  function ExtractLabel(payload: Json.Value): (r: Result<Option<LabelRow>, DetailsError>)
    ensures !payload.Obj? ==> r == Err(PayloadNotObject)
    ensures payload.Obj? ==> (r.Err? <==> !DataOf(payload.fields).Obj?)
    ensures payload.Obj? && DataOf(payload.fields).Obj? ==>
      var d := DataOf(payload.fields).fields;
      var mid := Json.Get(d, "mal_id");
      && (r.value.Some? <==> mid.Some? && Json.PyInt(mid.value).Some?)
      && (r.value.Some? ==> r.value.value == LabelRow(Json.PyInt(mid.value), ScoreOf(d), Json.Get(d, "members"), Json.Get(d, "favorites")))
    ensures r.Ok? && r.value.Some? ==> r.value.value.malId.Some?
    ensures payload.Obj? && ("data" !in payload.fields || !Json.Truthy(payload.fields["data"])) ==> r == Ok(None)
  {
    if !payload.Obj? then Err(PayloadNotObject)
    else
      var d := DataOf(payload.fields);
      if !d.Obj? then Err(DataNotObject)
      else
        var mid := Json.Get(d.fields, "mal_id");
        if mid.None? then Ok(None)
        else match Json.PyInt(mid.value)
          case None => Ok(None)
          case Some(id) => Ok(Some(LabelRow(Some(id), ScoreOf(d.fields), Json.Get(d.fields, "members"), Json.Get(d.fields, "favorites"))))
  }

  /** The state of the backfill loop. */
  datatype Progress = Progress(cache: map<int, CacheEntry>, rows: seq<LabelRow>, effects: seq<Client.Effect>, crash: Option<DetailsError>)

  /** One iteration: `int(row.mal_id)`, fetch, skip on None, extract, append. */
  function Visit(st: Progress, c: Candidate, base: string, cooldown: real, net: Client.Network): Progress
  {
    if st.crash.Some? then st
    else match IdOf(c)
      case None => st.(crash := Some(BadCandidateId))
      case Some(id) =>
        var f := Fetch(st.cache, id, base, cooldown, net);
        var st' := st.(cache := f.cache, effects := st.effects + f.effects);
        if f.payload.None? then st'
        else match ExtractLabel(f.payload.value)
          case Err(e) => st'.(crash := Some(e))
          case Ok(None) => st'
          case Ok(Some(row)) => st'.(rows := st'.rows + [row])
  }

  /** The loop state after the first n candidates. */
  function Visits(st: Progress, cs: seq<Candidate>, n: nat, base: string, cooldown: real, net: Client.Network): Progress
    requires n <= |cs|
  {
    if n == 0 then st else Visit(Visits(st, cs, n - 1, base, cooldown, net), cs[n - 1], base, cooldown, net)
  }

  function MalIdOf(row: LabelRow): Option<int> { row.malId }

  function WithoutId(row: LabelRow): LabelRow { row.(malId := None) }

  /** The stored rows as concat sees them: without a mal_id column every id is missing. */
  function Aligned(lf: LabelFile): (rows: seq<LabelRow>)
    ensures |rows| == |lf.rows|
    ensures forall i | 0 <= i < |rows| :: rows[i] == if lf.hasIdColumn then lf.rows[i] else WithoutId(lf.rows[i])
  {
    if lf.hasIdColumn then lf.rows else seq(|lf.rows|, i requires 0 <= i < |lf.rows| => WithoutId(lf.rows[i]))
  }

  /** The label file written: this run's rows, first per id, merged after the stored
      rows with the last row per id kept. */
  function Merged(stored: Option<LabelFile>, rows: seq<LabelRow>): LabelFile
  {
    var incoming := Seqs.KeepFirst(rows, MalIdOf);
    if stored.None? then LabelFile(true, incoming)
    else LabelFile(true, Seqs.KeepLast(Aligned(stored.value) + incoming, MalIdOf))
  }

  /** Resume support: the merged file has one row per id, every id stored or new,
      this run's row for every id it extracted (its first one), and for every other
      stored id the last stored row. */
  lemma MergedFacts(stored: Option<LabelFile>, rows: seq<LabelRow>)
    ensures var m := Merged(stored, rows).rows;
      var incoming := Seqs.KeepFirst(rows, MalIdOf);
      var before := if stored.Some? then Aligned(stored.value) else [];
      && Seqs.UniqueKeys(m, MalIdOf)
      && Seqs.Keys(m, MalIdOf) == Seqs.Keys(before, MalIdOf) + Seqs.Keys(rows, MalIdOf)
      && (forall x | x in incoming :: x in m && x.malId in Seqs.Keys(rows, MalIdOf) && x == Seqs.FirstWith(rows, MalIdOf, x.malId))
      && (forall x | x in m && x.malId !in Seqs.Keys(rows, MalIdOf) ::
            x.malId in Seqs.Keys(before, MalIdOf) && x == Seqs.LastWith(before, MalIdOf, x.malId))
      && (forall k | k in Seqs.Keys(before, MalIdOf) && k !in Seqs.Keys(rows, MalIdOf) ::
            Seqs.LastWith(before, MalIdOf, k) in m)
  {
    var incoming := Seqs.KeepFirst(rows, MalIdOf);
    Seqs.KeepFirstFacts(rows, MalIdOf);
    if stored.Some? {
      Seqs.MergeKeepIncoming(Aligned(stored.value), incoming, MalIdOf);
      forall x | x in incoming ensures x in Merged(stored, rows).rows {
        var i :| 0 <= i < |incoming| && incoming[i] == x;
      }
    } else {
      assert Seqs.Keys([], MalIdOf) == {};
    }
  }

  datatype BackfillOutcome = NothingToFetch | Wrote(total: nat, added: nat)

  /** One iteration of the backfill loop against the workspace cache. */
  method VisitCandidate(ws: Workspace, client: Client.JikanClient, c: Candidate, net: Client.Network, ghost rows: seq<LabelRow>)
    returns (crash: Option<DetailsError>, added: seq<LabelRow>)
    modifies ws`details, client
    ensures Visit(Progress(old(ws.details), rows, old(client.effects), None), c, client.base, client.cooldown, net)
      == Progress(ws.details, rows + added, client.effects, crash)
  {
    var id := IdOf(c);
    if id.None? {
      assert rows + [] == rows;
      return Some(BadCandidateId), [];
    }
    var p := FetchDetail(ws, client, id.value, net);
    if p.None? {
      assert rows + [] == rows;
      return None, [];
    }
    var lab := ExtractLabel(p.value);
    if lab.Err? {
      assert rows + [] == rows;
      return Some(lab.error), [];
    }
    if lab.value.None? {
      assert rows + [] == rows;
      return None, [];
    }
    crash, added := None, [lab.value.value];
  }

  /** Once a candidate crashed the loop, later candidates change nothing. */
  lemma {:induction false} VisitsStopAfterCrash(st0: Progress, cs: seq<Candidate>, k: nat, m: nat, base: string, cooldown: real, net: Client.Network)
    requires k <= m <= |cs|
    requires Visits(st0, cs, k, base, cooldown, net).crash.Some?
    ensures Visits(st0, cs, m, base, cooldown, net) == Visits(st0, cs, k, base, cooldown, net)
    decreases m - k
  {
    if m > k {
      VisitsStopAfterCrash(st0, cs, k, m - 1, base, cooldown, net);
    }
  }

  /** `backfill_labels(year_min, year_max)`. Returns the outcome or the error, and the
      client's effects; cache files written before an error stay written. */
  method BackfillLabels(ws: Workspace, yearMin: Option<int>, yearMax: Option<int>, net: Client.Network, cooldown: real)
    returns (r: Result<BackfillOutcome, DetailsError>, effects: seq<Client.Effect>)
    modifies ws`details, ws`labels
    ensures var cands := Candidates(old(ws.anime), old(ws.labels), yearMin, yearMax);
      && (cands.Err? ==> r == Err(cands.error) && effects == [] && ws.details == old(ws.details) && ws.labels == old(ws.labels))
      && (cands.Ok? && cands.value == [] ==>
            r == Ok(NothingToFetch) && effects == [] && ws.details == old(ws.details) && ws.labels == old(ws.labels))
  ensures var cands := Candidates(old(ws.anime), old(ws.labels), yearMin, yearMax);
      cands.Ok? && cands.value != [] ==>
        var st := Visits(Progress(old(ws.details), [], [], None), cands.value, |cands.value|,
                         Client.RStripSlashes(Client.JikanBase), cooldown, net);
        && ws.details == st.cache && effects == st.effects
        && (st.crash.Some? ==> r == Err(st.crash.value) && ws.labels == old(ws.labels))
        && (st.crash.None? && st.rows == [] ==> r == Err(NoLabelsExtracted) && ws.labels == old(ws.labels))
        && (st.crash.None? && st.rows != [] ==>
              ws.labels == Some(Merged(old(ws.labels), st.rows))
              && r == Ok(Wrote(|Merged(old(ws.labels), st.rows).rows|, |Seqs.KeepFirst(st.rows, MalIdOf)|)))
  {
    effects := [];
    var cands := Candidates(ws.anime, ws.labels, yearMin, yearMax);
    if cands.Err? {
      return Err(cands.error), effects;
    }
    var cs := cands.value;
    if cs == [] {
      return Ok(NothingToFetch), effects;
    }
    var client := new Client.JikanClient(Client.JikanBase, cooldown);
    var crash, rows := VisitAll(ws, client, cs, net);
    effects := client.effects;
    if crash.Some? {
      return Err(crash.value), effects;
    }
    if rows == [] {
      return Err(NoLabelsExtracted), effects;
    }
    var merged := Merged(ws.labels, rows);
    ws.labels := Some(merged);
    r := Ok(Wrote(|merged.rows|, |Seqs.KeepFirst(rows, MalIdOf)|));
  }

  /** The loop of `backfill_labels` over every candidate; an exception ends it. */
  method VisitAll(ws: Workspace, client: Client.JikanClient, cs: seq<Candidate>, net: Client.Network)
    returns (crash: Option<DetailsError>, rows: seq<LabelRow>)
    modifies ws`details, client
    ensures Visits(Progress(old(ws.details), [], old(client.effects), None), cs, |cs|, client.base, client.cooldown, net)
      == Progress(ws.details, rows, client.effects, crash)
  {
    rows := [];
    crash := None;
    ghost var st0 := Progress(ws.details, [], client.effects, None);
    var i := 0;
    while i < |cs|
      invariant 0 <= i <= |cs|
      invariant Visits(st0, cs, i, client.base, client.cooldown, net) == Progress(ws.details, rows, client.effects, None)
    {
      var c, added := VisitCandidate(ws, client, cs[i], net, rows);
      rows := rows + added;
      if c.Some? {
        crash := c;
        VisitsStopAfterCrash(st0, cs, i + 1, |cs|, client.base, client.cooldown, net);
        return;
      }
      i := i + 1;
    }
  }

  /** Every label row the loop collects carries an id. */
  lemma {:induction false} VisitsRowsHaveIds(st0: Progress, cs: seq<Candidate>, n: nat, base: string, cooldown: real, net: Client.Network)
    requires n <= |cs| && st0.rows == []
    ensures forall i | 0 <= i < |Visits(st0, cs, n, base, cooldown, net).rows| ::
      Visits(st0, cs, n, base, cooldown, net).rows[i].malId.Some?
  {
    if n > 0 {
      VisitsRowsHaveIds(st0, cs, n - 1, base, cooldown, net);
      VisitRowsHaveIds(Visits(st0, cs, n - 1, base, cooldown, net), cs[n - 1], base, cooldown, net);
    }
  }

  /** One iteration appends only rows that carry an id. */
  lemma VisitRowsHaveIds(st: Progress, c: Candidate, base: string, cooldown: real, net: Client.Network)
    requires forall i | 0 <= i < |st.rows| :: st.rows[i].malId.Some?
    ensures forall i | 0 <= i < |Visit(st, c, base, cooldown, net).rows| :: Visit(st, c, base, cooldown, net).rows[i].malId.Some?
  {
    var nx := Visit(st, c, base, cooldown, net);
    assert |st.rows| <= |nx.rows| && nx.rows[..|st.rows|] == st.rows;
  }
}
