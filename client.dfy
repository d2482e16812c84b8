/** The Jikan (MyAnimeList) API client of src/mal/client.py: URL composition,
    the three endpoints, and the effect order of one GET (request, status
    check, cooldown sleep, JSON decoding). The network is an oracle from URL
    to reply; the client records the effects it performs in order. */
module Client {
  import opened Wrappers
  import Json
  import Text

  /** JIKAN_BASE. */
  const JikanBase: string := "https://api.jikan.moe/v4"

  /** The JIKAN_COOLDOWN default, in seconds; the environment value is passed as configuration. */
  const DefaultCooldown: real := 1.2

  /** `s.rstrip("/")`. */
  function RStripSlashes(s: string): (r: string)
    ensures |r| <= |s| && r == s[..|r|]
    ensures r != [] ==> r[|r| - 1] != '/'
    ensures forall i | |r| <= i < |s| :: s[i] == '/'
  {
    if s != [] && s[|s| - 1] == '/' then RStripSlashes(s[..|s| - 1]) else s
  }

  /** `s.lstrip("/")`. */
  function LStripSlashes(s: string): (r: string)
    ensures |r| <= |s| && r == s[|s| - |r|..]
    ensures r != [] ==> r[0] != '/'
    ensures forall i | 0 <= i < |s| - |r| :: s[i] == '/'
  {
    if s != [] && s[0] == '/' then LStripSlashes(s[1..]) else s
  }

  /** The URL `get` requests: the (already stripped) base, one slash, the path without leading slashes. */
  function RequestUrl(base: string, path: string): string
  {
    base + "/" + LStripSlashes(path)
  }

  /** However many slashes the configured base ends with and the path starts with,
      the URL joins them with exactly one. */
  lemma RequestUrlOneSlash(rawBase: string, path: string)
    ensures var b := RStripSlashes(rawBase);
      var url := RequestUrl(b, path);
      && url[|b|] == '/'
      && (|b| > 0 ==> url[|b| - 1] != '/')
      && (|url| > |b| + 1 ==> url[|b| + 1] != '/')
      && url[..|b|] == b && rawBase[..|b|] == b
      && url[|b| + 1..] == path[|path| - (|url| - |b| - 1)..]
  {
  }

  /** `season(year, season)`: `seasons/{year}/{season}`. */
  function SeasonPath(year: int, season: string): string
  {
    "seasons/" + Text.IntToString(year) + "/" + season
  }

  /** `seasons_upcoming()`. */
  const UpcomingPath: string := "seasons/upcoming"

  /** `anime(mal_id)`: `anime/{mal_id}/full`. */
  function AnimePath(malId: int): string
  {
    "anime/" + Text.IntToString(malId) + "/full"
  }

  /** Distinct buckets request distinct season paths, and none of them is the upcoming path. */
  lemma SeasonPathInjective(y1: int, s1: string, y2: int, s2: string)
    ensures SeasonPath(y1, s1) == SeasonPath(y2, s2) ==> y1 == y2 && s1 == s2
    ensures SeasonPath(y1, s1) != UpcomingPath
  {
    var a, b := Text.IntToString(y1), Text.IntToString(y2);
    var p1, p2 := SeasonPath(y1, s1), SeasonPath(y2, s2);
    assert p1[8] == a[0];
    assert UpcomingPath[8] == 'u';
    if p1 == p2 {
      var t1, t2 := p1[8..], p2[8..];
      assert t1 == a + "/" + s1 && t2 == b + "/" + s2;
      assert '/' !in a && '/' !in b;
      assert t1[|a|] == '/' && t1[..|a|] == a;
      assert t2[|b|] == '/' && t2[..|b|] == b;
      assert a == b;
      Text.IntToStringInjective(y1, y2);
      assert s1 == t1[|a| + 1..];
    }
  }

  /** Distinct ids request distinct detail paths. */
  lemma AnimePathInjective(a: int, b: int)
    ensures AnimePath(a) == AnimePath(b) ==> a == b
  {
    var x, y := Text.IntToString(a), Text.IntToString(b);
    if AnimePath(a) == AnimePath(b) {
      assert AnimePath(a) == "anime/" + x + "/full";
      assert |x| == |y|;
      assert x == AnimePath(a)[6..6 + |x|];
      Text.IntToStringInjective(a, b);
    }
  }

  /** One reply of the network to one request: no reply at all (connection error,
      timeout), or a status and a body that may fail to parse as JSON. */
  datatype Response = Unreachable | Reply(status: int, body: Option<Json.Value>)

  type Network = string -> Response

  datatype FetchError = ConnectionFailed | HttpError(status: int) | NotJson

  /** What the outside world sees of the client: requests issued and cooldown sleeps. */
  datatype Effect = Request(url: string) | Sleep(seconds: real)

  /** `raise_for_status()` raises for client (4xx) and server (5xx) error statuses. */
  predicate RaisesForStatus(status: int) {
    400 <= status < 600
  }

  /** What `get` returns or raises for a reply. */
  function Outcome(resp: Response): (r: Result<Json.Value, FetchError>)
    ensures r.Ok? <==> resp.Reply? && !RaisesForStatus(resp.status) && resp.body.Some?
    ensures resp.Unreachable? ==> r == Err(ConnectionFailed)
    ensures resp.Reply? && RaisesForStatus(resp.status) ==> r == Err(HttpError(resp.status))
    ensures r.Ok? ==> r.value == resp.body.value
  {
    match resp
    case Unreachable => Err(ConnectionFailed)
    case Reply(status, body) =>
      if RaisesForStatus(status) then Err(HttpError(status))
      else if body.None? then Err(NotJson)
      else Ok(body.value)
  }

  /** The effects of one `get`: exactly one request, then the cooldown only if the
      status check passed; the sleep comes before decoding, so a reply that is not
      JSON still pays it, and a failed status never does. */
  function CallEffects(url: string, resp: Response, cooldown: real): (e: seq<Effect>)
    ensures 1 <= |e| <= 2 && e[0] == Request(url)
    ensures |e| == 2 <==> resp.Reply? && !RaisesForStatus(resp.status)
    ensures |e| == 2 ==> e[1] == Sleep(cooldown)
    ensures Outcome(resp).Ok? ==> |e| == 2
  {
    if resp.Reply? && !RaisesForStatus(resp.status) then [Request(url), Sleep(cooldown)]
    else [Request(url)]
  }

  /** Two appends in a row are one append of both. */
  lemma AppendTwo(log: seq<Effect>, x: Effect, y: Effect)
    ensures (log + [x]) + [y] == log + [x, y]
  {
  }

  class JikanClient {
    const base: string
    const cooldown: real
    /** The effects performed so far, oldest first. */
    var effects: seq<Effect>

    constructor(base: string, cooldown: real)
      ensures this.base == RStripSlashes(base) && this.cooldown == cooldown
      ensures effects == []
    {
      this.base := RStripSlashes(base);
      this.cooldown := cooldown;
      effects := [];
    }

    /** `get(path)`: one request, no retry. */
    method Get(path: string, net: Network) returns (r: Result<Json.Value, FetchError>)
      modifies this
      ensures r == Outcome(net(RequestUrl(base, path)))
      ensures effects == old(effects) + CallEffects(RequestUrl(base, path), net(RequestUrl(base, path)), cooldown)
    {
      var url := base + "/" + LStripSlashes(path);
      assert url == RequestUrl(base, path);
      ghost var before := effects;
      effects := effects + [Request(url)];
      var resp := net(url);
      if resp.Reply? && !RaisesForStatus(resp.status) {
        effects := effects + [Sleep(cooldown)];
        AppendTwo(before, Request(url), Sleep(cooldown));
      }
      match resp {
        case Unreachable =>
          r := Err(ConnectionFailed);
        case Reply(status, body) =>
          if RaisesForStatus(status) {
            r := Err(HttpError(status));
          } else if body.None? {
            r := Err(NotJson);
          } else {
            r := Ok(body.value);
          }
      }
    }

    method Season(year: int, season: string, net: Network) returns (r: Result<Json.Value, FetchError>)
      modifies this
      ensures var url := RequestUrl(base, SeasonPath(year, season));
        r == Outcome(net(url)) && effects == old(effects) + CallEffects(url, net(url), cooldown)
    {
      r := Get(SeasonPath(year, season), net);
    }

    method SeasonsUpcoming(net: Network) returns (r: Result<Json.Value, FetchError>)
      modifies this
      ensures var url := RequestUrl(base, UpcomingPath);
        r == Outcome(net(url)) && effects == old(effects) + CallEffects(url, net(url), cooldown)
    {
      r := Get(UpcomingPath, net);
    }

    method Anime(malId: int, net: Network) returns (r: Result<Json.Value, FetchError>)
      modifies this
      ensures var url := RequestUrl(base, AnimePath(malId));
        r == Outcome(net(url)) && effects == old(effects) + CallEffects(url, net(url), cooldown)
    {
      r := Get(AnimePath(malId), net);
    }
  }

  /** The `AnimeItem` record shape: an int mal_id and optional fields. */
  datatype AnimeItem = AnimeItem(
    malId: int,
    title: Option<string>,
    mediaType: Option<string>,  // the `type` field
    episodes: Option<int>,
    duration: Option<string>,
    source: Option<string>,
    rating: Option<string>,
    year: Option<int>,
    season: Option<string>,
    synopsis: Option<string>,
    members: Option<int>,
    favorites: Option<int>,
    score: Option<real>,
    status: Option<string>,
    studios: Option<seq<Json.Value>>,
    demographics: Option<seq<Json.Value>>,
    genres: Option<seq<Json.Value>>,
    relations: Option<seq<Json.Value>>)

  /** `AnimeItem(mal_id=m)`: every field other than mal_id takes its default, None. */
  function NewAnimeItem(malId: int): (item: AnimeItem)
    ensures item.malId == malId
    ensures item.title.None? && item.mediaType.None? && item.episodes.None? && item.duration.None?
    ensures item.source.None? && item.rating.None? && item.year.None? && item.season.None?
    ensures item.synopsis.None? && item.members.None? && item.favorites.None? && item.score.None?
    ensures item.status.None? && item.studios.None? && item.demographics.None?
    ensures item.genres.None? && item.relations.None?
  {
    AnimeItem(malId, None, None, None, None, None, None, None, None, None, None, None, None, None, None, None, None, None)
  }
}
