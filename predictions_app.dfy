/** The predictions page (anime-frontend/src/AnimePredictionsApp.jsx): loading a
    season's predictions with cover hydration, the search-and-sort view of the
    loaded items, and the CSV export of that view. */
module PredictionsApp {
  import opened Wrappers
  import Json
  import Text
  import Seqs
  import Js

  type Item = Js.Item

  // ---------------------------------------------------------------------------
  // Search

  /** The query as the view uses it: trimmed, then lowercased. */
  function Needle(query: string): string
  {
    Text.Lower(Text.Trim(query))
  }

  /** An item matches when its lowercased title or its id's decimal text contains the needle. */
  predicate Hit(q: string, item: Item)
  {
    (item.title.Some? && Text.Contains(Text.Lower(item.title.value), q))
    || Text.Contains(Js.IdText(item.malId), q)
  }

  function Hits(q: string): Item -> bool
  {
    (item: Item) => Hit(q, item)
  }

  /** The search step of the `filtered` memo. */
  function Searched(items: seq<Item>, query: string): seq<Item>
  {
    var q := Needle(query);
    if q == "" then items else Seqs.Filter(items, Hits(q))
  }

  /** An empty (or all-blank) query keeps every item; otherwise an item is kept iff
      it matches; either way the result keeps the items' order. */
  lemma SearchedFacts(items: seq<Item>, query: string)
    ensures Needle(query) == "" ==> Searched(items, query) == items
    ensures forall x :: x in Searched(items, query) <==> x in items && (Needle(query) == "" || Hit(Needle(query), x))
    ensures Seqs.IsSubseq(Searched(items, query), items)
  {
    var q := Needle(query);
    if q == "" {
      SubseqRefl(items);
    } else {
      forall x ensures x in Searched(items, query) <==> x in items && Hit(q, x) {
        Seqs.FilterMembership(items, Hits(q), x);
      }
      Seqs.FilterIsSubseq(items, Hits(q));
    }
  }

  lemma {:induction false} SubseqRefl(s: seq<Item>)
    ensures Seqs.IsSubseq(s, s)
  {
    if s != [] {
      SubseqRefl(s[1..]);
    }
  }

  // ---------------------------------------------------------------------------
  // Sort by score

  /** Scores never increase along the sequence, missing scores counting as 0. */
  predicate NonIncreasing(s: seq<Item>)
  {
    forall i, j | 0 <= i < j < |s| :: Js.ScoreOrZero(s[i]) >= Js.ScoreOrZero(s[j])
  }

  /** The items whose score (missing as 0) is k, in order. */
  function WithScore(s: seq<Item>, k: real): seq<Item>
  {
    if s == [] then []
    else (if Js.ScoreOrZero(s[0]) == k then [s[0]] else []) + WithScore(s[1..], k)
  }

  /** x placed before the first element that does not score higher. */
  function InsertByScore(x: Item, t: seq<Item>): seq<Item>
  {
    if t == [] || Js.ScoreOrZero(t[0]) <= Js.ScoreOrZero(x) then [x] + t
    else [t[0]] + InsertByScore(x, t[1..])
  }

  /** `rows.slice().sort((a, b) => (b.pred_score ?? 0) - (a.pred_score ?? 0))`:
      a stable sort on descending score, on a copy. */
  function SortByScore(s: seq<Item>): seq<Item>
  {
    if s == [] then [] else InsertByScore(s[0], SortByScore(s[1..]))
  }

  lemma {:induction false} InsertPermutes(x: Item, t: seq<Item>)
    ensures multiset(InsertByScore(x, t)) == multiset(t) + multiset{x}
  {
    if !(t == [] || Js.ScoreOrZero(t[0]) <= Js.ScoreOrZero(x)) {
      InsertPermutes(x, t[1..]);
      assert t == [t[0]] + t[1..];
    }
  }

  /** Inserting below the head of a non-increasing sequence keeps every score
      of the result's tail at most the head's. */
  lemma InsertBounded(x: Item, t: seq<Item>)
    requires NonIncreasing(t) && t != [] && Js.ScoreOrZero(t[0]) > Js.ScoreOrZero(x)
    ensures forall y | y in InsertByScore(x, t[1..]) :: Js.ScoreOrZero(t[0]) >= Js.ScoreOrZero(y)
  {
    var rest := InsertByScore(x, t[1..]);
    InsertPermutes(x, t[1..]);
    forall y | y in rest ensures Js.ScoreOrZero(t[0]) >= Js.ScoreOrZero(y) {
      assert y in multiset(rest);
      if y != x {
        assert y in multiset(t[1..]);
        var j :| 0 <= j < |t[1..]| && t[1..][j] == y;
        assert t[j + 1] == y;
      }
    }
  }

  lemma {:induction false} InsertSorted(x: Item, t: seq<Item>)
    requires NonIncreasing(t)
    ensures NonIncreasing(InsertByScore(x, t))
  {
    var r := InsertByScore(x, t);
    if !(t == [] || Js.ScoreOrZero(t[0]) <= Js.ScoreOrZero(x)) {
      var rest := InsertByScore(x, t[1..]);
      InsertSorted(x, t[1..]);
      assert r[1..] == rest;
      InsertBounded(x, t);
      forall i, j | 0 <= i < j < |r| ensures Js.ScoreOrZero(r[i]) >= Js.ScoreOrZero(r[j]) {
        if i == 0 {
          assert r[j] in rest;
        } else {
          assert r[i] == rest[i - 1] && r[j] == rest[j - 1];
        }
      }
    }
  }

  lemma {:induction false} InsertStable(x: Item, t: seq<Item>, k: real)
    ensures WithScore(InsertByScore(x, t), k) == (if Js.ScoreOrZero(x) == k then [x] else []) + WithScore(t, k)
  {
    var r := InsertByScore(x, t);
    if t == [] || Js.ScoreOrZero(t[0]) <= Js.ScoreOrZero(x) {
      assert r[0] == x && r[1..] == t;
    } else {
      var rest := InsertByScore(x, t[1..]);
      InsertStable(x, t[1..], k);
      assert r[0] == t[0] && r[1..] == rest;
      var tail := WithScore(t[1..], k);
      assert WithScore(r, k) == (if Js.ScoreOrZero(t[0]) == k then [t[0]] else []) + WithScore(rest, k);
      assert WithScore(t, k) == (if Js.ScoreOrZero(t[0]) == k then [t[0]] else []) + tail;
      if Js.ScoreOrZero(x) == k {
        assert Js.ScoreOrZero(t[0]) != k;
        assert WithScore(r, k) == [x] + tail;
      } else {
        assert WithScore(rest, k) == tail;
      }
    }
  }

  /** The sorted view is non-increasing in score, holds the same items, and keeps
      items of equal score in their original relative order. */
  lemma {:induction false} SortFacts(s: seq<Item>)
    ensures NonIncreasing(SortByScore(s))
    ensures multiset(SortByScore(s)) == multiset(s)
    ensures forall k :: WithScore(SortByScore(s), k) == WithScore(s, k)
  {
    if s != [] {
      SortFacts(s[1..]);
      InsertSorted(s[0], SortByScore(s[1..]));
      InsertPermutes(s[0], SortByScore(s[1..]));
      forall k ensures WithScore(SortByScore(s), k) == WithScore(s, k) {
        InsertStable(s[0], SortByScore(s[1..]), k);
      }
      assert s == [s[0]] + s[1..];
    }
  }

  /** The `filtered` memo: search, then sort on a copy when sorting is on. */
  function Filtered(items: seq<Item>, query: string, sortByScore: bool): seq<Item>
  {
    var rows := Searched(items, query);
    if sortByScore then SortByScore(rows) else rows
  }

  /** With sorting off the view is the search result in the original order; with
      sorting on it is the same items in non-increasing score order, equal scores
      in their original order. */
  lemma FilteredFacts(items: seq<Item>, query: string, sortByScore: bool)
    ensures var v := Filtered(items, query, sortByScore);
      && (!sortByScore ==> Seqs.IsSubseq(v, items))
      && multiset(v) == multiset(Searched(items, query))
      && (forall x :: x in v <==> x in items && (Needle(query) == "" || Hit(Needle(query), x)))
      && (sortByScore ==> NonIncreasing(v) && forall k :: WithScore(v, k) == WithScore(Searched(items, query), k))
  {
    SearchedFacts(items, query);
    var rows := Searched(items, query);
    SortFacts(rows);
    var v := Filtered(items, query, sortByScore);
    forall x ensures x in v <==> x in rows {
      assert x in v <==> x in multiset(v);
      assert x in rows <==> x in multiset(rows);
    }
  }

  // ---------------------------------------------------------------------------
  // CSV export

  const Header: string := "mal_id,title,year,season,pred_score,image_url"

  /** `s.replace(/"/g, '""')`. */
  function Escape(s: string): (r: string)
    ensures '\n' !in s ==> '\n' !in r
  {
    if s == [] then []
    else (if s[0] == '"' then "\"\"" else [s[0]]) + Escape(s[1..])
  }

  /** A quoted CSV field: quotes around the escaped text. */
  function Quote(s: string): string
  {
    "\"" + Escape(s) + "\""
  }

  /** Reads the inside of a quoted field back: a doubled quote stands for one
      quote, and a lone quote is malformed. */
  function Unescape(s: string): Option<string>
  {
    if s == [] then Some([])
    else if s[0] != '"' then
      match Unescape(s[1..])
      case Some(t) => Some([s[0]] + t)
      case None => None
    else if |s| >= 2 && s[1] == '"' then
      match Unescape(s[2..])
      case Some(t) => Some("\"" + t)
      case None => None
    else None
  }

  /** Quoting a field loses nothing: the field reads back exactly (section 2,
      rule 7 of RFC 4180). */
  lemma {:induction false} UnquoteQuote(s: string)
    ensures var q := Quote(s); |q| >= 2 && q[0] == '"' && q[|q| - 1] == '"' && Unescape(q[1..|q| - 1]) == Some(s)
  {
    var q := Quote(s);
    assert q[1..|q| - 1] == Escape(s);
    UnescapeEscape(s);
  }

  lemma {:induction false} UnescapeEscape(s: string)
    ensures Unescape(Escape(s)) == Some(s)
  {
    if s != [] {
      UnescapeEscape(s[1..]);
      var e := Escape(s);
      if s[0] == '"' {
        assert e == "\"\"" + Escape(s[1..]);
        assert e[2..] == Escape(s[1..]);
      } else {
        assert e == [s[0]] + Escape(s[1..]);
        assert e[1..] == Escape(s[1..]);
      }
      assert s == [s[0]] + s[1..];
    }
  }

  /** `(v || "")` for a string field. */
  function OrEmpty(v: Option<string>): string
  {
    if v.Some? then v.value else ""
  }

  /** `(r.image_url || "").replace(...)`: a falsy value gives "", a string is
      kept; any other truthy value has no `replace` and throws (None). */
  function ImageText(v: Option<Json.Value>): (r: Option<string>)
    ensures r.None? <==> Js.Truthy(v) && !v.value.Str?
    ensures r.Some? && r.value != "" ==> v == Some(Json.Str(r.value))
  {
    if !Js.Truthy(v) then Some("")
    else if v.value.Str? then Some(v.value.s)
    else None
  }

  /** A row the export can write without throwing. */
  predicate Exportable(item: Item)
  {
    ImageText(item.imageUrl).Some?
  }

  /** An integer cell of `[...].join(",")`: null prints as the empty string. */
  function IntCell(v: Option<int>): string
  {
    if v.Some? then Text.IntToString(v.value) else ""
  }

  /** One CSV line: id, quoted title, year, season, score, quoted image URL. The
      number-to-text conversion of the score is a parameter. */
  function CsvLine(item: Item, num: real -> string): string
    requires Exportable(item)
  {
    Text.Join([IntCell(item.malId), Quote(OrEmpty(item.title)), IntCell(item.year), OrEmpty(item.season),
               (if item.predScore.Some? then num(item.predScore.value) else ""), Quote(ImageText(item.imageUrl).value)], ",")
  }

  function CsvLines(rows: seq<Item>, num: real -> string): (lines: seq<string>)
    requires forall i | 0 <= i < |rows| :: Exportable(rows[i])
    ensures |lines| == |rows| && forall i | 0 <= i < |rows| :: lines[i] == CsvLine(rows[i], num)
  {
    seq(|rows|, i requires 0 <= i < |rows| => CsvLine(rows[i], num))
  }

  /** The export: the header, a newline, and the lines joined by newlines; None
      when building some row's line throws. */
  function Csv(rows: seq<Item>, num: real -> string): (r: Option<string>)
    ensures r.None? <==> exists i | 0 <= i < |rows| :: !Exportable(rows[i])
  {
    if forall i | 0 <= i < |rows| :: Exportable(rows[i]) then
      Some(Header + "\n" + Text.Join(CsvLines(rows, num), "\n"))
    else
      None
  }

  /** `s.split(c)`. */
  function Split(s: string, c: char): (parts: seq<string>)
    ensures |parts| >= 1
    decreases |s|
  {
    match Text.SplitFirst(s, c)
    case None => [s]
    case Some((a, b)) => [a] + Split(b, c)
  }

  /** Splitting at the first separator peels off the part before it. */
  lemma SplitCons(a: string, c: char, b: string)
    requires c !in a
    ensures Split(a + [c] + b, c) == [a] + Split(b, c)
  {
    Text.SplitFirstAt(a, c, b);
  }

  lemma {:induction false} SplitJoin(parts: seq<string>, c: char)
    requires |parts| >= 1 && forall i | 0 <= i < |parts| :: c !in parts[i]
    ensures Split(Text.Join(parts, [c]), c) == parts
  {
    if |parts| == 1 {
      assert Text.Join(parts, [c]) == parts[0];
    } else {
      var tail := parts[1..];
      assert parts == [parts[0]] + tail;
      assert forall i | 0 <= i < |tail| :: c !in tail[i] by {
        forall i | 0 <= i < |tail| ensures c !in tail[i] {
          assert tail[i] == parts[i + 1];
        }
      }
      var rest := Text.Join(tail, [c]);
      assert Text.Join(parts, [c]) == parts[0] + [c] + rest;
      SplitCons(parts[0], c, rest);
      SplitJoin(tail, c);
    }
  }

  lemma {:induction false} JoinAvoids(parts: seq<string>, sep: string, c: char)
    requires c !in sep && forall i | 0 <= i < |parts| :: c !in parts[i]
    ensures c !in Text.Join(parts, sep)
  {
    if |parts| > 1 {
      JoinAvoids(parts[1..], sep, c);
    }
  }

  /** The text fields of an item hold no line break. */
  predicate SingleLine(item: Item, num: real -> string)
  {
    && Exportable(item)
    && '\n' !in OrEmpty(item.title)
    && '\n' !in OrEmpty(item.season)
    && '\n' !in ImageText(item.imageUrl).value
    && (item.predScore.Some? ==> '\n' !in num(item.predScore.value))
  }

  lemma IntCellSingleLine(v: Option<int>)
    ensures '\n' !in IntCell(v)
  {
    if v.Some? {
      var s := Text.IntToString(v.value);
      assert forall i | 0 <= i < |s| :: s[i] != '\n';
    }
  }

  lemma CsvLineSingleLine(item: Item, num: real -> string)
    requires SingleLine(item, num)
    ensures '\n' !in CsvLine(item, num)
  {
    IntCellSingleLine(item.malId);
    IntCellSingleLine(item.year);
    var cells := [IntCell(item.malId), Quote(OrEmpty(item.title)), IntCell(item.year), OrEmpty(item.season),
                  (if item.predScore.Some? then num(item.predScore.value) else ""), Quote(ImageText(item.imageUrl).value)];
    JoinAvoids(cells, ",", '\n');
  }

  lemma HeaderSingleLine()
    ensures '\n' !in Header
  {
    assert Header == "mal_id,title,year,season," + "pred_score,image_url";
  }

  /** With at least one row and no line break inside a field, the export splits
      into the header line followed by one line per row in display order, with
      no trailing newline; with no rows it is the header and a newline. */
  lemma CsvLayout(rows: seq<Item>, num: real -> string)
    requires forall i | 0 <= i < |rows| :: SingleLine(rows[i], num)
    ensures rows == [] ==> Csv(rows, num) == Some(Header + "\n")
    ensures rows != [] ==> Csv(rows, num).Some? && Split(Csv(rows, num).value, '\n') == [Header] + CsvLines(rows, num)
  {
    var lines := CsvLines(rows, num);
    if rows != [] {
      var all := [Header] + lines;
      assert all[1..] == lines;
      assert Text.Join(all, "\n") == Csv(rows, num).value;
      forall i | 0 <= i < |all| ensures '\n' !in all[i] {
        if i == 0 {
          HeaderSingleLine();
        } else {
          assert all[i] == CsvLine(rows[i - 1], num);
          CsvLineSingleLine(rows[i - 1], num);
        }
      }
      SplitJoin(all, '\n');
    } else {
      assert Header + "\n" + Text.Join(lines, "\n") == Header + "\n";
    }
  }

  // ---------------------------------------------------------------------------
  // Covers and loading

  /** Whether a response status counts as `res.ok`. */
  predicate OkStatus(status: int)
  {
    200 <= status <= 299
  }

  /** The catalog's answer to a detail request: no answer (the request throws), or
      a status and a body that parses as JSON or not. */
  datatype CoverReply = NoAnswer | CoverAnswer(status: int, body: Option<Json.Value>)

  /** The cover of a detail document: the first truthy of the large webp image,
      the large jpg image and the jpg image, else null. */
  function CoverFromDetail(j: Option<Json.Value>): (r: Option<Json.Value>)
    ensures r.Some? ==> Js.Truthy(r)
    ensures Js.Truthy(Js.Path(j, ["data", "images", "webp", "large_image_url"])) ==>
      r == Js.Path(j, ["data", "images", "webp", "large_image_url"])
    ensures !Js.Truthy(Js.Path(j, ["data", "images", "webp", "large_image_url"])) ==>
      r == Js.FirstTruthy([Js.Path(j, ["data", "images", "jpg", "large_image_url"]), Js.Path(j, ["data", "images", "jpg", "image_url"])])
  {
    var alts := [Js.Path(j, ["data", "images", "webp", "large_image_url"]),
                 Js.Path(j, ["data", "images", "jpg", "large_image_url"]),
                 Js.Path(j, ["data", "images", "jpg", "image_url"])];
    assert alts[1..] == [alts[1], alts[2]];
    Js.FirstTruthy(alts)
  }

  function CoverUrl(malId: Option<int>): string
  {
    "https://api.jikan.moe/v4/anime/" + Js.IdText(malId)
  }

  /** `fetchCoverFor(malId)`: null on a thrown request, a non-ok status or a body
      that is not JSON; the detail's cover otherwise. */
  function FetchCoverFor(reply: CoverReply): (r: Option<Json.Value>)
    ensures r.Some? ==> reply.CoverAnswer? && OkStatus(reply.status) && reply.body.Some? && r == CoverFromDetail(reply.body)
    ensures reply.CoverAnswer? && OkStatus(reply.status) && reply.body.Some? ==> r == CoverFromDetail(reply.body)
  {
    match reply
    case NoAnswer => None
    case CoverAnswer(status, body) =>
      if !OkStatus(status) || body.None? then None else CoverFromDetail(body)
  }

  /** One item of the hydration map: kept when it has a truthy image_url, else
      given the fetched cover or null. */
  function HydrateOne(item: Item, covers: string -> CoverReply): Item
  {
    if Js.Truthy(item.imageUrl) then item
    else item.(imageUrl := Some(FetchCoverFor(covers(CoverUrl(item.malId))).GetOr(Json.Null)))
  }

  /** The hydration of a loaded list: same count and order, only image_url may
      change, an item that already has a truthy image_url is untouched, and every
      other item's image_url becomes its cover or null. */
  function Hydrate(data: seq<Item>, covers: string -> CoverReply): (out: seq<Item>)
    ensures |out| == |data|
    ensures forall i | 0 <= i < |data| :: out[i] == data[i].(imageUrl := out[i].imageUrl)
    ensures forall i | 0 <= i < |data| :: Js.Truthy(data[i].imageUrl) ==> out[i] == data[i]
    ensures forall i | 0 <= i < |data| :: !Js.Truthy(data[i].imageUrl) ==>
      out[i].imageUrl == Some(FetchCoverFor(covers(CoverUrl(data[i].malId))).GetOr(Json.Null))
  {
    seq(|data|, i requires 0 <= i < |data| => HydrateOne(data[i], covers))
  }

  /** Hydrating an already hydrated list against the same catalog changes nothing. */
  lemma HydrateIdempotent(data: seq<Item>, covers: string -> CoverReply)
    ensures Hydrate(Hydrate(data, covers), covers) == Hydrate(data, covers)
  {
    var once := Hydrate(data, covers);
    forall i | 0 <= i < |data| ensures HydrateOne(once[i], covers) == once[i] {
      if !Js.Truthy(once[i].imageUrl) {
        var c := FetchCoverFor(covers(CoverUrl(data[i].malId)));
        assert c.None?;
        assert once[i].malId == data[i].malId;
      }
    }
  }

  /** The predictions endpoint's answer: a thrown request with its message, or a
      status and a body that parses as a list of items or fails with a message. */
  datatype PredictionsReply = Rejected(message: string) | Answered(status: int, body: Result<seq<Item>, string>)

  function PredictionsUrl(apiBase: string, year: string, season: string): string
  {
    apiBase + "/season/" + year + "/" + season + "/predictions"
  }

  /** `e?.message || "Failed to fetch"`. */
  function Message(m: string): (r: string)
    ensures r != ""
  {
    if m == "" then "Failed to fetch" else m
  }

  /** What `refresh` ends with: the hydrated items, or the error message shown. */
  function LoadOutcome(reply: PredictionsReply, covers: string -> CoverReply): (r: Result<seq<Item>, string>)
    ensures r.Err? ==> r.error != ""
    ensures reply.Rejected? ==> r == Err(Message(reply.message))
    ensures reply.Answered? && !OkStatus(reply.status) ==> r == Err("HTTP " + Text.IntToString(reply.status))
    ensures reply.Answered? && OkStatus(reply.status) && reply.body.Err? ==> r == Err(Message(reply.body.error))
    ensures reply.Answered? && OkStatus(reply.status) && reply.body.Ok? ==> r == Ok(Hydrate(reply.body.value, covers))
  {
    match reply
    case Rejected(m) => Err(Message(m))
    case Answered(status, body) =>
      if !OkStatus(status) then Err("HTTP " + Text.IntToString(status))
      else if body.Err? then Err(Message(body.error))
      else Ok(Hydrate(body.value, covers))
  }

  const DefaultApiBase: string := "http://127.0.0.1:8000"

  /** The page's state. */
  class App {
    var apiBase: string
    var year: string
    var season: string
    var loading: bool
    var error: string
    var items: seq<Item>
    var query: string
    var sortByScore: bool

    /** The initial state; `envBase` is VITE_API_BASE, "" when unset. */
    constructor(envBase: string)
      ensures apiBase == (if envBase == "" then DefaultApiBase else envBase)
      ensures year == "2025" && season == "fall" && !loading && error == "" && items == []
      ensures query == "" && sortByScore
    {
      apiBase := if envBase == "" then DefaultApiBase else envBase;
      year := "2025";
      season := "fall";
      loading := false;
      error := "";
      items := [];
      query := "";
      sortByScore := true;
    }

    /** `refresh()`: clear the error, load and hydrate the season's predictions;
        on failure show the message and empty the list; loading ends either way. */
    method Refresh(api: string -> PredictionsReply, covers: string -> CoverReply)
      modifies this`loading, this`error, this`items
      ensures !loading
      ensures var r := LoadOutcome(api(PredictionsUrl(apiBase, year, season)), covers);
        && (r.Ok? ==> error == "" && items == r.value)
        && (r.Err? ==> error == r.error && items == [])
    {
      error := "";
      loading := true;
      var r := LoadOutcome(api(PredictionsUrl(apiBase, year, season)), covers);
      if r.Ok? {
        items := r.value;
      } else {
        error := r.error;
        items := [];
      }
      loading := false;
    }

    /** The items the page shows. */
    function View(): seq<Item>
      reads this
    {
      Filtered(items, query, sortByScore)
    }

    /** The Export CSV button: the text of the shown rows and the download name,
        or None when building the text throws and nothing is downloaded. */
    method Export(num: real -> string) returns (download: Option<(string, string)>)
      ensures download.None? <==> exists i | 0 <= i < |View()| :: !Exportable(View()[i])
      ensures download.Some? ==> Csv(View(), num) == Some(download.value.0)
      ensures download.Some? ==> download.value.1 == "predictions_" + year + "_" + season + ".csv"
    {
      match Csv(View(), num)
      case None =>
        download := None;
      case Some(csv) =>
        download := Some((csv, "predictions_" + year + "_" + season + ".csv"));
    }
  }
}
