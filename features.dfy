/** Feature derivation (src/features/build_features.py): fill the numeric
    defaults, derive clipped title and synopsis lengths, one-hot encode the four
    categorical columns, lay the feature columns out in a fixed order, save that
    order, and attach the id, label and grouping columns. */
module Features {
  import opened Wrappers
  import Json
  import opened Store

  /** CATEGORICAL_COLS, the dummy prefixes in order. */
  const CategoricalCols: seq<string> := ["type", "source", "rating", "season"]
  /** NUMERIC_COLS followed by the two length columns: the leading feature columns. */
  const LeadingCols: seq<string> := ["episodes", "members", "favorites", "year", "title_len", "synopsis_len"]
  const TitleCap: nat := 200
  const SynopsisCap: nat := 2000

  /** NUMERIC_DEFAULTS in insertion order; np.nan for score is a missing value, so
      filling score leaves it as it is. */
  const NumericDefaults: seq<(string, Option<Json.Value>)> :=
    [("episodes", Some(Json.Int(0))), ("members", Some(Json.Int(0))), ("favorites", Some(Json.Int(0))), ("score", None)]

  // ---------------------------------------------------------------------------
  // Numeric defaults

  /** `df[col].fillna(val)` on one row. */
  function FillNa(row: AnimeRow, col: string, val: Option<Json.Value>): AnimeRow
  {
    if col == "episodes" && row.episodes.None? then row.(episodes := val)
    else if col == "members" && row.members.None? then row.(members := val)
    else if col == "favorites" && row.favorites.None? then row.(favorites := val)
    else if col == "score" && row.score.None? then row.(score := val)
    else row
  }

  /** A row after the first k defaults of the loop have been applied. */
  function FillFirst(row: AnimeRow, k: nat): AnimeRow
    requires k <= |NumericDefaults|
  {
    if k == 0 then row
    else FillNa(FillFirst(row, k - 1), NumericDefaults[k - 1].0, NumericDefaults[k - 1].1)
  }

  /** A row after the whole defaults loop. */
  function Filled(row: AnimeRow): AnimeRow
  {
    FillFirst(row, |NumericDefaults|)
  }

  /** The defaults loop fills missing episodes, members and favorites with 0 and
      changes nothing else, score included. */
  lemma FilledFacts(row: AnimeRow)
    ensures var f := Filled(row);
      && f.episodes == (if row.episodes.None? then Some(Json.Int(0)) else row.episodes)
      && f.members == (if row.members.None? then Some(Json.Int(0)) else row.members)
      && f.favorites == (if row.favorites.None? then Some(Json.Int(0)) else row.favorites)
      && f == row.(episodes := f.episodes, members := f.members, favorites := f.favorites)
  {
    assert NumericDefaults[0] == ("episodes", Some(Json.Int(0))) && NumericDefaults[1] == ("members", Some(Json.Int(0)));
    assert NumericDefaults[2] == ("favorites", Some(Json.Int(0))) && NumericDefaults[3] == ("score", None);
    assert FillFirst(row, 0) == row;
    var r1 := FillFirst(row, 1);
    var r2 := FillFirst(row, 2);
    var r3 := FillFirst(row, 3);
    assert r1 == FillNa(row, "episodes", Some(Json.Int(0)));
    assert r2 == FillNa(r1, "members", Some(Json.Int(0)));
    assert r3 == FillNa(r2, "favorites", Some(Json.Int(0)));
    assert Filled(row) == FillNa(r3, "score", None);
  }

  // ---------------------------------------------------------------------------
  // String order and dummy levels

  /** Python's `a < b` on str: lexicographic by code point. */
  predicate Below(a: string, b: string)
  {
    if a == [] then b != []
    else if b == [] then false
    else if a[0] != b[0] then a[0] < b[0]
    else Below(a[1..], b[1..])
  }

  lemma {:induction false} BelowIrreflexive(a: string)
    ensures !Below(a, a)
  {
    if a != [] {
      BelowIrreflexive(a[1..]);
    }
  }

  lemma {:induction false} BelowTotal(a: string, b: string)
    requires a != b
    ensures Below(a, b) || Below(b, a)
  {
    if a != [] && b != [] && a[0] == b[0] {
      assert a == [a[0]] + a[1..] && b == [b[0]] + b[1..];
      BelowTotal(a[1..], b[1..]);
    }
  }

  lemma {:induction false} BelowTransitive(a: string, b: string, c: string)
    requires Below(a, b) && Below(b, c)
    ensures Below(a, c)
  {
    if a != [] && b != [] && c != [] && a[0] == b[0] && b[0] == c[0] {
      BelowTransitive(a[1..], b[1..], c[1..]);
    }
  }

  lemma {:induction false} BelowAsymmetric(a: string, b: string)
    requires Below(a, b)
    ensures !Below(b, a)
  {
    if Below(b, a) {
      BelowTransitive(a, b, a);
      BelowIrreflexive(a);
    }
  }

  /** Strictly increasing, hence free of duplicates. */
  predicate Increasing(s: seq<string>)
  {
    forall i, j | 0 <= i < j < |s| :: Below(s[i], s[j])
  }

  lemma IncreasingDistinct(s: seq<string>, i: int, j: int)
    requires Increasing(s) && 0 <= i < |s| && 0 <= j < |s| && i != j
    ensures s[i] != s[j]
  {
    if i < j { BelowIrreflexive(s[i]); } else { BelowIrreflexive(s[j]); }
  }

  /** x placed into an increasing sequence of levels, unless already there. */
  function Insert(s: seq<string>, x: string): (r: seq<string>)
    requires Increasing(s)
    ensures Increasing(r)
    ensures forall y :: y in r <==> y in s || y == x
  {
    if s == [] then [x]
    else if x == s[0] then s
    else if Below(x, s[0]) then
      assert forall j | 0 <= j < |s| :: Below(x, s[j]) by {
        forall j | 0 <= j < |s| ensures Below(x, s[j]) {
          if j > 0 { BelowTransitive(x, s[0], s[j]); }
        }
      }
      [x] + s
    else
      var rest := Insert(s[1..], x);
      BelowTotal(x, s[0]);
      assert forall y | y in rest :: Below(s[0], y) by {
        forall y | y in rest ensures Below(s[0], y) {
          if y != x {
            var j :| 0 <= j < |s[1..]| && s[1..][j] == y;
            assert s[j + 1] == y;
          }
        }
      }
      [s[0]] + rest
  }

  /** The dummy levels of a column: its distinct values in sorted order, as
      `get_dummies` lays them out. */
  function Levels(vals: seq<string>): (r: seq<string>)
    ensures Increasing(r)
    ensures forall y :: y in r <==> y in vals
  {
    if vals == [] then []
    else
      var rest := Levels(vals[1..]);
      assert forall y :: y in vals <==> y == vals[0] || y in vals[1..];
      Insert(rest, vals[0])
  }

  // ---------------------------------------------------------------------------
  // Columns

  /** A categorical cell after `fillna("unknown")`. */
  function Cat(v: Option<Json.Value>): string
  {
    if v.Some? && v.value.Str? then v.value.s else "unknown"
  }

  /** The value of categorical column g (type, source, rating, season) of a row. */
  function Category(row: AnimeRow, g: nat): string
    requires g < 4
  {
    if g == 0 then Cat(row.mediaType)
    else if g == 1 then Cat(row.source)
    else if g == 2 then Cat(row.rating)
    else row.season.GetOr("unknown")
  }

  function Column(rows: seq<AnimeRow>, g: nat): (c: seq<string>)
    requires g < 4
    ensures |c| == |rows| && forall i | 0 <= i < |rows| :: c[i] == Category(rows[i], g)
  {
    seq(|rows|, i requires 0 <= i < |rows| => Category(rows[i], g))
  }

  /** The dummy levels of all four groups. */
  function AllLevels(rows: seq<AnimeRow>): (levels: seq<seq<string>>)
    ensures |levels| == 4
  {
    seq(4, g requires 0 <= g < 4 => Levels(Column(rows, g)))
  }

  /** The dummy column `{prefix}_{value}` of group g. */
  function DummyName(g: nat, v: string): string
    requires g < 4
  {
    CategoricalCols[g] + "_" + v
  }

  function GroupNames(g: nat, levels: seq<string>): (names: seq<string>)
    requires g < 4
    ensures |names| == |levels| && forall j | 0 <= j < |levels| :: names[j] == DummyName(g, levels[j])
  {
    seq(|levels|, j requires 0 <= j < |levels| => DummyName(g, levels[j]))
  }

  /** The feature columns: the leading numeric and length columns, then the dummy
      columns of type, source, rating and season. */
  function Layout(levels: seq<seq<string>>): seq<string>
    requires |levels| == 4
  {
    LeadingCols + GroupNames(0, levels[0]) + GroupNames(1, levels[1])
      + GroupNames(2, levels[2]) + GroupNames(3, levels[3])
  }

  // ---------------------------------------------------------------------------
  // Values

  /** A numeric cell after hygiene: a missing or non-numeric value becomes 0. */
  function Number(v: Option<Json.Value>): real
  {
    if v.None? then 0.0
    else match v.value
      case Int(i) => i as real
      case Float(r) => r
      case Bool(b) => if b then 1.0 else 0.0
      case _ => 0.0
  }

  /** `col.fillna("").str.len().clip(0, cap)`; a non-string cell has no length and
      hygiene turns it into 0. */
  function ClippedLength(v: Option<Json.Value>, cap: nat): (n: nat)
    ensures n <= cap
    ensures v.Some? && v.value.Str? ==> n == if |v.value.s| <= cap then |v.value.s| else cap
    ensures !(v.Some? && v.value.Str?) ==> n == 0
  {
    if v.Some? && v.value.Str? then (if |v.value.s| <= cap then |v.value.s| else cap) else 0
  }

  /** The leading feature values of a filled row. */
  function Leading(row: AnimeRow): map<string, real>
  {
    map["episodes" := Number(row.episodes), "members" := Number(row.members),
        "favorites" := Number(row.favorites),
        "year" := (if row.year.Some? then row.year.value as real else 0.0),
        "title_len" := ClippedLength(row.title, TitleCap) as real,
        "synopsis_len" := ClippedLength(row.synopsis, SynopsisCap) as real]
  }

  /** The dummy values of group g: 1 in the column of the row's own value, 0 elsewhere. */
  function Dummies(g: nat, levels: seq<string>, cat: string): (d: map<string, real>)
    requires g < 4
    ensures d.Keys == set j | 0 <= j < |levels| :: DummyName(g, levels[j])
  {
    if levels == [] then map[]
    else
      var last := levels[|levels| - 1];
      var rest := Dummies(g, levels[..|levels| - 1], cat);
      assert forall j | 0 <= j < |levels| - 1 :: levels[..|levels| - 1][j] == levels[j];
      rest[DummyName(g, last) := if last == cat then 1.0 else 0.0]
  }

  /** One output row of `simple_features`, given the levels of the whole table. */
  function Derive(row: AnimeRow, levels: seq<seq<string>>): FeatureRow
    requires |levels| == 4
  {
    FeatureRow(
      row.malId,
      Leading(row) + Dummies(0, levels[0], Category(row, 0)) + Dummies(1, levels[1], Category(row, 1))
        + Dummies(2, levels[2], Category(row, 2)) + Dummies(3, levels[3], Category(row, 3)),
      row.score,
      row.seasonKey)
  }

  function FilledRows(df: seq<AnimeRow>): (rows: seq<AnimeRow>)
    ensures |rows| == |df| && forall i | 0 <= i < |df| :: rows[i] == Filled(df[i])
  {
    seq(|df|, i requires 0 <= i < |df| => Filled(df[i]))
  }

  /** `simple_features(df)`: the feature table of the normalized rows. */
  function SimpleFeaturesOf(df: seq<AnimeRow>): FeatureTable
  {
    var rows := FilledRows(df);
    var levels := AllLevels(rows);
    FeatureTable(Layout(levels), seq(|rows|, i requires 0 <= i < |rows| => Derive(rows[i], levels)))
  }

  /** Builds the feature table and saves its column list, as `simple_features` does. */
  method SimpleFeatures(ws: Workspace, df: seq<AnimeRow>) returns (x: FeatureTable)
    modifies ws`featureColumns
    ensures x == SimpleFeaturesOf(df)
    ensures ws.featureColumns == Some(x.columns)
  {
    var rows := df;
    for k := 0 to |NumericDefaults|
      invariant |rows| == |df|
      invariant forall i | 0 <= i < |df| :: rows[i] == FillFirst(df[i], k)
    {
      var (col, val) := NumericDefaults[k];
      rows := seq(|rows|, i requires 0 <= i < |rows| => FillNa(rows[i], col, val));
    }
    assert rows == FilledRows(df);
    var levels := AllLevels(rows);
    x := FeatureTable(Layout(levels), seq(|rows|, i requires 0 <= i < |rows| => Derive(rows[i], levels)));
    ws.featureColumns := Some(x.columns);
  }

  /** `build()`: read anime.parquet (a missing table is an error), derive the
      features and write features.parquet. */
  method Build(ws: Workspace) returns (r: Result<FeatureTable, ()>)
    modifies ws`featureColumns, ws`features
    ensures old(ws.anime).None? ==> r.Err? && unchanged(ws)
    ensures old(ws.anime).Some? ==>
      && r == Ok(SimpleFeaturesOf(old(ws.anime).value))
      && ws.features == Some(r.value)
      && ws.featureColumns == Some(r.value.columns)
  {
    if ws.anime.None? {
      return Err(());
    }
    var x := SimpleFeatures(ws, ws.anime.value);
    ws.features := Some(x);
    r := Ok(x);
  }

  // ---------------------------------------------------------------------------
  // Properties

  /** No two feature columns share a name. */
  predicate Distinct(s: seq<string>)
  {
    forall i, j | 0 <= i < j < |s| :: s[i] != s[j]
  }

  /** The first two characters of every dummy name tell its group apart from the
      other groups and from the leading columns. */
  function Tag(g: nat): string
    requires g < 4
  {
    ["ty", "so", "ra", "se"][g]
  }

  lemma DummyNameTag(g: nat, v: string)
    requires g < 4
    ensures |DummyName(g, v)| >= 2 && DummyName(g, v)[..2] == Tag(g)
  {
    var p := CategoricalCols[g];
    assert DummyName(g, v) == p + ("_" + v);
    assert (p + ("_" + v))[..2] == p[..2];
  }

  lemma DummyNameInjective(g: nat, v: string, w: string)
    requires g < 4 && DummyName(g, v) == DummyName(g, w)
    ensures v == w
  {
    var n := |CategoricalCols[g]| + 1;
    assert DummyName(g, v)[n..] == v;
    assert DummyName(g, w)[n..] == w;
  }

  /** A dummy name of group g is neither a leading column nor a name of another group. */
  lemma DummyNameApart(g: nat, v: string)
    requires g < 4
    ensures DummyName(g, v) !in LeadingCols
    ensures forall h, w | 0 <= h < 4 && h != g :: DummyName(g, v) != DummyName(h, w)
  {
    DummyNameTag(g, v);
    forall h, w | 0 <= h < 4 && h != g ensures DummyName(g, v) != DummyName(h, w) {
      DummyNameTag(h, w);
    }
    assert "episodes"[..2] == "ep" && "members"[..2] == "me" && "favorites"[..2] == "fa";
    assert "year"[..2] == "ye" && "title_len"[..2] == "ti" && "synopsis_len"[..2] == "sy";
    assert forall c | c in LeadingCols :: c[..2] in ["ep", "me", "fa", "ye", "ti", "sy"];
  }

  lemma GroupNamesDistinct(g: nat, levels: seq<string>)
    requires g < 4 && Increasing(levels)
    ensures Distinct(GroupNames(g, levels))
  {
    var names := GroupNames(g, levels);
    forall i, j | 0 <= i < j < |names| ensures names[i] != names[j] {
      IncreasingDistinct(levels, i, j);
      if names[i] == names[j] { DummyNameInjective(g, levels[i], levels[j]); }
    }
  }

  lemma DistinctAppend(a: seq<string>, b: seq<string>)
    requires Distinct(a) && Distinct(b)
    requires forall x | x in a :: x !in b
    ensures Distinct(a + b)
  {
    var s := a + b;
    forall i, j | 0 <= i < j < |s| ensures s[i] != s[j] {
      if i < |a| && j >= |a| {
        assert s[i] in a && s[j] == b[j - |a|];
      } else if i >= |a| {
        assert s[i] == b[i - |a|] && s[j] == b[j - |a|];
      }
    }
  }

  /** The feature columns are distinct: leading columns, then one column per level
      of each group. */
  lemma LayoutDistinct(levels: seq<seq<string>>)
    requires |levels| == 4 && forall g | 0 <= g < 4 :: Increasing(levels[g])
    ensures Distinct(Layout(levels))
  {
    var n0, n1, n2, n3 := GroupNames(0, levels[0]), GroupNames(1, levels[1]), GroupNames(2, levels[2]), GroupNames(3, levels[3]);
    GroupNamesDistinct(0, levels[0]);
    GroupNamesDistinct(1, levels[1]);
    GroupNamesDistinct(2, levels[2]);
    GroupNamesDistinct(3, levels[3]);
    forall g, x | 0 <= g < 4 && x in GroupNames(g, levels[g])
      ensures x !in LeadingCols && forall h | 0 <= h < 4 && h != g :: x !in GroupNames(h, levels[h])
    {
      var j :| 0 <= j < |levels[g]| && GroupNames(g, levels[g])[j] == x;
      DummyNameApart(g, levels[g][j]);
    }
    assert Distinct(LeadingCols);
    DistinctAppend(LeadingCols, n0);
    DistinctAppend(LeadingCols + n0, n1);
    DistinctAppend(LeadingCols + n0 + n1, n2);
    DistinctAppend(LeadingCols + n0 + n1 + n2, n3);
  }

  /** The numeric defaults leave the categorical columns alone. */
  lemma FilledCategory(row: AnimeRow, g: nat)
    requires g < 4
    ensures Category(Filled(row), g) == Category(row, g)
  {
    FilledFacts(row);
  }

  /** Every group's levels are sorted without repeats and are exactly the values
      the input rows hold in that column (missing as "unknown"); the defaults
      loop does not touch the categorical columns. */
  lemma {:induction false} LevelsFacts(df: seq<AnimeRow>, g: nat)
    requires g < 4
    ensures var lv := AllLevels(FilledRows(df))[g];
      && Increasing(lv)
      && forall v :: v in lv <==> exists i | 0 <= i < |df| :: Category(df[i], g) == v
  {
    var rows := FilledRows(df);
    var col := Column(rows, g);
    var lv := AllLevels(rows)[g];
    assert lv == Levels(col);
    forall v ensures v in lv <==> exists i | 0 <= i < |df| :: Category(df[i], g) == v {
      if v in col {
        var i :| 0 <= i < |col| && col[i] == v;
        assert col[i] == Category(Filled(df[i]), g);
        FilledCategory(df[i], g);
      }
      if exists i | 0 <= i < |df| :: Category(df[i], g) == v {
        var i :| 0 <= i < |df| && Category(df[i], g) == v;
        assert col[i] == Category(Filled(df[i]), g);
        FilledCategory(df[i], g);
      }
    }
  }

  /** The layout holds the leading columns first, a dummy column for every level,
      and nothing else. */
  lemma LayoutMembers(levels: seq<seq<string>>)
    requires |levels| == 4
    ensures var cols := Layout(levels);
      && cols[..6] == LeadingCols
      && (forall g, v | 0 <= g < 4 && v in levels[g] :: DummyName(g, v) in cols)
      && (forall c | c in cols :: c in LeadingCols || exists g, v | 0 <= g < 4 && v in levels[g] :: c == DummyName(g, v))
  {
    var cols := Layout(levels);
    forall g, v | 0 <= g < 4 && v in levels[g] ensures DummyName(g, v) in cols {
      var j :| 0 <= j < |levels[g]| && levels[g][j] == v;
      assert GroupNames(g, levels[g])[j] == DummyName(g, v);
      assert DummyName(g, v) in GroupNames(g, levels[g]);
    }
    forall c | c in cols ensures c in LeadingCols || exists g, v | 0 <= g < 4 && v in levels[g] :: c == DummyName(g, v) {
      if c !in LeadingCols {
        var g :| 0 <= g < 4 && c in GroupNames(g, levels[g]);
        var j :| 0 <= j < |levels[g]| && GroupNames(g, levels[g])[j] == c;
        assert levels[g][j] in levels[g];
      }
    }
  }

  /** The columns saved to feature_columns.json: the six leading columns in order,
      then a `{prefix}_{value}` column for every level of type, source, rating and
      season and nothing else; no name repeats, and neither mal_id nor
      label_score is among them. With LevelsFacts, the levels of a group are the
      distinct values of that column (missing as "unknown") in sorted order. */
  lemma ColumnsFacts(df: seq<AnimeRow>)
    ensures var cols := SimpleFeaturesOf(df).columns;
      var levels := AllLevels(FilledRows(df));
      && cols[..6] == LeadingCols
      && (forall g, v | 0 <= g < 4 && v in levels[g] :: DummyName(g, v) in cols)
      && (forall c | c in cols :: c in LeadingCols || exists g, v | 0 <= g < 4 && v in levels[g] :: c == DummyName(g, v))
      && Distinct(cols)
      && "mal_id" !in cols && "label_score" !in cols
  {
    var levels := AllLevels(FilledRows(df));
    assert SimpleFeaturesOf(df).columns == Layout(levels);
    forall g | 0 <= g < 4 ensures Increasing(levels[g]) {
      LevelsFacts(df, g);
    }
    LayoutMembers(levels);
    LayoutDistinct(levels);
    LayoutExcludes(levels);
  }

  /** Neither the id nor the label column is a feature column. */
  lemma LayoutExcludes(levels: seq<seq<string>>)
    requires |levels| == 4
    ensures "mal_id" !in Layout(levels) && "label_score" !in Layout(levels)
  {
    LayoutMembers(levels);
    assert "mal_id"[..2] == "ma" && "label_score"[..2] == "la";
    forall g, v | 0 <= g < 4 ensures DummyName(g, v) != "mal_id" && DummyName(g, v) != "label_score" {
      DummyNameTag(g, v);
    }
  }

  /** A dummy value of group g reads through the merged value map of a row. */
  lemma DummyLookup(row: AnimeRow, levels: seq<seq<string>>, g: nat, j: nat)
    requires |levels| == 4 && g < 4 && j < |levels[g]| && Increasing(levels[g])
    ensures var name := DummyName(g, levels[g][j]);
      && name in Derive(row, levels).values
      && Derive(row, levels).values[name] == if levels[g][j] == Category(row, g) then 1.0 else 0.0
  {
    var name := DummyName(g, levels[g][j]);
    DummyNameApart(g, levels[g][j]);
    DummyValue(g, levels[g], Category(row, g), j);
    forall h | 0 <= h < 4 && h != g ensures name !in Dummies(h, levels[h], Category(row, h)).Keys {
    }
    assert name !in Leading(row).Keys;
  }

  lemma {:induction false} DummyValue(g: nat, levels: seq<string>, cat: string, j: nat)
    requires g < 4 && j < |levels| && Increasing(levels)
    ensures Dummies(g, levels, cat)[DummyName(g, levels[j])] == if levels[j] == cat then 1.0 else 0.0
  {
    var init := levels[..|levels| - 1];
    if j < |levels| - 1 {
      assert Increasing(init) && init[j] == levels[j];
      DummyValue(g, init, cat, j);
      IncreasingDistinct(levels, j, |levels| - 1);
      if DummyName(g, levels[j]) == DummyName(g, levels[|levels| - 1]) {
        DummyNameInjective(g, levels[j], levels[|levels| - 1]);
      }
    }
  }

  lemma LeadingKeys(row: AnimeRow)
    ensures Leading(row).Keys == set c | c in LeadingCols
  {
  }

  /** The value map of a derived row, piece by piece. */
  lemma DeriveKeys(row: AnimeRow, levels: seq<seq<string>>)
    requires |levels| == 4
    ensures Derive(row, levels).values.Keys == (set c | c in LeadingCols)
      + Dummies(0, levels[0], Category(row, 0)).Keys + Dummies(1, levels[1], Category(row, 1)).Keys
      + Dummies(2, levels[2], Category(row, 2)).Keys + Dummies(3, levels[3], Category(row, 3)).Keys
  {
    LeadingKeys(row);
  }

  lemma GroupKeys(row: AnimeRow, levels: seq<seq<string>>, g: nat)
    requires |levels| == 4 && g < 4
    ensures Dummies(g, levels[g], Category(row, g)).Keys == set c | c in GroupNames(g, levels[g])
  {
    var names := GroupNames(g, levels[g]);
    forall c ensures c in Dummies(g, levels[g], Category(row, g)).Keys <==> c in names {
      if c in names {
        var j :| 0 <= j < |names| && names[j] == c;
      }
    }
  }

  lemma LayoutSet(levels: seq<seq<string>>)
    requires |levels| == 4
    ensures (set c | c in Layout(levels)) == (set c | c in LeadingCols)
      + (set c | c in GroupNames(0, levels[0])) + (set c | c in GroupNames(1, levels[1]))
      + (set c | c in GroupNames(2, levels[2])) + (set c | c in GroupNames(3, levels[3]))
  {
  }

  /** A derived row has a value for exactly the layout's columns. */
  lemma RowKeys(row: AnimeRow, levels: seq<seq<string>>)
    requires |levels| == 4
    ensures Derive(row, levels).values.Keys == set c | c in Layout(levels)
  {
    DeriveKeys(row, levels);
    GroupKeys(row, levels, 0);
    GroupKeys(row, levels, 1);
    GroupKeys(row, levels, 2);
    GroupKeys(row, levels, 3);
    LayoutSet(levels);
  }

  /** The leading columns of a derived row hold the row's own leading values. */
  lemma RowLeading(row: AnimeRow, levels: seq<seq<string>>)
    requires |levels| == 4
    ensures forall c | c in LeadingCols :: c in Derive(row, levels).values && Derive(row, levels).values[c] == Leading(row)[c]
  {
    LeadingKeys(row);
    forall c | c in LeadingCols ensures c in Derive(row, levels).values && Derive(row, levels).values[c] == Leading(row)[c] {
      DummyNameApartAll(c, levels, row);
    }
  }

  /** A leading column is in no group's dummy map. */
  lemma DummyNameApartAll(c: string, levels: seq<seq<string>>, row: AnimeRow)
    requires c in LeadingCols && |levels| == 4
    ensures forall g | 0 <= g < 4 :: c !in Dummies(g, levels[g], Category(row, g)).Keys
  {
    forall g, j | 0 <= g < 4 && 0 <= j < |levels[g]| ensures DummyName(g, levels[g][j]) != c {
      DummyNameApart(g, levels[g][j]);
    }
  }

  /** One-hot: in group g, a 1 in the column of the row's own value and 0 in every other. */
  lemma RowOneHot(row: AnimeRow, levels: seq<seq<string>>, g: nat)
    requires |levels| == 4 && g < 4 && Increasing(levels[g]) && Category(row, g) in levels[g]
    ensures exists j | 0 <= j < |levels[g]| && levels[g][j] == Category(row, g) ::
      forall k | 0 <= k < |levels[g]| :: DummyName(g, levels[g][k]) in Derive(row, levels).values
        && Derive(row, levels).values[DummyName(g, levels[g][k])] == if k == j then 1.0 else 0.0
  {
    var lv := levels[g];
    var j :| 0 <= j < |lv| && lv[j] == Category(row, g);
    forall k | 0 <= k < |lv|
      ensures DummyName(g, lv[k]) in Derive(row, levels).values
      ensures Derive(row, levels).values[DummyName(g, lv[k])] == if k == j then 1.0 else 0.0
    {
      DummyLookup(row, levels, g, k);
      if k != j { IncreasingDistinct(lv, k, j); }
    }
  }

  /** One output row per input row: the id first as given, label_score the row's
      score (missing stays missing), season_key passed through, and a value for
      exactly the feature columns. */
  lemma RowShape(df: seq<AnimeRow>, i: nat)
    requires i < |df|
    ensures var x := SimpleFeaturesOf(df);
      && |x.rows| == |df|
      && x.rows[i].malId == df[i].malId && x.rows[i].labelScore == df[i].score && x.rows[i].seasonKey == df[i].seasonKey
      && x.rows[i].values.Keys == set c | c in x.columns
  {
    var levels := AllLevels(FilledRows(df));
    var f := FilledRows(df)[i];
    FilledFacts(df[i]);
    assert SimpleFeaturesOf(df).rows[i] == Derive(f, levels);
    RowKeys(f, levels);
  }

  /** The leading values of an output row: missing episodes, members, favorites and
      year as 0, title and synopsis lengths clipped at 200 and 2000. */
  lemma RowNumbers(df: seq<AnimeRow>, i: nat)
    requires i < |df|
    ensures var values := SimpleFeaturesOf(df).rows[i].values;
      var row := df[i];
      && (forall c | c in LeadingCols :: c in values)
      && ("episodes" in values && values["episodes"] == (if row.episodes.None? then 0.0 else Number(row.episodes)))
      && ("members" in values && values["members"] == (if row.members.None? then 0.0 else Number(row.members)))
      && ("favorites" in values && values["favorites"] == (if row.favorites.None? then 0.0 else Number(row.favorites)))
      && ("year" in values && values["year"] == (if row.year.None? then 0.0 else row.year.value as real))
      && ("title_len" in values && values["title_len"] == ClippedLength(row.title, TitleCap) as real)
      && ("synopsis_len" in values && values["synopsis_len"] == ClippedLength(row.synopsis, SynopsisCap) as real)
  {
    var levels := AllLevels(FilledRows(df));
    var f := FilledRows(df)[i];
    assert SimpleFeaturesOf(df).rows[i].values == Derive(f, levels).values;
    DeriveLeading(f, levels);
    FilledFacts(df[i]);
  }

  /** The leading values of a derived row, read from the filled row. */
  lemma DeriveLeading(f: AnimeRow, levels: seq<seq<string>>)
    requires |levels| == 4
    ensures var values := Derive(f, levels).values;
      && (forall c | c in LeadingCols :: c in values)
      && ("episodes" in values && values["episodes"] == Number(f.episodes))
      && ("members" in values && values["members"] == Number(f.members))
      && ("favorites" in values && values["favorites"] == Number(f.favorites))
      && ("year" in values && values["year"] == (if f.year.None? then 0.0 else f.year.value as real))
      && ("title_len" in values && values["title_len"] == ClippedLength(f.title, TitleCap) as real)
      && ("synopsis_len" in values && values["synopsis_len"] == ClippedLength(f.synopsis, SynopsisCap) as real)
  {
    RowLeading(f, levels);
    LeadingValues(f);
    assert "episodes" in LeadingCols && "members" in LeadingCols && "favorites" in LeadingCols;
    assert "year" in LeadingCols && "title_len" in LeadingCols && "synopsis_len" in LeadingCols;
  }

  /** The six leading values of a row, by column name. */
  lemma LeadingValues(f: AnimeRow)
    ensures var m := Leading(f);
      && ("episodes" in m && m["episodes"] == Number(f.episodes))
      && ("members" in m && m["members"] == Number(f.members))
      && ("favorites" in m && m["favorites"] == Number(f.favorites))
      && ("year" in m && m["year"] == (if f.year.None? then 0.0 else f.year.value as real))
      && ("title_len" in m && m["title_len"] == ClippedLength(f.title, TitleCap) as real)
      && ("synopsis_len" in m && m["synopsis_len"] == ClippedLength(f.synopsis, SynopsisCap) as real)
  {
  }

  /** One-hot encoding of an output row: in each of the four groups a 1 in exactly
      the column of the row's own value (missing as "unknown") and 0 in every other. */
  lemma RowDummies(df: seq<AnimeRow>, i: nat, g: nat)
    requires i < |df| && g < 4
    ensures var values := SimpleFeaturesOf(df).rows[i].values;
      var lv := AllLevels(FilledRows(df))[g];
      exists j | 0 <= j < |lv| && lv[j] == Category(df[i], g) ::
        forall k | 0 <= k < |lv| :: DummyName(g, lv[k]) in values && values[DummyName(g, lv[k])] == if k == j then 1.0 else 0.0
  {
    var levels := AllLevels(FilledRows(df));
    var f := FilledRows(df)[i];
    FilledCategory(df[i], g);
    assert Increasing(levels[g]) && Category(f, g) in levels[g] by {
      LevelsFacts(df, g);
      assert 0 <= i < |df| && Category(df[i], g) == Category(df[i], g);
    }
    RowOneHot(f, levels, g);
    assert SimpleFeaturesOf(df).rows[i].values == Derive(f, levels).values;
  }
}
