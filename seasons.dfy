/** The "next season" rule shared by src/utils/status.py and src/models/predict.py:
    sort the present (year, season) buckets by year then season index, take the
    last, and step one season forward, fall rolling over to winter of the next
    year. A season name outside the four maps to NaN, which sorts after every
    known season of its year and makes `int(NaN)` raise when it ends up last. */
module Seasons {
  import opened Wrappers

  /** SEASON_ORDER. */
  const Order: seq<string> := ["winter", "spring", "summer", "fall"]

  /** The season's position in SEASON_ORDER, None for any other name. */
  function IndexOf(s: string): (r: Option<nat>)
    ensures r.Some? ==> r.value < 4 && Order[r.value] == s
    ensures r.None? <==> s !in Order
  {
    if s == "winter" then Some(0)
    else if s == "spring" then Some(1)
    else if s == "summer" then Some(2)
    else if s == "fall" then Some(3)
    else None
  }

  /** (year, season index) pairs compared as sort_values(["year", "s_idx"]) orders them. */
  predicate Before(a: (int, nat), b: (int, nat))
  {
    a.0 < b.0 || (a.0 == b.0 && a.1 < b.1)
  }

  /** The season after (year, index): the next index of the same year, or winter
      of the next year after fall. */
  function Successor(year: int, idx: nat): (r: (int, nat))
    requires idx < 4
    ensures r.1 < 4
    ensures Before((year, idx), r)
    ensures forall p: (int, nat) | p.1 < 4 && Before((year, idx), p) :: p == r || Before(r, p)
  {
    if idx + 1 >= 4 then (year + 1, (idx + 1) % 4) else (year, idx + 1)
  }

  datatype SeasonError =
    | NoSeasons      // iloc[-1] on an empty frame
    | UnknownSeason  // int(NaN) when the latest bucket's season is not one of the four

  /** The largest year present. */
  function MaxYear(buckets: seq<(int, string)>): (m: int)
    requires buckets != []
    ensures forall i | 0 <= i < |buckets| :: buckets[i].0 <= m
    ensures exists i | 0 <= i < |buckets| :: buckets[i].0 == m
  {
    if |buckets| == 1 then buckets[0].0
    else
      var rest := MaxYear(buckets[1..]);
      assert forall i | 1 <= i < |buckets| :: buckets[i] == buckets[1..][i - 1];
      if buckets[0].0 >= rest then buckets[0].0 else rest
  }

  /** Every bucket of that year names a known season. */
  predicate KnownAt(buckets: seq<(int, string)>, year: int)
  {
    forall i | 0 <= i < |buckets| && buckets[i].0 == year :: IndexOf(buckets[i].1).Some?
  }

  /** The largest season index among the buckets of `year`, all of them known. */
  function MaxIndexAt(buckets: seq<(int, string)>, year: int): (m: nat)
    requires KnownAt(buckets, year)
    requires exists i | 0 <= i < |buckets| :: buckets[i].0 == year
    ensures m < 4
    ensures forall i | 0 <= i < |buckets| && buckets[i].0 == year :: IndexOf(buckets[i].1).value <= m
    ensures exists i | 0 <= i < |buckets| && buckets[i].0 == year :: IndexOf(buckets[i].1).value == m
  {
    var tail := buckets[1..];
    assert forall i | 1 <= i < |buckets| :: buckets[i] == tail[i - 1];
    if buckets[0].0 != year then
      MaxIndexAt(tail, year)
    else if !exists i | 0 <= i < |tail| :: tail[i].0 == year then
      IndexOf(buckets[0].1).value
    else
      var rest := MaxIndexAt(tail, year);
      var here := IndexOf(buckets[0].1).value;
      if here >= rest then here else rest
  }

  /** The season after the latest present bucket, or the error the code raises. */
  function Next(buckets: seq<(int, string)>): (r: Result<(int, string), SeasonError>)
    ensures r == Err(NoSeasons) <==> buckets == []
    ensures r == Err(UnknownSeason) <==> buckets != [] && !KnownAt(buckets, MaxYear(buckets))
    ensures r.Ok? ==> r.value.1 in Order
  {
    if buckets == [] then Err(NoSeasons)
    else
      var y := MaxYear(buckets);
      if !KnownAt(buckets, y) then Err(UnknownSeason)
      else
        var next := Successor(y, MaxIndexAt(buckets, y));
        Ok((next.0, Order[next.1]))
  }

  /** The (year, index) pair of a bucket with a known season. */
  function Position(b: (int, string)): (int, nat)
    requires IndexOf(b.1).Some?
  {
    (b.0, IndexOf(b.1).value)
  }

  /** The result is the successor of one of the present buckets and strictly later
      than every present bucket with a known season; by Successor's own contract
      no season lies between the latest bucket and the result. */
  lemma NextIsSuccessorOfLatest(buckets: seq<(int, string)>)
    requires Next(buckets).Ok?
    ensures var (y, s) := Next(buckets).value;
      && IndexOf(s).Some?
      && (exists i | 0 <= i < |buckets| && IndexOf(buckets[i].1).Some? ::
            Successor(buckets[i].0, IndexOf(buckets[i].1).value) == (y, IndexOf(s).value))
      && (forall i | 0 <= i < |buckets| && IndexOf(buckets[i].1).Some? ::
            Before(Position(buckets[i]), (y, IndexOf(s).value)))
  {
    var my := MaxYear(buckets);
    var mi := MaxIndexAt(buckets, my);
    var next := Successor(my, mi);
    assert IndexOf(Order[next.1]) == Some(next.1);
    forall i | 0 <= i < |buckets| && IndexOf(buckets[i].1).Some?
      ensures Before(Position(buckets[i]), next)
    {
      assert Before(Position(buckets[i]), (my, mi)) || Position(buckets[i]) == (my, mi);
    }
  }
}
