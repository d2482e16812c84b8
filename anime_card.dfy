/** The card of one prediction (anime-frontend/src/components/AnimeCard.jsx):
    the score badge band, the cover URL it shows, and eager or lazy image loading. */
module AnimeCard {
  import opened Wrappers
  import Json
  import Js

  /** The six badge colour bands, best first. */
  datatype Badge = Green | Emerald | Lime | Amber | Orange | Red

  /** A band's position from the bottom: Red is 0, Green is 5. */
  function Rank(b: Badge): nat
  {
    match b
    case Red => 0
    case Orange => 1
    case Amber => 2
    case Lime => 3
    case Emerald => 4
    case Green => 5
  }

  /** The lowest score of each band; Red has none. */
  function Threshold(b: Badge): real
    requires b != Red
  {
    match b
    case Green => 8.5
    case Emerald => 8.0
    case Lime => 7.5
    case Amber => 7.0
    case Orange => 6.5
  }

  /** `scoreToBadge(score)`: the first band whose threshold the score meets. */
  function ScoreToBadge(score: real): (b: Badge)
    ensures b != Red ==> score >= Threshold(b)
    ensures b == Red <==> score < 6.5
    ensures forall c: Badge | c != Red && score >= Threshold(c) :: Rank(c) <= Rank(b)
  {
    if score >= 8.5 then Green
    else if score >= 8.0 then Emerald
    else if score >= 7.5 then Lime
    else if score >= 7.0 then Amber
    else if score >= 6.5 then Orange
    else Red
  }

  /** A higher score never gets a lower band. */
  lemma BadgeMonotone(s: real, t: real)
    requires s <= t
    ensures Rank(ScoreToBadge(s)) <= Rank(ScoreToBadge(t))
  {
    var b := ScoreToBadge(s);
    if b != Red {
      assert t >= Threshold(b);
    }
  }

  /** The card's badge: a missing pred_score counts as 0 and lands in the lowest band. */
  function CardBadge(item: Js.Item): (b: Badge)
    ensures item.predScore.None? ==> b == Red
    ensures item.predScore.Some? ==> b == ScoreToBadge(item.predScore.value)
  {
    ScoreToBadge(Js.ScoreOrZero(item))
  }

  /** `pickCover(u)`: with a truthy `images` object, the first truthy of the small
      webp, small jpg, webp and jpg image URLs, else null; without one, u itself
      when truthy (already a URL), else null. */
  function PickCover(u: Option<Json.Value>): (r: Option<Json.Value>)
    ensures r.Some? ==> Js.Truthy(r)
    ensures !Js.Truthy(Js.Member(u, "images")) ==> r == if Js.Truthy(u) then u else None
  {
    if Js.Truthy(Js.Member(u, "images")) then
      Js.FirstTruthy([
        Js.Path(u, ["images", "webp", "small_image_url"]),
        Js.Path(u, ["images", "jpg", "small_image_url"]),
        Js.Path(u, ["images", "webp", "image_url"]),
        Js.Path(u, ["images", "jpg", "image_url"])])
    else if Js.Truthy(u) then u
    else None
  }

  /** With an images object, a small image is preferred over a full-size one, and
      webp over jpg within the same size; the cover is always one of the four. */
  lemma PickCoverPrefersSmall(u: Option<Json.Value>)
    requires Js.Truthy(Js.Member(u, "images"))
    ensures Js.Truthy(Js.Path(u, ["images", "webp", "small_image_url"])) ==>
      PickCover(u) == Js.Path(u, ["images", "webp", "small_image_url"])
    ensures (!Js.Truthy(Js.Path(u, ["images", "webp", "small_image_url"]))
             && Js.Truthy(Js.Path(u, ["images", "jpg", "small_image_url"]))) ==>
      PickCover(u) == Js.Path(u, ["images", "jpg", "small_image_url"])
    ensures (!Js.Truthy(Js.Path(u, ["images", "webp", "small_image_url"]))
             && !Js.Truthy(Js.Path(u, ["images", "jpg", "small_image_url"]))
             && Js.Truthy(Js.Path(u, ["images", "webp", "image_url"]))) ==>
      PickCover(u) == Js.Path(u, ["images", "webp", "image_url"])
    ensures PickCover(u).None? <==>
      (&& !Js.Truthy(Js.Path(u, ["images", "webp", "small_image_url"]))
       && !Js.Truthy(Js.Path(u, ["images", "jpg", "small_image_url"]))
       && !Js.Truthy(Js.Path(u, ["images", "webp", "image_url"]))
       && !Js.Truthy(Js.Path(u, ["images", "jpg", "image_url"])))
    ensures PickCover(u).Some? ==>
      PickCover(u) in {Js.Path(u, ["images", "webp", "small_image_url"]), Js.Path(u, ["images", "jpg", "small_image_url"]),
                       Js.Path(u, ["images", "webp", "image_url"]), Js.Path(u, ["images", "jpg", "image_url"])}
    ensures PickCover(u) == Js.FirstTruthy([
        Js.Path(u, ["images", "webp", "small_image_url"]),
        Js.Path(u, ["images", "jpg", "small_image_url"]),
        Js.Path(u, ["images", "webp", "image_url"]),
        Js.Path(u, ["images", "jpg", "image_url"])])
  {
    var alts := [
        Js.Path(u, ["images", "webp", "small_image_url"]),
        Js.Path(u, ["images", "jpg", "small_image_url"]),
        Js.Path(u, ["images", "webp", "image_url"]),
        Js.Path(u, ["images", "jpg", "image_url"])];
    assert PickCover(u) == Js.FirstTruthy(alts);
    if PickCover(u).None? {
      assert forall k | 0 <= k < |alts| :: !Js.Truthy(alts[k]);
      assert !Js.Truthy(alts[0]) && !Js.Truthy(alts[1]) && !Js.Truthy(alts[2]) && !Js.Truthy(alts[3]);
    }
    if !Js.Truthy(alts[0]) && !Js.Truthy(alts[1]) && Js.Truthy(alts[2]) {
      var r := Js.FirstTruthy(alts);
      assert r.Some?;
      var i :| 0 <= i < |alts| && alts[i] == r && forall k | 0 <= k < i :: !Js.Truthy(alts[k]);
      assert i == 2;
    }
  }

  datatype Loading = Eager | Lazy

  /** The first eight cards load their cover eagerly, the rest lazily. */
  function LoadingFor(index: int): (l: Loading)
    ensures l == Eager <==> index < 8
  {
    if index < 8 then Eager else Lazy
  }
}
