/** The JavaScript reading of JSON values the frontend relies on: truthiness,
    optional chaining and `||` chains, plus the prediction item it displays. */
module Js {
  import opened Wrappers
  import Json
  import Text

  /** JavaScript truthiness of a value; an absent property (undefined) is None.
      Unlike Python, an empty array or object is truthy. */
  predicate Truthy(v: Option<Json.Value>)
  {
    v.Some? &&
    match v.value
    case Null => false
    case Bool(b) => b
    case Int(i) => i != 0
    case Float(r) => r != 0.0
    case Str(s) => s != ""
    case Arr(_) => true
    case Obj(_) => true
  }

  /** `v?.key`: the property when v is an object that has it, undefined otherwise. */
  function Member(v: Option<Json.Value>, key: string): (r: Option<Json.Value>)
    ensures r.Some? <==> v.Some? && v.value.Obj? && key in v.value.fields
  {
    if v.Some? && v.value.Obj? && key in v.value.fields then Some(v.value.fields[key]) else None
  }

  /** `v?.k1?.k2?....`: a chain of optional property reads. */
  function Path(v: Option<Json.Value>, keys: seq<string>): Option<Json.Value>
    decreases |keys|
  {
    if keys == [] then v else Path(Member(v, keys[0]), keys[1..])
  }

  /** `a || b || ... || null`: the first truthy alternative, or null (None). */
  function FirstTruthy(alts: seq<Option<Json.Value>>): (r: Option<Json.Value>)
    ensures r.Some? ==> Truthy(r) && exists i | 0 <= i < |alts| :: alts[i] == r && forall k | 0 <= k < i :: !Truthy(alts[k])
    ensures r.None? <==> forall k | 0 <= k < |alts| :: !Truthy(alts[k])
  {
    if alts == [] then None
    else if Truthy(alts[0]) then alts[0]
    else
      var r := FirstTruthy(alts[1..]);
      assert forall k | 1 <= k < |alts| :: alts[k] == alts[1..][k - 1];
      if r.None? then r
      else
        var i :| 0 <= i < |alts[1..]| && alts[1..][i] == r && forall k | 0 <= k < i :: !Truthy(alts[1..][k]);
        assert alts[i + 1] == r;
        r
  }

  /** One prediction as the frontend holds it: the row of the predictions
      endpoint, with image_url possibly added by cover hydration. An absent or
      null id, title, year, season or score is None; image_url keeps the JSON
      value (None when absent, Some(Null) when null). */
  datatype Item = Item(
    malId: Option<int>,
    title: Option<string>,
    year: Option<int>,
    season: Option<string>,
    predScore: Option<real>,
    imageUrl: Option<Json.Value>)

  /** `String(item.mal_id)`, and the id inside a template literal. */
  function IdText(malId: Option<int>): string
  {
    if malId.Some? then Text.IntToString(malId.value) else "null"
  }

  /** `item.pred_score ?? 0`. */
  function ScoreOrZero(item: Item): real
  {
    item.predScore.GetOr(0.0)
  }
}
