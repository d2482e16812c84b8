/** JSON documents as the catalog API returns them and as Python's json module
    parses them, with the few built-in coercions the pipeline applies to them. */
module Json {
  import opened Wrappers
  import Text

  /** A parsed JSON value: Python int and float are kept apart, as json.loads does. */
  datatype Value =
    | Null
    | Bool(b: bool)
    | Int(i: int)
    | Float(r: real)
    | Str(s: string)
    | Arr(items: seq<Value>)
    | Obj(fields: map<string, Value>)

  /** Python's `d.get(key)`: None both when the key is absent and when it holds null. */
  function Get(fields: map<string, Value>, key: string): (r: Option<Value>)
    ensures r.None? <==> key !in fields || fields[key] == Null
    ensures r.Some? ==> r.value == fields[key] && r.value != Null
  {
    if key in fields && fields[key] != Null then Some(fields[key]) else None
  }

  /** Python's `d.get(key, default)`: the default is used only when the key is absent. */
  function GetOrElse(fields: map<string, Value>, key: string, default: Option<Value>): (r: Option<Value>)
    ensures key in fields ==> r == Get(fields, key)
    ensures key !in fields ==> r == default
  {
    if key in fields then Get(fields, key) else default
  }

  /** Python truthiness of a JSON value (`x or {}`). */
  predicate Truthy(v: Value) {
    match v
    case Null => false
    case Bool(b) => b
    case Int(i) => i != 0
    case Float(r) => r != 0.0
    case Str(s) => s != ""
    case Arr(items) => items != []
    case Obj(fields) => fields != map[]
  }

  /** Python's truncation of a float toward zero, as `int(7.9) == 7`, `int(-7.9) == -7`. */
  function TruncateToward0(r: real): (n: int)
    ensures r >= 0.0 ==> n as real <= r < n as real + 1.0
    ensures r < 0.0 ==> n as real - 1.0 < r <= n as real
  {
    if r >= 0.0 then r.Floor else -((-r).Floor)
  }

  /** Python's `int(v)` on a JSON value; None where `int` raises. */
  function PyInt(v: Value): (r: Option<int>)
    ensures v.Int? ==> r == Some(v.i)
    ensures v.Float? ==> r == Some(TruncateToward0(v.r))
    ensures v.Bool? ==> r == Some(if v.b then 1 else 0)
    ensures v.Null? || v.Arr? || v.Obj? ==> r.None?
    ensures v.Str? ==> r == Text.ParseInt(v.s)
  {
    match v
    case Int(i) => Some(i)
    case Float(x) => Some(TruncateToward0(x))
    case Bool(b) => Some(if b then 1 else 0)
    case Str(s) => Text.ParseInt(s)
    case _ => None
  }

  /** Python's `float(v)` on a JSON value; None where `float` raises. */
  function PyFloat(v: Value): (r: Option<real>)
    ensures v.Int? ==> r == Some(v.i as real)
    ensures v.Float? ==> r == Some(v.r)
    ensures v.Bool? ==> r == Some(if v.b then 1.0 else 0.0)
    ensures v.Null? || v.Arr? || v.Obj? ==> r.None?
    ensures v.Str? ==> r == Text.ParseFloat(v.s)
  {
    match v
    case Int(i) => Some(i as real)
    case Float(x) => Some(x)
    case Bool(b) => Some(if b then 1.0 else 0.0)
    case Str(s) => Text.ParseFloat(s)
    case _ => None
  }
}
