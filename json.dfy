/**
  The JSON-like values the configuration and VMAF-log readers inspect: what
  `json.loads` (or a YAML loader) hands back, with `isinstance` tests and
  `dict.get` lookups.
*/
module Json {
  import opened Common

  /**
    A decoded document. An object is a dictionary from keys to values; the
    readers only look keys up, so the order of the keys is not kept.
  */
  datatype Value =
    | Null
    | Bool(b: bool)
    | Int(i: int)
    | Float(r: real)
    | Str(s: string)
    | Array(items: seq<Value>)
    | Object(fields: map<string, Value>)

  /** `d.get(key, default)`: the stored value, or `default` when the key is absent. */
  function GetOr(fields: map<string, Value>, key: string, default: Value): (v: Value)
    ensures key in fields ==> v == fields[key]
    ensures key !in fields ==> v == default
  {
    if key in fields then fields[key] else default
  }

  /** `d.get(key)`: a missing key reads as `None`, like a stored `null`. */
  function Get(fields: map<string, Value>, key: string): Value
  {
    GetOr(fields, key, Null)
  }

  /**
    `isinstance(v, int)`. Python's `bool` is a subclass of `int`, so `True`
    and `False` pass as 1 and 0.
  */
  function AsInt(v: Value): (r: Option<int>)
    ensures r.Some? <==> v.Int? || v.Bool?
    ensures v.Int? ==> r == Some(v.i)
    ensures v.Bool? ==> r == Some(if v.b then 1 else 0)
  {
    match v
    case Int(i) => Some(i)
    case Bool(b) => Some(if b then 1 else 0)
    case _ => None
  }

  /** `float(v)` when `isinstance(v, (int, float))`, and nothing otherwise. */
  function AsNumber(v: Value): (r: Option<real>)
    ensures r.Some? <==> v.Int? || v.Bool? || v.Float?
    ensures v.Float? ==> r == Some(v.r)
    ensures AsInt(v).Some? ==> r == Some(AsInt(v).value as real)
  {
    match v
    case Float(x) => Some(x)
    case Int(i) => Some(i as real)
    case Bool(b) => Some(if b then 1.0 else 0.0)
    case _ => None
  }
}
