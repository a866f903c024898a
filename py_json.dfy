/** The values a decoded JSON reply holds, as Python sees them: `None`,
    booleans, integers, strings, lists and dicts, with Python's truthiness,
    `dict.get` and `len`. */
module PyJson {

  datatype Json =
    | JNull
    | JBool(b: bool)
    | JInt(i: int)
    | JStr(s: string)
    | JList(items: seq<Json>)
    | JObject(fields: map<string, Json>)

  /** `bool(v)`: false for `None`, `False`, `0` and empty strings, lists and dicts. */
  predicate Truthy(v: Json) {
    match v
    case JNull => false
    case JBool(b) => b
    case JInt(i) => i != 0
    case JStr(s) => s != []
    case JList(items) => items != []
    case JObject(fields) => fields != map[]
  }

  /** `d.get(key, default)`. */
  function GetOr(d: map<string, Json>, key: string, default: Json): (v: Json)
    ensures key in d ==> v == d[key]
    ensures key !in d ==> v == default
  {
    if key in d then d[key] else default
  }

  /** `d.get(key)`: `None` when the key is missing. */
  function Get(d: map<string, Json>, key: string): Json {
    GetOr(d, key, JNull)
  }

  /** `len(v)` is defined (strings, lists and dicts) rather than raising `TypeError`. */
  predicate HasLen(v: Json) {
    v.JStr? || v.JList? || v.JObject?
  }
}
