/** JSON values as `json.loads` returns them: objects become dictionaries, arrays lists. */
module Json {
  import opened Wrappers

  datatype Json =
    | JNull
    | JBool(b: bool)
    | JNum(n: real)
    | JStr(s: string)
    | JArr(items: seq<Json>)
    | JObj(fields: map<string, Json>)

  /** `obj.get(key)` when the value is a string; any other value, or none, reads as `None`. */
  function StrField(obj: map<string, Json>, key: string): (r: Option<string>)
    ensures r.Some? <==> key in obj && obj[key].JStr?
    ensures r.Some? ==> obj[key] == JStr(r.value)
  {
    if key in obj && obj[key].JStr? then Some(obj[key].s) else None
  }

  /** `obj.get(key)` when the value is a number; any other value, or none, reads as `None`. */
  function NumField(obj: map<string, Json>, key: string): (r: Option<real>)
    ensures r.Some? <==> key in obj && obj[key].JNum?
    ensures r.Some? ==> obj[key] == JNum(r.value)
  {
    if key in obj && obj[key].JNum? then Some(obj[key].n) else None
  }

  /** `v[key]` on a value that may be missing: found only in an object that holds `key`. */
  function Member(v: Option<Json>, key: string): Option<Json>
  {
    if v.Some? && v.value.JObj? && key in v.value.fields then Some(v.value.fields[key]) else None
  }

  /** `v[0]` on a value that may be missing: found only in a non-empty array. */
  function Element0(v: Option<Json>): Option<Json>
  {
    if v.Some? && v.value.JArr? && |v.value.items| > 0 then Some(v.value.items[0]) else None
  }
}
