/** The `serde_json::Value` tree that both the API document and the runtime values are
    made of, with the accessor chains the source uses (`get(..).and_then(Value::as_str)`). */
module JsonValue {
  import opened Wrappers

  /** Objects keep their members in the map's iteration order; numbers are either
      integers (`i64`/`u64`) or floats, which are kept as the text they print as. */
  datatype Json =
    | Null
    | Bool(b: bool)
    | Int(i: int)
    | Float(text: string)
    | Str(s: string)
    | Arr(items: seq<Json>)
    | Obj(members: seq<(string, Json)>)

  /** The first member named `key`. */
  function Lookup(members: seq<(string, Json)>, key: string): (r: Option<Json>)
    ensures r.Some? <==> exists i :: 0 <= i < |members| && members[i].0 == key
    ensures r.Some? ==> exists i :: 0 <= i < |members| && members[i] == (key, r.value)
  {
    if members == [] then None
    else if members[0].0 == key then Some(members[0].1)
    else Lookup(members[1..], key)
  }

  /** `Value::get(key)`: a member of an object, nothing for any other value */
  function Get(v: Json, key: string): Option<Json> {
    if v.Obj? then Lookup(v.members, key) else None
  }

  /** `v.get(key).and_then(Value::as_str)` */
  function StrAt(v: Json, key: string): Option<string> {
    match Get(v, key)
    case Some(Str(s)) => Some(s)
    case _ => None
  }

  /** `v.get(key).and_then(Value::as_bool)` */
  function BoolAt(v: Json, key: string): Option<bool> {
    match Get(v, key)
    case Some(Bool(b)) => Some(b)
    case _ => None
  }

  /** `v.get(key).and_then(Value::as_array)` */
  function ArrAt(v: Json, key: string): Option<seq<Json>> {
    match Get(v, key)
    case Some(Arr(xs)) => Some(xs)
    case _ => None
  }

  /** `v.get(key).and_then(Value::as_object)` */
  function ObjAt(v: Json, key: string): Option<seq<(string, Json)>> {
    match Get(v, key)
    case Some(Obj(ms)) => Some(ms)
    case _ => None
  }

  /** The parts of `serde_json` and of the standard library's float parser whose
      internals are not modelled: JSON text to value (`from_str`), value to compact JSON
      text (`to_string`), and `str::parse::<f64>` followed by `json!`, which turns a
      non-finite float into `null`. */
  datatype JsonLib = JsonLib(
    fromStr: string -> Option<Json>,
    toStr: Json -> string,
    parseF64: string -> Option<Json>)
}
