/** The values `encoding/json` decodes into `interface{}`: null, booleans, numbers,
    strings, arrays (`[]interface{}`) and objects (`map[string]interface{}`). */
module JsonValue {
  import opened Wrappers

  datatype Json =
    | Null
    | Bool(b: bool)
    | Number(n: real)
    | Str(s: string)
    | Array(items: seq<Json>)
    | Object(fields: map<string, Json>)

  /** The type assertion `m[key].(string)`: the string stored under `key`, if that is
      what is stored there. */
  function StringField(m: map<string, Json>, key: string): (r: Option<string>)
    ensures r.Some? <==> key in m && m[key].Str?
    ensures r.Some? ==> m[key] == Str(r.value)
  {
    if key in m && m[key].Str? then Some(m[key].s) else None
  }

  /** The type assertion `m[key].([]interface{})`. */
  function ArrayField(m: map<string, Json>, key: string): (r: Option<seq<Json>>)
    ensures r.Some? <==> key in m && m[key].Array?
    ensures r.Some? ==> m[key] == Array(r.value)
  {
    if key in m && m[key].Array? then Some(m[key].items) else None
  }

  /** The type assertion `m[key].(map[string]interface{})`. */
  function ObjectField(m: map<string, Json>, key: string): (r: Option<map<string, Json>>)
    ensures r.Some? <==> key in m && m[key].Object?
    ensures r.Some? ==> m[key] == Object(r.value)
  {
    if key in m && m[key].Object? then Some(m[key].fields) else None
  }
}
