/**
 * A parsed JSON value. The text encoding is not modelled: decoders in this
 * project take the tree that `JSON.parse` / `encoding/json` would produce.
 * Numbers are integers, which is all the modelled decoders read.
 */
module Json {
  import opened Results

  datatype Json =
    | JNull
    | JBool(b: bool)
    | JNumber(n: int)
    | JString(s: string)
    | JArray(items: seq<Json>)
    | JObject(fields: map<string, Json>)

  /** The value under `key` of an object; absent for missing keys and non-objects. */
  function Field(j: Json, key: string): (r: Option<Json>)
    ensures r.Some? <==> j.JObject? && key in j.fields
    ensures r.Some? ==> r.value == j.fields[key]
  {
    if j.JObject? && key in j.fields then Some(j.fields[key]) else None
  }
}
