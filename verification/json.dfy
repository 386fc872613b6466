/**
 * JSON values as Python's `json` module loads and dumps them. Numbers are integers; an object
 * is a map from keys to values (a repeated key keeps its last value, as in Python).
 */
module Json {

  datatype Json =
    | JNull
    | JBool(b: bool)
    | JInt(i: int)
    | JString(s: string)
    | JArray(items: seq<Json>)
    | JObject(fields: map<string, Json>)

  /** A list of strings, as `json` writes a Python list of `str`: one string per element, in order. */
  function StringList(xs: seq<string>): (j: Json)
    ensures j.JArray? && |j.items| == |xs|
    ensures forall k :: 0 <= k < |xs| ==> j.items[k] == JString(xs[k])
  {
    JArray(seq(|xs|, k requires 0 <= k < |xs| => JString(xs[k])))
  }
}
