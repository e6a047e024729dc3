/** The serialised view of a user: `toJSON` returns the plain object of the
    document with `password` and `sessions` omitted (`_.omit`). */
module Projection {

  datatype Json =
    | JString(s: string)
    | JNumber(n: real)
    | JArray(items: seq<Json>)
    | JObject(fields: map<string, Json>)

  const HiddenKeys: set<string> := {"password", "sessions"}

  /** `_.omit(obj, keys)`: a copy of `obj` without the listed keys. */
  function Omit(obj: map<string, Json>, keys: set<string>): (r: map<string, Json>)
    ensures r.Keys == obj.Keys - keys
    ensures forall k :: k in r ==> r[k] == obj[k]
  {
    map k | k in obj && k !in keys :: obj[k]
  }

  /** `toJSON` applied to the plain object of a user document. */
  function ToJSON(obj: map<string, Json>): (r: map<string, Json>)
    ensures "password" !in r && "sessions" !in r
    ensures forall k :: k in obj && k != "password" && k != "sessions" ==> k in r && r[k] == obj[k]
    ensures forall k :: k in r ==> k in obj
  {
    Omit(obj, HiddenKeys)
  }

  /** Projecting twice hides nothing more than projecting once. */
  lemma ToJSONIdempotent(obj: map<string, Json>)
    ensures ToJSON(ToJSON(obj)) == ToJSON(obj)
  {
  }
}
