/** Values that `JSON.parse` produces, and the two ways the route inspects them:
    JavaScript truthiness and optional property access (`data?.error`). */
module Json {
  import opened Wrappers

  datatype Json =
    | JNull
    | JBool(b: bool)
    /** A number literal within the range of a double (its value, rounding aside). */
    | JNumber(x: real)
    /** A number literal too large for a double, which `JSON.parse` turns into
        `Infinity` or `-Infinity`. */
    | JInfinite(negative: bool)
    | JString(s: string)
    | JArray(items: seq<Json>)
    | JObject(fields: map<string, Json>)

  /** `Number.isFinite(v)` for a parsed value: true only for a finite number. */
  predicate IsFiniteNumber(v: Json)
  {
    v.JNumber?
  }

  /** JavaScript truthiness of a parsed value: `null`, `false`, zero and the empty string
      are falsy; every other value, including empty arrays and objects, is truthy. */
  predicate Truthy(v: Json)
  {
    match v
    case JNull => false
    case JBool(b) => b
    case JNumber(x) => x != 0.0
    case JInfinite(_) => true
    case JString(s) => s != ""
    case JArray(_) => true
    case JObject(_) => true
  }

  /** Truthiness of a property that may be `undefined` (None). */
  predicate TruthyProperty(p: Option<Json>)
  {
    p.Some? && Truthy(p.value)
  }

  /** `v?.[key]`: the value of an own property of a parsed object; `undefined` for
      `null`, for primitives and for arrays, none of which carry a property of that name. */
  function Property(v: Json, key: string): Option<Json>
  {
    match v
    case JObject(fields) => if key in fields then Some(fields[key]) else None
    case _ => None
  }

  /** The body `{ error: e }` of an error response. */
  function ErrorBody(e: Json): Json
  {
    JObject(map["error" := e])
  }
}
