/**
 * The parsed JSON values that a request body can hold, and the two pieces of
 * JavaScript semantics the handlers apply to them: reading a named property
 * (which yields `undefined`, here `None`, when it is absent) and truthiness.
 */
module Json {
  import opened Wrappers

  /** A value as `JSON.parse` produces it. Numbers are reals: JSON has no NaN or infinities. */
  datatype Json =
    | JNull
    | JBool(b: bool)
    | JNumber(n: real)
    | JString(s: string)
    | JArray(items: seq<Json>)
    | JObject(fields: map<string, Json>)

  /**
   * `value[key]` for the keys the core reads (`username`, `age`, `hobbies`):
   * only a parsed object has such an own property; on every other value the
   * lookup is `undefined`.
   */
  function Prop(value: Json, key: string): Option<Json> {
    if value.JObject? && key in value.fields then Some(value.fields[key]) else None
  }

  /**
   * JavaScript truthiness of a property read: `undefined`, `null`, `false`,
   * `0` and `""` are falsy; every other value, including an empty array or
   * object, is truthy.
   */
  predicate Truthy(v: Option<Json>) {
    match v
    case None => false
    case Some(JNull) => false
    case Some(JBool(b)) => b
    case Some(JNumber(n)) => n != 0.0
    case Some(JString(s)) => s != ""
    case Some(JArray(_)) => true
    case Some(JObject(_)) => true
  }

  /** `typeof v === "number"`. */
  predicate IsNumber(v: Option<Json>) {
    v.Some? && v.value.JNumber?
  }

  /** `Array.isArray(v)`. */
  predicate IsArray(v: Option<Json>) {
    v.Some? && v.value.JArray?
  }
}
