/** Decoded response bodies and the two JavaScript rules the screens apply to them:
    reading a named property, and truthiness. */
module Json {
  import opened Wrappers

  /** A value produced by `response.json()`. Numbers are whole numbers in this model. */
  datatype Json =
    | JNull
    | JBool(b: bool)
    | JNumber(n: int)
    | JString(s: string)
    | JArray(items: seq<Json>)
    | JObject(fields: map<string, Json>)

  /** `value.key` on a value that is not `null`, for the property names the screen reads
      (`metadata` and `data`): the field of an object, and `undefined` (None) for a missing
      field or a non-object value, which has no property of those names. Properties built
      into arrays and strings, such as `length`, are not modelled here. Reading on `null`
      throws and is handled by the callers. */
  function Member(value: Json, key: string): (r: Option<Json>)
    requires !value.JNull?
    ensures r.Some? <==> value.JObject? && key in value.fields
    ensures r.Some? ==> r.value == value.fields[key]
  {
    match value
    case JObject(fields) => if key in fields then Some(fields[key]) else None
    case _ => None
  }

  /** JavaScript truthiness of a property read: `undefined`, `null`, `false`, `0` and `""`
      are falsy; every array and every object, empty or not, is truthy. */
  predicate Truthy(v: Option<Json>) {
    match v
    case None => false
    case Some(JNull) => false
    case Some(JBool(b)) => b
    case Some(JNumber(n)) => n != 0
    case Some(JString(s)) => s != ""
    case Some(JArray(_)) => true
    case Some(JObject(_)) => true
  }

  /** `value.length > 0`, for the values whose `length` is their size (arrays and strings).
      Every other value is taken to have no `length`, so the comparison is false; an object
      with a numeric `length` field is not modelled. */
  predicate HasPositiveLength(value: Json) {
    match value
    case JArray(items) => |items| > 0
    case JString(s) => |s| > 0
    case _ => false
  }
}
