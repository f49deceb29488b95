/** Decoded JSON values as the TypeScript and Python code sees them, with
    the two languages' notions of truthiness and JavaScript property access. */
module JsonValues {
  import opened Wrappers

  /** A decoded JSON value; numbers are limited to the integers. */
  datatype Json =
    | JNull
    | JBool(b: bool)
    | JNum(n: int)
    | JStr(s: string)
    | JArr(items: seq<Json>)
    | JObj(fields: map<string, Json>)

  /** JavaScript truthiness: `null`, `false`, `0` and `""` are falsy; every
      array and object, even an empty one, is truthy. */
  predicate JsTruthy(v: Json)
  {
    match v
    case JNull => false
    case JBool(b) => b
    case JNum(n) => n != 0
    case JStr(s) => s != ""
    case JArr(_) => true
    case JObj(_) => true
  }

  /** Python truthiness: `None`, `False`, `0`, `""`, `[]` and `{}` are falsy. */
  predicate PyTruthy(v: Json)
  {
    match v
    case JNull => false
    case JBool(b) => b
    case JNum(n) => n != 0
    case JStr(s) => s != ""
    case JArr(items) => items != []
    case JObj(fields) => fields != map[]
  }

  /** An absent property (`undefined`) or `null`: what `??` and `?.` skip. */
  predicate Nullish(p: Option<Json>)
  {
    p.None? || p.value == JNull
  }

  /** JavaScript truthiness of a property that may be `undefined`. */
  predicate PropTruthy(p: Option<Json>)
  {
    p.Some? && JsTruthy(p.value)
  }

  /** The JavaScript property read `v.key`: a TypeError on `null`; on an
      object the member if present; `undefined` (None) otherwise, since
      strings, numbers, booleans and arrays have no such data member. */
  function GetProp(v: Json, key: string): (r: Result<Option<Json>, ()>)
    ensures r.Failure? <==> v == JNull
    ensures r.Success? && r.value.Some? ==> v.JObj? && key in v.fields && r.value.value == v.fields[key]
    ensures v.JObj? && key in v.fields ==> r == Success(Some(v.fields[key]))
  {
    match v
    case JNull => Failure(())
    case JObj(fields) => if key in fields then Success(Some(fields[key])) else Success(None)
    case _ => Success(None)
  }

  /** Python's `d.get(key)` on a dict: `None` (JNull) when the key is absent. */
  function PyGet(fields: map<string, Json>, key: string): Json
  {
    if key in fields then fields[key] else JNull
  }

  /** Python's `d.get(key, default)`. */
  function PyGetOr(fields: map<string, Json>, key: string, default: Json): Json
  {
    if key in fields then fields[key] else default
  }
}
