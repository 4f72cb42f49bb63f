/** Parsed JSON values, as `JSON.parse` and `req.json()` hand them to the
    application, and the JavaScript notion of truthiness that its `||` and
    `if (!x)` tests apply to them. */
module Json {

  /** A JSON value. Numbers are integers; an object keeps the last value of a
      repeated key, as `JSON.parse` does. */
  datatype Json =
    | JNull
    | JBool(b: bool)
    | JNum(n: int)
    | JStr(s: string)
    | JArr(items: seq<Json>)
    | JObj(fields: map<string, Json>)

  /** A JavaScript property read that may find nothing (`undefined`). */
  datatype Lookup = Undefined | Found(value: Json)

  /** `x.key` on a parsed value: only an object has named properties here;
      on anything else the read finds nothing.  (In JavaScript a read on
      `null` throws; the model reads `undefined` there, which is what the
      callers need: the schema refuses `null` without reading a property, and
      the voice handler reads properties only of objects and arrays.) */
  function Get(j: Json, key: string): (r: Lookup)
    ensures r.Found? <==> j.JObj? && key in j.fields
    ensures r.Found? ==> r.value == j.fields[key]
  {
    if j.JObj? && key in j.fields then Found(j.fields[key]) else Undefined
  }

  /** JavaScript truthiness: `null`, `false`, `0` and the empty string are
      falsy; arrays and objects are always truthy. */
  predicate Truthy(j: Json) {
    match j
    case JNull => false
    case JBool(b) => b
    case JNum(n) => n != 0
    case JStr(s) => s != []
    case JArr(_) => true
    case JObj(_) => true
  }

  /** `x.key || fallback`. */
  function OrElse(l: Lookup, fallback: Json): (r: Json)
    ensures r == fallback || (l.Found? && r == l.value)
    ensures l.Found? && Truthy(l.value) ==> r == l.value
    ensures Truthy(r) <==> (l.Found? && Truthy(l.value)) || Truthy(fallback)
  {
    if l.Found? && Truthy(l.value) then l.value else fallback
  }

  /** `typeof x === 'object' && x !== null`: true of objects and of arrays. */
  predicate IsObjectLike(j: Json) {
    j.JObj? || j.JArr?
  }
}
