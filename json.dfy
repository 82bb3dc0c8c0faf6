/** A decoded JSON value as the client sees it after `res.json()`, with the parts of
    JavaScript's semantics that the error decoder relies on: truthiness, property
    access, and the string conversion that template literals and `join` apply.
    Numbers are integral here (validation locations such as `0`). */
module JsonValue {
  import opened Wrappers
  import opened Text

  datatype Json =
    | JNull
    | JBool(b: bool)
    | JNumber(n: int)
    | JString(s: string)
    | JArray(items: seq<Json>)
    | JObject(fields: map<string, Json>)

  /** JavaScript truthiness: null, false, 0 and "" are falsy; arrays and objects are truthy. */
  predicate Truthy(v: Json) {
    match v
    case JNull => false
    case JBool(b) => b
    case JNumber(n) => n != 0
    case JString(s) => s != ""
    case _ => true
  }

  /** `v.name` on a value that is not null: only objects carry named fields;
      `None` is `undefined`. */
  function Get(v: Json, name: string): Option<Json> {
    if v.JObject? && name in v.fields then Some(v.fields[name]) else None
  }

  /** `String(v)`, used by template literals. */
  function ToJsString(v: Json): string
    decreases v, 1
  {
    match v
    case JNull => "null"
    case JBool(b) => if b then "true" else "false"
    case JNumber(n) => IntToDecimal(n)
    case JString(s) => s
    case JArray(items) => JoinValues(items, ",")
    case JObject(_) => "[object Object]"
  }

  /** `items.join(sep)`: null entries become the empty string, others `String(e)`. */
  function JoinValues(items: seq<Json>, sep: string): string
    decreases items, 0
  {
    Join(seq(|items|, i requires 0 <= i < |items| => if items[i].JNull? then "" else ToJsString(items[i])), sep)
  }
}
