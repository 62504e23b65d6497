/** Parsed JSON values as the front end receives them from the backend, with the
    JavaScript notions the code applies to them: truthiness, property reads, and
    the two conversions to text that belong to the JavaScript runtime. */
module Json {
  import opened Wrappers

  /** A parsed JSON value. Numbers are integers; fractional numbers are not modelled. */
  datatype Json =
    | JNull
    | JBool(b: bool)
    | JNum(n: int)
    | JStr(s: string)
    | JArr(elems: seq<Json>)
    | JObj(fields: map<string, Json>)

  /** JavaScript truthiness of a value that may be `undefined` (`None`). */
  predicate Truthy(v: Option<Json>) {
    match v
    case None => false
    case Some(JNull) => false
    case Some(JBool(b)) => b
    case Some(JNum(n)) => n != 0
    case Some(JStr(s)) => s != ""
    case Some(_) => true
  }

  /** `v.key` for a value that is not `null`: only an object has the keys read
      here; on any other value the read yields `undefined`. */
  function Field(v: Json, key: string): (r: Option<Json>)
    ensures r.Some? <==> v.JObj? && key in v.fields
    ensures r.Some? ==> r.value == v.fields[key]
  {
    if v.JObj? && key in v.fields then Some(v.fields[key]) else None
  }

  /** `v.key` is a string: `typeof v.key === 'string'`. */
  predicate IsStringField(v: Json, key: string) {
    Field(v, key).Some? && Field(v, key).value.JStr?
  }

  /** `v.key && typeof v.key === 'string'`: a non-empty string. */
  predicate IsNonEmptyStringField(v: Json, key: string) {
    IsStringField(v, key) && Field(v, key).value.s != ""
  }

  /** The parts of the JavaScript runtime whose exact output the model does not
      reproduce: `JSON.stringify`, `String(v)` for a non-string value, and the
      message of the `TypeError` raised by reading property `key` of `null`. */
  datatype Js = Js(stringify: Json -> string, toText: Json -> string, nullRead: string -> string)

  /** `String(v)` (and `${v}` in a template literal): a string is itself. */
  function TextOf(js: Js, v: Json): (r: string)
    ensures v.JStr? ==> r == v.s
  {
    if v.JStr? then v.s else js.toText(v)
  }
}
