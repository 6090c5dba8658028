/** JavaScript values as they travel through the extension's messages,
    storage and parsed JSON, and the completion of a JavaScript computation
    (a value, or a thrown error). */
module JsValues {
  import opened Options

  /** A field value. Strings are kept; other values (numbers, booleans,
      arrays, objects) keep only their truthiness, which is all the extension
      ever looks at. */
  datatype Value = Undefined | Null | Str(s: string) | Other(truthy: bool)
  {
    /** JavaScript truthiness: `undefined`, `null` and `''` are falsy. */
    predicate Truthy() {
      match this
      case Undefined => false
      case Null => false
      case Str(s) => s != []
      case Other(t) => t
    }
  }

  /** `v || fallback`. */
  function Or(v: Value, fallback: Value): (r: Value)
    ensures v.Truthy() ==> r == v
    ensures !v.Truthy() ==> r == fallback
  {
    if v.Truthy() then v else fallback
  }

  /** A JSON value. `JOther` stands for numbers and booleans, kept by
      truthiness only; `JArray` for an array, whose elements the code never
      reads. `JEncoded(v)` is a string whose text is the JSON serialization
      of `v`; the serializer itself is not modelled, only that parsing such a
      string gives `v` back and that the text is not empty. */
  datatype Json =
    | JNull
    | JString(s: string)
    | JObject(fields: map<string, Json>)
    | JArray
    | JOther(truthy: bool)
    | JEncoded(value: Json)

  /** The field value a JSON value denotes; a serialized JSON text is seen
      only as a truthy value. */
  function ToValue(j: Json): (v: Value)
    ensures v.Str? <==> j.JString?
    ensures v.Truthy() <==> !(j.JNull? || j == JString([]) || j == JOther(false))
  {
    match j
    case JNull => Null
    case JString(s) => Str(s)
    case JObject(_) => Other(true)
    case JArray => Other(true)
    case JOther(t) => Other(t)
    case JEncoded(_) => Other(true)
  }

  /** A JavaScript value as read from parsed JSON: `None` is `undefined`. */
  function ValueOf(v: Option<Json>): (r: Value)
    ensures v.None? <==> r == Undefined
  {
    if v.None? then Undefined else ToValue(v.value)
  }

  /** Completion of a JavaScript computation: a normal value or a thrown
      error, written as `String(error)` prints it: the error's name, a colon
      and its message. */
  datatype Completion<+T> = Normal(value: T) | Throw(error: string)

  /** `v[key]`: reading a property of `undefined` or `null` throws a
      TypeError; a missing property, or any property of a string, number or
      boolean, is `undefined`. */
  function Member(v: Option<Json>, key: string): (r: Completion<Option<Json>>)
    ensures r.Throw? <==> v.None? || v == Some(JNull)
    ensures r.Normal? && r.value.Some? ==> v.value.JObject? && key in v.value.fields && r.value.value == v.value.fields[key]
    ensures v.Some? && v.value.JObject? && key in v.value.fields ==> r == Normal(Some(v.value.fields[key]))
  {
    match v
    case None => Throw("TypeError: Cannot read properties of undefined (reading '" + key + "')")
    case Some(JNull) => Throw("TypeError: Cannot read properties of null (reading '" + key + "')")
    case Some(JObject(fields)) => Normal(if key in fields then Some(fields[key]) else None)
    case Some(_) => Normal(None)
  }

  /** `j[key]` on a parsed JSON value, as a field value. */
  function Property(j: Json, key: string): (r: Completion<Value>)
    ensures r.Throw? <==> j.JNull?
    ensures j.JObject? && key in j.fields ==> r == Normal(ToValue(j.fields[key]))
    ensures r.Normal? && !(j.JObject? && key in j.fields) ==> r.value == Undefined
  {
    match Member(Some(j), key)
    case Throw(e) => Throw(e)
    case Normal(m) => Normal(ValueOf(m))
  }

  /** JavaScript truthiness of a value read from parsed JSON. */
  predicate JsonTruthy(v: Option<Json>) {
    ValueOf(v).Truthy()
  }

  /** `JSON.parse(v)`: the argument is first converted to a string, so
      `undefined`, objects ("[object Object]") and arrays (their elements
      joined by commas) are not JSON text, while `null`, numbers and booleans
      read back as themselves; a plain string is taken to be text that is
      not JSON. */
  function Parse(v: Option<Json>): (r: Completion<Json>)
    ensures v.Some? && v.value.JEncoded? ==> r == Normal(v.value.value)
    ensures v.Some? && (v.value.JNull? || v.value.JOther?) ==> r == Normal(v.value)
    ensures r.Throw? <==> v.None? || v.value.JString? || v.value.JObject? || v.value.JArray?
  {
    match v
    case None => Throw("SyntaxError: \"undefined\" is not valid JSON")
    case Some(JEncoded(j)) => Normal(j)
    case Some(JNull) => Normal(JNull)
    case Some(JOther(t)) => Normal(JOther(t))
    case Some(JString(_)) => Throw("SyntaxError: Unexpected token")
    case Some(JObject(_)) => Throw("SyntaxError: \"[object Object]\" is not valid JSON")
    case Some(JArray) => Throw("SyntaxError: Unexpected end of JSON input")
  }
}
