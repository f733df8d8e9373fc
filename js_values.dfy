/**
 The JavaScript values the request callback works with: what `JSON.parse`
 returns for a request body or for the stored file, what a property access
 on such a value yields, and how `!` and `typeof` classify it.
 */
module JsValues {

  datatype Option<+T> = None | Some(value: T)

  /** A value `JSON.parse` can return. Numbers are finite reals; an object is
      its set of own fields (duplicate keys have already collapsed, last one
      winning, and key order is not kept). */
  datatype Json =
    | JNull
    | JBool(b: bool)
    | JNumber(n: real)
    | JString(s: string)
    | JArray(elements: seq<Json>)
    | JObject(fields: map<string, Json>)

  /** The exceptions the callback can raise and does not catch. */
  datatype Exception = SyntaxError | TypeError

  /** A JavaScript evaluation that either yields a value or throws. */
  datatype Result<+T> = Ok(value: T) | Thrown(exception: Exception)

  /** The result of a property access: `undefined`, or a JSON value. */
  datatype JsValue = Undefined | Defined(json: Json)

  /** The two properties the callback reads from an item. */
  datatype ItemKey = NameKey | QuantityKey {
    function Text(): string {
      match this
      case NameKey => "name"
      case QuantityKey => "quantity"
    }
  }

  /** `v.name` or `v.quantity` for a parsed value `v`. Reading a property of
      `null` throws a TypeError; an object yields its own field or
      `undefined`; booleans, numbers, strings and arrays have no property of
      either name on their prototypes, so they yield `undefined`. */
  function Property(v: Json, key: ItemKey): (r: Result<JsValue>)
    ensures r.Thrown? <==> v == JNull
    ensures r.Thrown? ==> r.exception == TypeError
    ensures r.Ok? && r.value.Defined? <==> v.JObject? && key.Text() in v.fields
    ensures r.Ok? && r.value.Defined? ==> r.value.json == v.fields[key.Text()]
  {
    match v
    case JNull => Thrown(TypeError)
    case JObject(fields) =>
      if key.Text() in fields then Ok(Defined(fields[key.Text()])) else Ok(Undefined)
    case _ => Ok(Undefined)
  }

  /** JavaScript's ToBoolean, which `!` negates: `undefined`, `null`,
      `false`, `0` and `""` are falsy; every other value, including an empty
      array or object, is truthy. */
  predicate IsTruthy(v: JsValue) {
    match v
    case Undefined => false
    case Defined(j) =>
      match j
      case JNull => false
      case JBool(b) => b
      case JNumber(n) => n != 0.0
      case JString(s) => s != ""
      case JArray(_) => true
      case JObject(_) => true
  }

  /** The falsy values a JSON property can hold are exactly `undefined`,
      `null`, `false`, `0` and `""`. */
  lemma FalsyValues(v: JsValue)
    ensures !IsTruthy(v) <==>
              v in {Undefined, Defined(JNull), Defined(JBool(false)), Defined(JNumber(0.0)), Defined(JString(""))}
  {
  }

  /** `typeof v === 'number'`: the value is a JSON number, whichever. */
  function IsNumber(v: JsValue): (number: bool)
    ensures number <==> exists n :: v == Defined(JNumber(n))
  {
    if v.Defined? && v.json.JNumber? then assert v == Defined(JNumber(v.json.n)); true
    else false
  }
}
