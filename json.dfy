/** The values a parsed JSON request body can hold, as the handlers see them. */
module Json {

  /**
   * A JavaScript value read from a parsed request body: `Undefined` is what
   * reading a missing key yields. Numbers carry an integer; the model only
   * ever asks for their type.
   */
  datatype JsValue =
    | Undefined
    | Null
    | Bool(b: bool)
    | Number(n: int)
    | Str(s: string)
    | Array(items: seq<JsValue>)
    | Object(fields: map<string, JsValue>)

  /** The `typeof` operator. */
  function TypeOf(v: JsValue): (r: string)
    ensures r == "string" <==> v.Str?
    ensures r == "boolean" <==> v.Bool?
    ensures r == "undefined" <==> v.Undefined?
  {
    match v
    case Undefined => "undefined"
    case Null => "object"
    case Bool(_) => "boolean"
    case Number(_) => "number"
    case Str(_) => "string"
    case Array(_) => "object"
    case Object(_) => "object"
  }

  /** Reading a property of a parsed body: `undefined` when the key is missing. */
  function Field(body: map<string, JsValue>, key: string): (r: JsValue)
    ensures key !in body ==> r.Undefined?
    ensures key in body ==> r == body[key]
  {
    if key in body then body[key] else Undefined
  }
}
