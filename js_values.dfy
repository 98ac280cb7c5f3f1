/** The JavaScript values that arrive in an Express request body parsed by
    express.json(), with the two pieces of JavaScript semantics the recipe
    routes use on them: truthiness and property lookup. */
module JsValues {

  /** A JSON-derived JavaScript value; `Undefined` stands for a property that
      is not there. `Num` holds the value of the double JSON.parse produced
      (a literal such as 1e400 overflows to Infinity, which is truthy, and one
      such as 1e-400 underflows to 0, which is falsy); NaN cannot arise. */
  datatype JsValue =
    | Undefined
    | Null
    | Bool(b: bool)
    | Num(x: real)
    | Str(s: string)
    | Arr(items: seq<JsValue>)
    | Obj(fields: map<string, JsValue>)

  /** JavaScript truthiness (ToBoolean): undefined, null, false, 0 and the
      empty string are falsy; every array and object, even an empty one, is truthy. */
  predicate Truthy(v: JsValue)
    ensures !Truthy(v) <==> v == Undefined || v == Null || v == Bool(false) || v == Num(0.0) || v == Str("")
  {
    match v
    case Undefined => false
    case Null => false
    case Bool(b) => b
    case Num(x) => x != 0.0
    case Str(s) => s != ""
    case Arr(_) => true
    case Obj(_) => true
  }

  /** `v[key]` for the keys the routes read. express.json() in strict mode
      hands the route an object or an array; an array has none of the keys
      the routes destructure, so only an object's own fields are found. */
  function Field(v: JsValue, key: string): (r: JsValue)
    ensures v.Obj? && key in v.fields ==> r == v.fields[key]
    ensures !(v.Obj? && key in v.fields) ==> r == Undefined
  {
    if v.Obj? && key in v.fields then v.fields[key] else Undefined
  }

  /** How a JavaScript evaluation ends: with a value, or by throwing an error
      (named by its constructor, such as "TypeError"). */
  datatype Completion<T> = Normal(value: T) | Thrown(error: string)

  /** The JSON object `{"error": message}` the routes answer with on failure. */
  function ErrorBody(message: string): (r: JsValue)
    ensures r.Obj? && r.fields.Keys == {"error"} && r.fields["error"] == Str(message)
  {
    Obj(map["error" := Str(message)])
  }
}
