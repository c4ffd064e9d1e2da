/** JavaScript values, truthiness and error objects, as far as the registry
    code inspects them. */
module Js {

  /** A property that may be missing (`undefined`) or present. */
  datatype Option<+T> = None | Some(value: T)

  /** A JSON-like JavaScript value. Numbers are integers; a `Set` keeps its
      elements in insertion order. Functions are not values here: they only
      appear as members of an implementation object. */
  datatype Value =
    | Undefined
    | Null
    | Bool(b: bool)
    | Num(n: int)
    | Str(s: string)
    | Arr(items: seq<Value>)
    | Obj(fields: map<string, Value>)
    | JsSet(elems: seq<Value>)

  /** JavaScript truthiness: `undefined`, `null`, `false`, `0` and `""` are
      the falsy values (NaN is not modelled). */
  predicate Truthy(v: Value) {
    !(v.Undefined? || v.Null? || v == Bool(false) || v == Num(0) || v == Str(""))
  }

  /** `v || null`: the value itself when truthy, otherwise `null`. */
  function OrNull(v: Value): (r: Value)
    ensures Truthy(v) ==> r == v
    ensures !Truthy(v) ==> r == Null
    ensures r.Null? || Truthy(r)
  {
    if Truthy(v) then v else Null
  }

  /** A property read `obj.key`: missing keys read as `undefined`. */
  function Get(fields: map<string, Value>, key: string): (r: Value)
    ensures key !in fields ==> r == Undefined
    ensures key in fields ==> r == fields[key]
  {
    if key in fields then fields[key] else Undefined
  }

  /** An `Error` object: its constructor name and its message. */
  datatype JsError = JsError(name: string, message: string)

  /** What a `throw` (or a promise rejection) carries: an `Error` object or
      any other value. */
  datatype Thrown = ErrorObject(err: JsError) | NonError(v: Value)

  /** A synchronous computation that either returns or throws. */
  datatype Result<+T> = Success(value: T) | Failure(error: Thrown)

  /** `Error.prototype.toString`: `name: message`, dropping the separator
      when either part is empty. */
  function ErrorToString(e: JsError): (r: string)
    ensures e.name == "" ==> r == e.message
    ensures e.name != "" && e.message == "" ==> r == e.name
    ensures e.name != "" && e.message != "" ==> r == e.name + ": " + e.message
  {
    if e.name == "" then e.message
    else if e.message == "" then e.name
    else e.name + ": " + e.message
  }

  /** `String(x)` for whatever was thrown. `show` is JavaScript's string
      conversion of a non-Error value, which this model leaves uninterpreted. */
  function Stringify(t: Thrown, show: Value -> string): (r: string)
    ensures t.ErrorObject? ==> r == ErrorToString(t.err)
    ensures t.NonError? ==> r == show(t.v)
  {
    match t
    case ErrorObject(e) => ErrorToString(e)
    case NonError(v) => show(v)
  }
}
