/** The JSON-like values a request body field can hold once `express.json()`
    (or the Vercel runtime) has parsed it, with the two JavaScript coercions
    the handlers apply to them: truthiness and conversion to text. */
module Json {
  import opened Text

  /** `JUndefined` is a field that is absent from the body. Numbers are
      modelled by their integer value; an object's members never matter to
      the handlers, so `JObj` carries none. */
  datatype Json =
    | JUndefined
    | JNull
    | JBool(b: bool)
    | JNum(n: int)
    | JStr(s: string)
    | JArr(items: seq<Json>)
    | JObj

  /** JavaScript truthiness: `undefined`, `null`, `false`, `0` and `""` are
      falsy, everything else (every array and object included) is truthy. */
  predicate Truthy(v: Json) {
    match v
    case JUndefined => false
    case JNull => false
    case JBool(b) => b
    case JNum(n) => n != 0
    case JStr(s) => s != []
    case JArr(_) => true
    case JObj => true
  }

  /** `String(v)`. */
  function ToText(v: Json): string
    decreases v, 1
  {
    match v
    case JUndefined => "undefined"
    case JNull => "null"
    case JBool(b) => if b then "true" else "false"
    case JNum(n) => IntToString(n)
    case JStr(s) => s
    case JArr(items) => Join(seq(|items|, i requires 0 <= i < |items| => JoinText(items[i])), ",")
    case JObj => "[object Object]"
  }

  /** The text `Array.prototype.join` uses for one element: like `String(v)`
      except that `null` and `undefined` become the empty string. */
  function JoinText(v: Json): (r: string)
    ensures v.JStr? ==> r == v.s
    decreases v, 2
  {
    if v.JUndefined? || v.JNull? then "" else ToText(v)
  }
}
