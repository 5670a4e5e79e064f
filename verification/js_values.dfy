/** The JavaScript values the client code handles: JSON fields of the
    records it receives, form inputs and URL parameters. Numbers are the
    integer-valued ones; the client's arithmetic on fractions is outside
    the model. */
module JsValues {
  import opened Text

  datatype JsValue = Undefined | JsNull | JsStr(s: string) | JsNum(n: int) | JsBool(b: bool)

  /** A plain object such as a record fetched from the server. */
  type Item = map<string, JsValue>

  /** `item[field]`: a missing property reads as `undefined`. */
  function Get(item: Item, field: string): JsValue {
    if field in item then item[field] else Undefined
  }

  /** JavaScript truthiness: `undefined`, `null`, `''`, `0` and `false` are falsy. */
  predicate Truthy(v: JsValue) {
    match v
    case Undefined => false
    case JsNull => false
    case JsStr(s) => s != ""
    case JsNum(n) => n != 0
    case JsBool(b) => b
  }

  /** `String(v)`. */
  function ToJsString(v: JsValue): string {
    match v
    case Undefined => "undefined"
    case JsNull => "null"
    case JsStr(s) => s
    case JsNum(n) => IntToString(n)
    case JsBool(b) => if b then "true" else "false"
  }

  /** `undefined`, `null`, numbers and booleans all print as a non-empty
      word, so only the empty string prints empty. */
  lemma EmptyStringOnlyFromEmpty(v: JsValue)
    ensures ToJsString(v) == "" <==> v == JsStr("")
  {
    if v.JsNum? {
      assert |NatToString(if v.n < 0 then -v.n else v.n)| >= 1;
    }
  }
}
