/**
 * The slice of JavaScript value semantics that the exception filter and the
 * validation layer rely on: `typeof`, truthiness, the `||` operator and
 * property reads. Numbers are modelled as integers.
 */
module JsValues {

  datatype JsValue =
    | JUndefined
    | JNull
    | JBool(b: bool)
    | JNum(n: int)
    | JStr(s: string)
    | JArray(items: seq<JsValue>)
    | JObject(props: map<string, JsValue>)

  /** The result of `typeof v` for the values above. */
  datatype TypeTag = TUndefined | TBoolean | TNumber | TString | TObject

  function TypeOf(v: JsValue): (t: TypeTag)
    ensures t == TObject <==> (v.JNull? || v.JArray? || v.JObject?)
    ensures t == TString <==> v.JStr?
  {
    match v
    case JUndefined => TUndefined
    case JNull => TObject
    case JBool(_) => TBoolean
    case JNum(_) => TNumber
    case JStr(_) => TString
    case JArray(_) => TObject
    case JObject(_) => TObject
  }

  /** JavaScript truthiness: `undefined`, `null`, `false`, `0` and `""` are falsy. */
  predicate Truthy(v: JsValue) {
    match v
    case JUndefined => false
    case JNull => false
    case JBool(b) => b
    case JNum(n) => n != 0
    case JStr(s) => s != ""
    case JArray(_) => true
    case JObject(_) => true
  }

  /** `a || b`: the first operand when it is truthy, otherwise the second. */
  function Or(a: JsValue, b: JsValue): JsValue {
    if Truthy(a) then a else b
  }

  /**
   * Property read `v[key]`. Reading a property of `null` or `undefined`
   * throws a TypeError in JavaScript, so those receivers are excluded.
   */
  function Get(v: JsValue, key: string): JsValue
    requires !v.JNull? && !v.JUndefined?
  {
    match v
    case JObject(props) => if key in props then props[key] else JUndefined
    case _ => JUndefined
  }
}
