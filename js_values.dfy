/** The JavaScript values a version variable can hold in these scripts:
    `null` (nothing read yet, or `getItem` on a missing key), `undefined`
    (a version document without a `version` field) or a string. */
module JsValues {

  datatype JsValue = Null | Undefined | Str(s: string)

  /** JavaScript truthiness: only a non-empty string is truthy. */
  predicate Truthy(v: JsValue) {
    v.Str? && v.s != ""
  }

  /** What a template literal `${v}` inserts. */
  function Text(v: JsValue): (t: string)
    ensures v.Str? ==> t == v.s
    ensures t == "null" ==> v == Null || v == Str("null")
    ensures t == "undefined" ==> v == Undefined || v == Str("undefined")
  {
    match v
    case Null => "null"
    case Undefined => "undefined"
    case Str(s) => s
  }

  /** `localStorage.getItem(key)` on a store modelled as a map. */
  function GetItem(store: map<string, string>, key: string): (v: JsValue)
    ensures v != Undefined
    ensures v.Str? <==> key in store
    ensures key in store ==> v.s == store[key]
  {
    if key in store then Str(store[key]) else Null
  }
}
