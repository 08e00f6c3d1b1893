/** The JSON-like values the client receives from the API and passes to the logger. */
module JsValues {

  /**
   * A JavaScript value as far as the client utilities look at it. Numbers are reals (NaN and
   * the infinities are not modelled); an object is a map from property names to values.
   */
  datatype JsValue =
    | Undefined
    | Null
    | Bool(b: bool)
    | Num(n: real)
    | Str(s: string)
    | Arr(items: seq<JsValue>)
    | Obj(props: map<string, JsValue>)

  /** `typeof v === 'object' && v !== null`: plain objects and arrays. */
  predicate IsObject(v: JsValue) {
    v.Obj? || v.Arr?
  }

  /** `v.name` for a named (non-index) property: missing properties read as `undefined`. */
  function Get(v: JsValue, name: string): (r: JsValue)
    ensures v.Obj? && name in v.props ==> r == v.props[name]
    ensures !(v.Obj? && name in v.props) ==> r == Undefined
  {
    if v.Obj? && name in v.props then v.props[name] else Undefined
  }
}
