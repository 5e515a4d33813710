/** The JavaScript values the validators and the coordinate parser can be handed.
    Numbers are exact reals plus NaN; infinities and the distinction between -0 and +0
    are not modelled. */
module JsValues {
  import opened Wrappers

  datatype Value =
    | Undefined
    | Null
    | Bool(b: bool)
    | Num(x: real)
    | NaN
    | Str(s: string)
    | Arr(items: seq<Value>)
    | Obj

  /** ECMAScript ToBoolean: `undefined`, `null`, `false`, `0`, `NaN` and `""` are falsy,
      every object (an empty array included) is truthy. */
  predicate Truthy(v: Value) {
    match v
    case Undefined => false
    case Null => false
    case Bool(b) => b
    case Num(x) => x != 0.0
    case NaN => false
    case Str(s) => s != ""
    case Arr(_) => true
    case Obj => true
  }

  /** `typeof v === 'number' && !isNaN(v)` */
  predicate IsNumber(v: Value) {
    v.Num?
  }

  /** The `length` property where the value has one (strings and arrays). */
  function Length(v: Value): Option<nat> {
    match v
    case Str(s) => Some(|s|)
    case Arr(items) => Some(|items|)
    case _ => None
  }
}
