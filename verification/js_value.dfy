/** The JavaScript values a raw sales row can hold, and the few operations of the
    language the dashboard applies to them: truthiness, property lookup, `typeof`
    tests, `String(v)` and strict equality. */
module JsValue {
  import opened JsText

  /** A JSON-like JavaScript value. Numbers are finite reals; `NaN` is kept apart
      because the source tests for it. An object maps its own keys to values. */
  datatype Json =
    | Undefined
    | Null
    | Bool(b: bool)
    | Num(x: real)
    | NaN
    | Str(s: string)
    | Obj(fields: map<string, Json>)
    | Arr(items: seq<Json>)

  /** `!!v`: `undefined`, `null`, `false`, `0`, `NaN` and `''` are falsy. */
  predicate Truthy(v: Json) {
    match v
    case Undefined => false
    case Null => false
    case Bool(b) => b
    case Num(x) => x != 0.0
    case NaN => false
    case Str(s) => |s| > 0
    case Obj(_) => true
    case Arr(_) => true
  }

  /** `v == null`, i.e. `v` is `undefined` or `null` (what `??` and `?.` test). */
  predicate IsNullish(v: Json) {
    v.Undefined? || v.Null?
  }

  /** `typeof v === 'number'`, which holds of `NaN` too. */
  predicate IsNumber(v: Json) {
    v.Num? || v.NaN?
  }

  /** `typeof v === 'object'` for a truthy `v`: an object or an array. */
  predicate IsObjectLike(v: Json) {
    v.Obj? || v.Arr?
  }

  /** `v[k]` for a key that is not an array index and not inherited: the own
      property of an object, `undefined` otherwise. */
  function Prop(v: Json, k: string): (r: Json)
    ensures v.Obj? && k in v.fields ==> r == v.fields[k]
    ensures !(v.Obj? && k in v.fields) ==> r == Undefined
  {
    if v.Obj? && k in v.fields then v.fields[k] else Undefined
  }

  /** `String(v)`, the text a template literal or `Object` key would use. An
      array is its elements joined with commas, `null` and `undefined` elements
      written as nothing. */
  function JsString(v: Json): string
    decreases v
  {
    match v
    case Undefined => "undefined"
    case Null => "null"
    case Bool(b) => if b then "true" else "false"
    case Num(x) => NumberText(x)
    case NaN => "NaN"
    case Str(s) => s
    case Obj(_) => "[object Object]"
    case Arr(items) =>
      JoinWithCommas(seq(|items|, i requires 0 <= i < |items| =>
        if IsNullish(items[i]) then "" else JsString(items[i])))
  }

  function JoinWithCommas(parts: seq<string>): string {
    if |parts| == 0 then ""
    else if |parts| == 1 then parts[0]
    else parts[0] + "," + JoinWithCommas(parts[1..])
  }

  /** `a === b`. Objects and arrays are compared by their contents; the source
      compares them by identity, which a value model cannot express. */
  predicate StrictEquals(a: Json, b: Json) {
    !a.NaN? && !b.NaN? && a == b
  }
}
