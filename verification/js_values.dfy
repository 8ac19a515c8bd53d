/**
 * JavaScript values as the app's code meets them: whatever `JSON.parse`
 * can produce, plus `undefined`, which property reads on missing keys yield.
 * `JSON.parse` itself is never modelled; the modules that call it take it as
 * a function parameter.
 */
module Js {

  datatype Option<+T> = None | Some(value: T)

  datatype Result<+T, +E> = Ok(value: T) | Err(error: E)

  /** A JSON value, or `undefined`. Numbers are kept as reals (not doubles). */
  datatype Value =
    | Undefined
    | Null
    | Bool(b: bool)
    | Num(n: real)
    | Str(s: string)
    | Arr(items: seq<Value>)
    | Obj(fields: map<string, Value>)

  /** JavaScript truthiness, as used by `||`, `&&` and `.filter(Boolean)`. */
  predicate Truthy(v: Value) {
    match v
    case Undefined => false
    case Null => false
    case Bool(b) => b
    case Num(n) => n != 0.0
    case Str(s) => s != ""
    case Arr(_) => true
    case Obj(_) => true
  }

  /** `a || b` */
  function Or(a: Value, b: Value): Value {
    if Truthy(a) then a else b
  }

  /** The property `key` of an object, `undefined` when it is absent. */
  function Field(fields: map<string, Value>, key: string): Value {
    if key in fields then fields[key] else Undefined
  }

  /**
   * `v.key` for a named (non-index) property: reading a property of `null`
   * or `undefined` throws a TypeError (None). Only own data properties of
   * objects are modelled; the names the app reads (`title`, `choices`,
   * `delta`, ...) are never inherited properties of arrays or strings.
   */
  function Member(v: Value, key: string): Option<Value> {
    match v
    case Undefined => None
    case Null => None
    case Obj(fields) => Some(Field(fields, key))
    case _ => Some(Undefined)
  }

  /** `v?.key`: `undefined` instead of a TypeError on `null` or `undefined`. */
  function OptionalMember(v: Value, key: string): Value {
    match Member(v, key)
    case None => Undefined
    case Some(r) => r
  }

  /** `v[0]`: the first element of an array, the first character of a string, the key "0" of an object. */
  function First(v: Value): Option<Value> {
    match v
    case Undefined => None
    case Null => None
    case Arr(items) => Some(if |items| > 0 then items[0] else Undefined)
    case Str(s) => Some(if |s| > 0 then Str([s[0]]) else Undefined)
    case Obj(fields) => Some(Field(fields, "0"))
    case _ => Some(Undefined)
  }

  /** `v?.[0]` */
  function OptionalFirst(v: Value): Value {
    match First(v)
    case None => Undefined
    case Some(r) => r
  }

  /** `typeof v === 'object' && v !== null && key in v`, for an object parsed from JSON. */
  predicate HasKey(v: Value, key: string) {
    v.Obj? && key in v.fields
  }
}
