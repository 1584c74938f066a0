/**
 * The JavaScript values that the modelled code inspects, and the two ways
 * an evaluation can end: with a value, or by throwing.
 */
module Js {

  datatype Option<+T> = None | Some(value: T)

  /** A finished evaluation: its value, or the message of the error it threw. */
  datatype Result<+T> = Ok(value: T) | Throw(message: string)

  /** The message a property access on `undefined` or `null` throws. */
  const TypeErrorMessage := "TypeError"

  /**
   * The JavaScript values the modelled code reads or produces. Numbers are
   * integers or NaN; an object is its own enumerable properties.
   */
  datatype Value =
    | Undefined
    | Null
    | Bool(b: bool)
    | Num(n: int)
    | NaN
    | Str(s: string)
    | Arr(items: seq<Value>)
    | Obj(fields: map<string, Value>)
    | Promise(settled: Value)

  /** ToBoolean: what `if (v)`, `!v`, `v && w` and `v || w` test. */
  predicate Truthy(v: Value) {
    match v
    case Undefined => false
    case Null => false
    case Bool(b) => b
    case Num(n) => n != 0
    case NaN => false
    case Str(s) => s != ""
    case Arr(_) => true
    case Obj(_) => true
    case Promise(_) => true
  }

  /** `a || b`: the first operand when it is truthy, else the second. */
  function Or(a: Value, b: Value): Value {
    if Truthy(a) then a else b
  }

  /** `a && b`: the first operand when it is falsy, else the second. */
  function And(a: Value, b: Value): Value {
    if Truthy(a) then b else a
  }

  /** Reading property `key` of an object: `undefined` when it is absent. */
  function Get(fields: map<string, Value>, key: string): Value {
    if key in fields then fields[key] else Undefined
  }

  /** Every promise is truthy, whatever it settles to. */
  lemma PromiseIsTruthy(v: Value)
    ensures Truthy(Promise(v))
  {
  }
}
