/**
 * The JavaScript values that `JSON.parse` produces, with the parts of the language
 * the ingestion code leans on: truthiness and `||`, property access (which throws
 * on `null` and `undefined`), optional chaining, and conversion to a string.
 */
module Js {
  import opened Common
  import opened Text

  /**
   * A JavaScript value as parsed from JSON, plus `undefined`. Numbers are integers
   * here. An object keeps its members in source order; a repeated member name
   * resolves to its last occurrence, as `JSON.parse` does.
   */
  datatype Value =
    | Undefined
    | Null
    | Bool(b: bool)
    | Num(n: int)
    | Str(s: string)
    | Arr(elems: seq<Value>)
    | Obj(members: seq<(string, Value)>)

  /** A thrown `TypeError`. */
  datatype Exception = TypeError

  /** Falsy values: `undefined`, `null`, `false`, `0` and `""`. */
  predicate Truthy(v: Value) {
    match v
    case Undefined => false
    case Null => false
    case Bool(b) => b
    case Num(n) => n != 0
    case Str(s) => s != ""
    case Arr(_) => true
    case Obj(_) => true
  }

  predicate Nullish(v: Value) {
    v.Undefined? || v.Null?
  }

  /** `a || b`: the first operand when it is truthy, otherwise the second. */
  function Or(a: Value, b: Value): (r: Value)
    ensures Truthy(r) <==> Truthy(a) || Truthy(b)
  {
    if Truthy(a) then a else b
  }

  /** The value of the last member named `key`, or `undefined`. */
  function Member(members: seq<(string, Value)>, key: string): Value {
    if members == [] then Undefined
    else if members[|members| - 1].0 == key then members[|members| - 1].1
    else Member(members[..|members| - 1], key)
  }

  predicate HasMember(members: seq<(string, Value)>, key: string) {
    exists k :: 0 <= k < |members| && members[k].0 == key
  }

  /**
   * `v.key` for a key that names no built-in property: `null` and `undefined` throw,
   * other primitives and arrays give `undefined`, objects give their member.
   */
  function Get(v: Value, key: string): (r: Result<Value, Exception>)
    ensures r.Err? <==> Nullish(v)
  {
    match v
    case Undefined => Err(TypeError)
    case Null => Err(TypeError)
    case Obj(ms) => Ok(Member(ms, key))
    case _ => Ok(Undefined)
  }

  /** `v?.key`: `undefined` when `v` is `null` or `undefined`. */
  function GetOpt(v: Value, key: string): Value {
    if Nullish(v) then Undefined else Get(v, key).value
  }

  /** `for (const x of v)`: arrays give their elements, strings their characters, anything else throws. */
  function Iterate(v: Value): Result<seq<Value>, Exception> {
    match v
    case Arr(elems) => Ok(elems)
    case Str(s) => Ok(seq(|s|, k requires 0 <= k < |s| => Str([s[k]])))
    case _ => Err(TypeError)
  }

  /**
   * `String(v)`, and `v.toString()` on a value that has the method: an object parsed
   * from JSON with its own `toString` member cannot be converted (the member is not
   * callable and `valueOf` returns the object itself), so that throws.
   */
  function ToStr(v: Value): Result<string, Exception>
    decreases v, 1
  {
    match v
    case Undefined => Ok("undefined")
    case Null => Ok("null")
    case Bool(b) => Ok(if b then "true" else "false")
    case Num(n) => Ok(IntToString(n))
    case Str(s) => Ok(s)
    case Arr(elems) => Join(v, elems)
    case Obj(ms) => if HasMember(ms, "toString") then Err(TypeError) else Ok("[object Object]")
  }

  /** `elems.join(",")`, where `null` and `undefined` elements become empty strings. */
  function Join(parent: Value, elems: seq<Value>): Result<string, Exception>
    requires forall k :: 0 <= k < |elems| ==> elems[k] < parent
    decreases parent, 0, |elems|
  {
    if elems == [] then Ok("")
    else
      var head :- if Nullish(elems[0]) then Ok("") else ToStr(elems[0]);
      if |elems| == 1 then Ok(head)
      else
        var rest :- Join(parent, elems[1..]);
        Ok(head + "," + rest)
  }
}
