/**
 * JavaScript values as a handler sees them after `JSON.parse` of the request
 * body, and the two JavaScript conversions the handlers rely on: truthiness
 * (`!x`, `x || d`, `x ? a : b`) and string conversion inside template literals.
 */
module Js {

  datatype Value =
    | Undefined
    | Null
    | Bool(b: bool)
    | Num(n: int)
    | Str(s: string)
    | Arr(elems: seq<Value>)  // an array; always truthy, even when empty
    | Obj                     // any other object; always truthy

  /** A parsed JSON object; a property missing from the map reads as `undefined`. */
  type Object = map<string, Value>

  /** Property access `o.name`. */
  function Prop(o: Object, name: string): Value {
    if name in o then o[name] else Undefined
  }

  /** JavaScript truthiness: `undefined`, `null`, `false`, `0` and `""` are falsy. */
  predicate Truthy(v: Value) {
    match v
    case Undefined => false
    case Null => false
    case Bool(b) => b
    case Num(n) => n != 0
    case Str(s) => s != ""
    case Arr(_) => true
    case Obj => true
  }

  /** `a || b`: the first operand when it is truthy, the second otherwise. */
  function Or(a: Value, b: Value): Value {
    if Truthy(a) then a else b
  }

  /** `v ? 'true' : 'false'`, the string form in which `isPublic` is stored. */
  function BoolString(v: Value): (r: string)
    ensures r == "true" || r == "false"
    ensures r == "true" <==> Truthy(v)
  {
    if Truthy(v) then "true" else "false"
  }

  /** `${v}` inside a template literal. */
  function ToString(v: Value): string
    decreases v, 1
  {
    match v
    case Undefined => "undefined"
    case Null => "null"
    case Bool(b) => if b then "true" else "false"
    case Num(n) => IntToString(n)
    case Str(s) => s
    case Arr(es) => Join(es, 0)
    case Obj => "[object Object]"
  }

  /**
   * `Array.prototype.join` with ",", from index `i` on, as `${array}` uses
   * it: `undefined` and `null` elements become "", the others their string.
   */
  function Join(es: seq<Value>, i: nat): string
    requires i <= |es|
    decreases Arr(es), 0, |es| - i
  {
    if i == |es| then ""
    else
      var e := if es[i].Undefined? || es[i].Null? then "" else ToString(es[i]);
      if i + 1 == |es| then e else e + "," + Join(es, i + 1)
  }

  /**
   * A one-element array reads in a template literal as its element does,
   * so `${["c1"]}` is "c1", and the empty array reads as "".
   */
  lemma {:induction false} ArrayToString(v: Value)
    requires !v.Undefined? && !v.Null?
    ensures ToString(Arr([v])) == ToString(v)
    ensures ToString(Arr([])) == ""
  {
    assert ToString(Arr([v])) == Join([v], 0);
  }

  function IntToString(n: int): string {
    if n < 0 then "-" + NatToString(-n) else NatToString(n)
  }

  function NatToString(n: nat): string
    decreases n
  {
    if n < 10 then [DigitChar(n)] else NatToString(n / 10) + [DigitChar(n % 10)]
  }

  function DigitChar(d: nat): char
    requires d < 10
  {
    "0123456789"[d]
  }
}
