/** JavaScript values as the reactive store holds them, and the two host
    conversions the updaters rely on: truthiness and conversion to a DOMString. */
module Values {

  datatype Option<+T> = None | Some(value: T)

  /** A store value. Objects are held by reference (`Ref`), so `===` between two
      values is exactly equality of this datatype. Numbers are integers. */
  datatype Value =
    | Undefined
    | Null
    | Bool(b: bool)
    | Num(n: int)
    | Str(s: string)
    | Ref(obj: nat)

  /** ToBoolean: `false`, `0`, `""`, `null` and `undefined` are falsy; every object is truthy. */
  predicate Truthy(v: Value) {
    match v
    case Undefined => false
    case Null => false
    case Bool(b) => b
    case Num(n) => n != 0
    case Str(s) => s != ""
    case Ref(_) => true
  }

  predicate IsDigit(c: char) {
    '0' as int <= c as int <= '9' as int
  }

  function Digit(d: nat): (c: char)
    requires d < 10
    ensures IsDigit(c) && c as int - '0' as int == d
  {
    ['0', '1', '2', '3', '4', '5', '6', '7', '8', '9'][d]
  }

  /** The decimal digits of `n`, most significant first, without leading zeros. */
  function NatToDecimal(n: nat): (s: string)
    ensures s != [] && forall i :: 0 <= i < |s| ==> IsDigit(s[i])
    ensures |s| > 1 ==> s[0] != '0'
    ensures DecimalValue(s) == n
  {
    if n < 10 then [Digit(n)] else NatToDecimal(n / 10) + [Digit(n % 10)]
  }

  /** The number a string of decimal digits denotes. */
  function DecimalValue(s: string): nat
    requires forall i :: 0 <= i < |s| ==> IsDigit(s[i])
  {
    if s == [] then 0
    else
      assert IsDigit(s[|s| - 1]);
      10 * DecimalValue(s[..|s| - 1]) + (s[|s| - 1] as int - '0' as int)
  }

  /** Number-to-string for integers: an optional minus sign and the decimal digits. */
  function IntToDecimal(n: int): string {
    if n < 0 then "-" + NatToDecimal(-n) else NatToDecimal(n)
  }

  /** The string `innerHTML` or an input's `value` ends up holding when a value
      is assigned to it: `null` becomes the empty string, `undefined` the word
      "undefined", a plain object "[object Object]". */
  function DomString(v: Value): string {
    match v
    case Undefined => "undefined"
    case Null => ""
    case Bool(b) => if b then "true" else "false"
    case Num(n) => IntToDecimal(n)
    case Str(s) => s
    case Ref(_) => "[object Object]"
  }

  /** The string `textContent` ends up holding when a value is assigned to it.
      The attribute is nullable, so `undefined` is converted to `null`, and both
      leave the node's text empty; any other value converts as for `innerHTML`. */
  function TextString(v: Value): string {
    if v.Undefined? || v.Null? then "" else DomString(v)
  }
}
