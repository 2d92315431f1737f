/** JavaScript values as they arrive from a parsed JSON request body, and the few
    operations of the language that the submission handler applies to them:
    truthiness (`!x`), strict equality with a number (`x === k`), indexing
    (`x[i]`) and reading a named property (`const { name } = x`). */
module Js {

  datatype Option<+T> = None | Some(value: T)

  /** A JSON value. Numbers are kept as exact reals: `===` on numbers compares
      values, so `1` and `1.0` are the same number. `Undefined` is never produced
      by the parser; it is what reading an absent property or index gives. */
  datatype Value =
    | Undefined
    | Null
    | Bool(b: bool)
    | Num(n: real)
    | Str(s: string)
    | Arr(elems: seq<Value>)
    | Obj(props: map<string, Value>)

  /** The falsy values of JSON are `undefined`, `null`, `false`, `0` and `""`;
      every array and object, even an empty one, is truthy. */
  predicate Truthy(v: Value) {
    match v
    case Undefined => false
    case Null => false
    case Bool(b) => b
    case Num(n) => n != 0.0
    case Str(s) => s != ""
    case Arr(_) => true
    case Obj(_) => true
  }

  /** Reading a property of `null` or `undefined` throws a TypeError. */
  predicate Nullish(v: Value) {
    v.Undefined? || v.Null?
  }

  /** `v === k` for a number `k`: only a number of the same value is strictly
      equal to it; strings, booleans, null and undefined never are. */
  predicate StrictEqualsNumber(v: Value, k: real) {
    v.Num? && v.n == k
  }

  function DigitChar(d: nat): (c: char)
    requires d < 10
    ensures '0' <= c <= '9'
  {
    ('0' as int + d) as char
  }

  /** The decimal text of a natural number: digits only, no leading zero, and
      reading it back gives the number (`DecimalStringRoundTrip`). For the small
      naturals used here (scores and indices below 10) it is what `String(n)` and
      template-literal interpolation print; from 10^21 up JavaScript switches to
      exponent notation, which is not modelled. */
  function DecimalString(n: nat): (s: string)
    ensures 1 <= |s|
    ensures forall k :: 0 <= k < |s| ==> '0' <= s[k] <= '9'
    ensures s[0] == '0' ==> n == 0
    ensures n < 10 ==> s == [DigitChar(n)]
  {
    if n < 10 then [DigitChar(n)] else DecimalString(n / 10) + [DigitChar(n % 10)]
  }

  /** The number a string of decimal digits denotes. */
  function DigitsValue(s: string): nat
    requires forall k :: 0 <= k < |s| ==> '0' <= s[k] <= '9'
  {
    if s == [] then 0
    else DigitsValue(s[..|s| - 1]) * 10 + (s[|s| - 1] as int - '0' as int)
  }

  lemma {:induction false} DecimalStringRoundTrip(n: nat)
    ensures DigitsValue(DecimalString(n)) == n
  {
    if n >= 10 {
      var s := DecimalString(n);
      assert s[..|s| - 1] == DecimalString(n / 10);
      DecimalStringRoundTrip(n / 10);
    }
  }

  /** `v.key` for a property name that no array, string, number or boolean owns
      and that no prototype supplies (the handler reads only `name`, `email` and
      `answers`): only an object may have it. */
  function Get(v: Value, key: string): Value
    requires !Nullish(v)
  {
    match v
    case Obj(m) => if key in m then m[key] else Undefined
    case _ => Undefined
  }

  /** `v[i]`: an array element or a one-character string when `i` is below the
      length, the property named by the decimal text of `i` on an object, and
      `undefined` everywhere else (past the end, on numbers and booleans). */
  function Index(v: Value, i: nat): Value
    requires !Nullish(v)
  {
    match v
    case Arr(e) => if i < |e| then e[i] else Undefined
    case Str(s) => if i < |s| then Str([s[i]]) else Undefined
    case Obj(_) => Get(v, DecimalString(i))
    case _ => Undefined
  }
}
