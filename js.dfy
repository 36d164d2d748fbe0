/** The few JavaScript value semantics the extension's decisions depend on:
    truthiness, the `&&` operator, and the decimal text of a non-negative
    integer as produced by a template literal. */
module Js {

  datatype Option<+T> = None | Some(value: T)

  /** The JavaScript values the modelled code handles. Numbers are integers
      here; NaN, fractions and the other JavaScript types are not needed. */
  datatype JsValue = Undefined | Str(s: string) | Num(n: int)

  /** JavaScript truthiness: `undefined`, `""` and `0` are falsy. */
  predicate Truthy(v: JsValue)
    ensures Truthy(v) <==> v != Undefined && v != Str("") && v != Num(0)
  {
    match v
    case Undefined => false
    case Str(s) => s != ""
    case Num(n) => n != 0
  }

  /** `a && b`: yields `a` itself when it is falsy, otherwise `b`. */
  function And(a: JsValue, b: JsValue): (r: JsValue)
    ensures Truthy(r) <==> Truthy(a) && Truthy(b)
    ensures !Truthy(a) ==> r == a
    ensures Truthy(a) ==> r == b
  {
    if Truthy(a) then b else a
  }

  /** An optional string property as JavaScript sees it: absent is `undefined`. */
  function OfString(o: Option<string>): (v: JsValue)
    ensures Truthy(v) <==> o.Some? && o.value != ""
  {
    if o.Some? then Str(o.value) else Undefined
  }

  /** An optional number property as JavaScript sees it: absent is `undefined`. */
  function OfNumber(o: Option<int>): (v: JsValue)
    ensures Truthy(v) <==> o.Some? && o.value != 0
  {
    if o.Some? then Num(o.value) else Undefined
  }

  predicate IsDigit(c: char) {
    '0' <= c <= '9'
  }

  predicate AllDigits(s: string) {
    forall i :: 0 <= i < |s| ==> IsDigit(s[i])
  }

  function DigitChar(d: nat): (c: char)
    requires d < 10
    ensures IsDigit(c)
  {
    "0123456789"[d]
  }

  function DigitValue(c: char): (d: nat)
    requires IsDigit(c)
    ensures d < 10
  {
    (c as int) - ('0' as int)
  }

  /** The text of a non-negative integer in a template literal: its decimal
      digits, most significant first, with no leading zero. */
  function NumberToString(n: nat): (s: string)
    ensures |s| >= 1 && AllDigits(s)
    ensures s[0] == '0' ==> n == 0
  {
    if n < 10 then [DigitChar(n)] else NumberToString(n / 10) + [DigitChar(n % 10)]
  }

  /** The value of a string of decimal digits. */
  function ParseDigits(s: string): nat
    requires AllDigits(s)
  {
    if s == [] then 0 else 10 * ParseDigits(s[..|s| - 1]) + DigitValue(s[|s| - 1])
  }

  /** Reading the decimal text back gives the number it was made from. */
  lemma {:induction false} ParseNumberToString(n: nat)
    ensures ParseDigits(NumberToString(n)) == n
  {
    var s := NumberToString(n);
    if n >= 10 {
      ParseNumberToString(n / 10);
      assert s[..|s| - 1] == NumberToString(n / 10);
      assert DigitValue(DigitChar(n % 10)) == n % 10;
    } else {
      assert DigitValue(DigitChar(n)) == n;
    }
  }
}
