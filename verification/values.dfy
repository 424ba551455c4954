/** JavaScript values as the layout code of dist/main.js meets them: the
    cells of the flat `table` array, the numbers computed from them, and the
    implicit string-to-number coercion that `table[i + 3] * 140` performs. */
module JsValues {

  /** An optional value, used where an inverse mapping may have no answer. */
  datatype Option<T> = None | Some(value: T)

  /** A value read from the `table` array: a string, an integer, or
      `undefined`, which is what JavaScript reads at an index past the end. */
  datatype Value = Str(s: string) | Num(n: int) | Undefined

  /** A JavaScript number restricted to what the integer layouts produce:
      an integer, or NaN once `undefined` or a non-numeral took part. */
  datatype Number = Int(v: int) | NaN

  predicate IsDigit(c: char) {
    '0' <= c <= '9'
  }

  predicate AllDigits(s: string) {
    forall i :: 0 <= i < |s| ==> IsDigit(s[i])
  }

  function DigitValue(c: char): (d: nat)
    requires IsDigit(c)
    ensures d < 10
  {
    (c as int) - ('0' as int)
  }

  function DigitChar(d: nat): (c: char)
    requires d < 10
    ensures IsDigit(c) && DigitValue(c) == d
  {
    (('0' as int) + d) as char
  }

  /** The value of a string of decimal digits, most significant digit first. */
  function DigitsValue(s: string): nat
    requires AllDigits(s)
  {
    if |s| == 0 then 0 else DigitsValue(s[..|s| - 1]) * 10 + DigitValue(s[|s| - 1])
  }

  /** JavaScript's `Number(s)` for the strings that name integers: the empty
      string is 0, a run of digits is its decimal value, and a minus sign
      followed by digits is the negated value. */
  function StringToNumber(s: string): (r: Number)
    ensures s == "" ==> r == Int(0)
    ensures r.Int? && 0 < |s| && s[0] != '-' ==> AllDigits(s) && r.v >= 0
    ensures r.Int? && 0 < |s| && s[0] == '-' ==> 1 < |s| && AllDigits(s[1..]) && r.v <= 0
    ensures 0 < |s| && !IsDigit(s[0]) && s[0] != '-' ==> r == NaN
  {
    if |s| == 0 then Int(0)
    else if AllDigits(s) then Int(DigitsValue(s))
    else if s[0] == '-' && |s| > 1 && AllDigits(s[1..]) then Int(0 - DigitsValue(s[1..]) as int)
    else NaN
  }

  /** The numeric coercion JavaScript applies to an operand of `*`. */
  function ToNumber(v: Value): (r: Number)
    ensures v.Undefined? ==> r == NaN
    ensures v.Num? ==> r == Int(v.n)
  {
    match v
    case Num(n) => Int(n)
    case Str(s) => StringToNumber(s)
    case Undefined => NaN
  }

  /** `a * k` for an integer constant `k`: NaN is absorbing. */
  function Times(a: Number, k: int): Number {
    match a
    case Int(v) => Int(v * k)
    case NaN => NaN
  }

  /** `a + k` for an integer constant `k`: NaN is absorbing. */
  function Plus(a: Number, k: int): Number {
    match a
    case Int(v) => Int(v + k)
    case NaN => NaN
  }

  /** Unary `- a`. */
  function Negate(a: Number): Number {
    match a
    case Int(v) => Int(-v)
    case NaN => NaN
  }

  /** The plain decimal numeral of a natural number. JavaScript writes this
      form for integers below 10^21; from there on it switches to exponent
      notation, which this model does not produce. */
  function NatToString(n: nat): (s: string)
    ensures 0 < |s| && AllDigits(s)
  {
    if n < 10 then [DigitChar(n)] else NatToString(n / 10) + [DigitChar(n % 10)]
  }

  /** The plain decimal numeral of an integer, with a leading minus sign
      when negative. */
  function IntToString(n: int): string {
    if n < 0 then "-" + NatToString(-n) else NatToString(n)
  }

  lemma {:induction false} NatToStringRoundTrip(n: nat)
    ensures DigitsValue(NatToString(n)) == n
  {
    var s := NatToString(n);
    if n >= 10 {
      NatToStringRoundTrip(n / 10);
      assert s[..|s| - 1] == NatToString(n / 10);
      assert s[|s| - 1] == DigitChar(n % 10);
    }
  }

  /** Coercing the numeral of an integer gives back that integer, so a table
      cell written as text lays out exactly like the number it spells. */
  lemma NumeralRoundTrip(n: int)
    ensures StringToNumber(IntToString(n)) == Int(n)
  {
    if n < 0 {
      var s := IntToString(n);
      NatToStringRoundTrip(-n);
      assert s[1..] == NatToString(-n);
      assert !IsDigit(s[0]);
    } else {
      NatToStringRoundTrip(n);
    }
  }
}
