/** JSON-like values as a client sends them, with the two JavaScript conversions
    the coordinator applies to them: truthiness (`!!v`, `a || b`) and `String(v)`. */
module JsValues {

  /** `Number.MAX_SAFE_INTEGER`, 2^53 - 1: the largest integer a JSON number keeps exactly. */
  const MAX_SAFE_INTEGER: int := 0x1F_FFFF_FFFF_FFFF

  /** An integer that survives JSON parsing unrounded. Its magnitude is also far below
      10^21, so `String(n)` writes it in plain decimal notation, never in exponent form. */
  type SafeInt = n: int | -MAX_SAFE_INTEGER <= n <= MAX_SAFE_INTEGER

  /** A payload field. Objects, arrays, non-integral numbers and integers outside the
      safe range are not modelled. */
  datatype Value = Undefined | Null | Bool(b: bool) | Num(n: SafeInt) | Str(s: string)

  /** JavaScript truthiness: the falsy values are `undefined`, `null`, `false`, `0` and `""`. */
  predicate Truthy(v: Value)
    ensures Truthy(v) <==> v !in {Undefined, Null, Bool(false), Num(0), Str("")}
  {
    match v
    case Undefined => false
    case Null => false
    case Bool(b) => b
    case Num(n) => n != 0
    case Str(s) => s != ""
  }

  /** `a || b`: the first operand when it is truthy, otherwise the second. */
  function Or(a: Value, b: Value): (r: Value)
    ensures Truthy(b) ==> Truthy(r)
    ensures r == a || r == b
  {
    if Truthy(a) then a else b
  }

  /** The decimal digit `d` as a character. */
  function DigitChar(d: nat): (c: char)
    requires d < 10
    ensures '0' <= c <= '9'
  {
    (('0' as int) + d) as char
  }

  /** The number a string of decimal digits denotes, read most significant digit first. */
  function DecimalValue(s: string): (v: int)
  {
    if s == [] then 0 else DecimalValue(s[..|s| - 1]) * 10 + (s[|s| - 1] as int - '0' as int)
  }

  /** The number an optionally signed decimal numeral denotes. */
  function NumeralValue(s: string): (v: int)
  {
    if |s| > 0 && s[0] == '-' then -DecimalValue(s[1..]) else DecimalValue(s)
  }

  /** Decimal notation of a natural number, without leading zeros; reading it back gives `n`. */
  function NatToString(n: nat): (r: string)
    ensures |r| >= 1
    ensures |r| == 1 <==> n < 10
    ensures forall i :: 0 <= i < |r| ==> '0' <= r[i] <= '9'
    ensures r[0] == '0' ==> n == 0
    ensures DecimalValue(r) == n
    decreases n
  {
    if n < 10 then [DigitChar(n)]
    else
      var r := NatToString(n / 10) + [DigitChar(n % 10)];
      assert r[..|r| - 1] == NatToString(n / 10);
      r
  }

  /** `String(n)` for a safe integer `n`: a minus sign exactly for negative `n`, then
      the decimal notation of its magnitude; reading the numeral back gives `n`. */
  function IntToString(n: SafeInt): (r: string)
    ensures |r| >= 1
    ensures r[0] == '-' <==> n < 0
    ensures forall i :: 0 < i < |r| ==> '0' <= r[i] <= '9'
    ensures r[0] == '0' ==> r == "0"
    ensures n < 0 ==> |r| >= 2 && r[1] != '0'
    ensures NumeralValue(r) == n
  {
    if n < 0 then
      var r := "-" + NatToString(-n);
      assert r[1..] == NatToString(-n);
      r
    else NatToString(n)
  }

  /** JavaScript `String(v)`. Only the empty text converts to "", and a number converts
      to a numeral denoting it. */
  function ToStr(v: Value): (r: string)
    ensures r == "" <==> v == Str("")
    ensures v.Str? ==> r == v.s
    ensures v.Num? ==> NumeralValue(r) == v.n && |r| >= 1
    ensures v.Num? ==> (r[0] == '0' ==> r == "0") && (v.n < 0 ==> |r| >= 2 && r[1] != '0')
  {
    match v
    case Undefined => "undefined"
    case Null => "null"
    case Bool(b) => if b then "true" else "false"
    case Num(n) => IntToString(n)
    case Str(s) => s
  }

  /** Distinct naturals have distinct decimal notations. */
  lemma NatToStringInjective(a: nat, b: nat)
    requires NatToString(a) == NatToString(b)
    ensures a == b
  {
    calc {
      a;
      DecimalValue(NatToString(a));
      DecimalValue(NatToString(b));
      b;
    }
  }

  /** Distinct integers have distinct `String(...)` forms. */
  lemma IntToStringInjective(a: SafeInt, b: SafeInt)
    requires IntToString(a) == IntToString(b)
    ensures a == b
  {
    calc {
      a;
      NumeralValue(IntToString(a));
      NumeralValue(IntToString(b));
      b;
    }
  }
}
