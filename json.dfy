/**
 * The JSON scalars the SEC documents carry, and the conversions src/ingest_sec.py applies
 * to them: truth (`if item.get("fy")`), `int(...)`, `float(...)` and `str(...)`.
 */
module Json {
  import opened Wrappers
  import opened Text

  datatype Scalar = JNull | JBool(b: bool) | JInt(i: int) | JNum(r: real) | JStr(s: string)

  /** Python's truth value of a decoded JSON scalar. */
  predicate Truthy(v: Scalar)
  {
    match v
    case JNull => false
    case JBool(b) => b
    case JInt(i) => i != 0
    case JNum(r) => r != 0.0
    case JStr(s) => s != ""
  }

  predicate IsDigit(c: char)
  {
    '0' <= c <= '9'
  }

  predicate AllDigits(s: string)
  {
    forall k :: 0 <= k < |s| ==> IsDigit(s[k])
  }

  /** The number a string of decimal digits spells. */
  function DigitsValue(s: string): nat
    requires AllDigits(s)
  {
    if s == [] then 0
    else DigitsValue(s[..|s| - 1]) * 10 + (s[|s| - 1] as int - '0' as int)
  }

  function Pow10(n: nat): (p: nat)
    ensures p >= 1
  {
    if n == 0 then 1 else 10 * Pow10(n - 1)
  }

  /** `str(n)` for a natural number: its decimal digits, without leading zeros. */
  function Digits(n: nat): (s: string)
    ensures |s| >= 1 && AllDigits(s)
    ensures s[0] == '0' ==> n == 0
  {
    if n < 10 then ['0' + n as char]
    else Digits(n / 10) + ['0' + (n % 10) as char]
  }

  /** `str(i)` for an integer. */
  function DecimalString(i: int): string
  {
    if i < 0 then "-" + Digits(-i) else Digits(i)
  }

  /** Reading the digits back gives the number. */
  lemma {:induction false} DigitsRoundTrip(n: nat)
    ensures DigitsValue(Digits(n)) == n
  {
    if n >= 10 {
      var s := Digits(n);
      assert s[..|s| - 1] == Digits(n / 10);
      DigitsRoundTrip(n / 10);
    }
  }

  /** An optional sign, then the rest. */
  function SplitSign(t: string): (bool, string)
  {
    if t != [] && (t[0] == '-' || t[0] == '+') then (t[0] == '-', t[1..]) else (false, t)
  }

  /**
   * `int(s)` for a string: surrounding whitespace is ignored, then an optional sign and at
   * least one decimal digit; anything else raises ValueError, here None.
   */
  function ParseInt(s: string): Option<int>
  {
    var split := SplitSign(Strip(s));
    SignedInt(split.0, split.1)
  }

  function SignedInt(negative: bool, body: string): Option<int>
  {
    if body != [] && AllDigits(body) then
      var magnitude: int := DigitsValue(body);
      Some(if negative then -magnitude else magnitude)
    else None
  }

  /** Python's `str(i)` reads back through `int(...)`. */
  lemma ParseIntRoundTrip(i: int)
    ensures ParseInt(DecimalString(i)) == Some(i)
  {
    var n: nat := if i < 0 then -i else i;
    DecimalStringParts(i);
    DigitsRoundTrip(n);
  }

  /** `str(i)` has no surrounding whitespace, and past its sign it is the digits of |i|. */
  lemma DecimalStringParts(i: int)
    ensures var n: nat := if i < 0 then -i else i;
      Strip(DecimalString(i)) == DecimalString(i) && SplitSign(DecimalString(i)) == (i < 0, Digits(n))
  {
    var s := DecimalString(i);
    var n: nat := if i < 0 then -i else i;
    var d := Digits(n);
    DigitIsNotSpace(d[0]);
    DigitIsNotSpace(d[|d| - 1]);
    assert s[|s| - 1] == d[|d| - 1];
    assert !IsSpace(s[0]);
    StripOfUnpadded(s);
  }

  lemma DigitIsNotSpace(c: char)
    requires IsDigit(c)
    ensures !IsSpace(c) && c != '-' && c != '+' && c != '.'
  {
  }

  /** A string that neither starts nor ends with whitespace is its own strip. */
  lemma StripOfUnpadded(s: string)
    requires s != [] && !IsSpace(s[0]) && !IsSpace(s[|s| - 1])
    ensures Strip(s) == s
  {
  }

  /** The position of the first c in s, or |s|. */
  function Find(s: string, c: char): (k: nat)
    ensures k <= |s| && (k < |s| ==> s[k] == c)
    ensures forall j :: 0 <= j < k ==> s[j] != c
  {
    if s == [] then 0
    else if s[0] == c then 0
    else 1 + Find(s[1..], c)
  }

  /**
   * `float(s)` for a plain decimal string: surrounding whitespace ignored, an optional sign,
   * digits with at most one decimal point, at least one digit in all.
   */
  function ParseDecimal(s: string): Option<real>
  {
    var split := SplitSign(Strip(s));
    SignedDecimal(split.0, split.1)
  }

  function SignedDecimal(negative: bool, body: string): Option<real>
  {
    var (whole, fraction) := SplitPoint(body);
    if |whole| + |fraction| > 0 && AllDigits(whole) && AllDigits(fraction) then
      var magnitude := DigitsValue(whole) as real + FractionValue(fraction);
      Some(if negative then -magnitude else magnitude)
    else None
  }

  /** The digits before the first decimal point, and those after it. */
  function SplitPoint(body: string): (string, string)
  {
    var k := Find(body, '.');
    (body[..k], if k < |body| then body[k + 1..] else [])
  }

  /** The value of the digits after a decimal point. */
  function FractionValue(fraction: string): real
    requires AllDigits(fraction)
  {
    DigitsValue(fraction) as real / Pow10(|fraction|) as real
  }

  /** `int(x)` of a float: towards zero. */
  function Truncate(r: real): int
  {
    if r >= 0.0 then r.Floor else -((-r).Floor)
  }

  /** `int(v)`: None where Python raises (null, or a string that is not an integer). */
  function PyInt(v: Scalar): Option<int>
  {
    match v
    case JNull => None
    case JBool(b) => Some(if b then 1 else 0)
    case JInt(i) => Some(i)
    case JNum(r) => Some(Truncate(r))
    case JStr(s) => ParseInt(s)
  }

  /** `float(v)`: None where Python raises. */
  function PyFloat(v: Scalar): Option<real>
  {
    match v
    case JNull => None
    case JBool(b) => Some(if b then 1.0 else 0.0)
    case JInt(i) => Some(i as real)
    case JNum(r) => Some(r)
    case JStr(s) => ParseDecimal(s)
  }

  lemma NoPointInDigits(s: string)
    requires AllDigits(s)
    ensures Find(s, '.') == |s|
  {
    var k := Find(s, '.');
    if k < |s| {
      DigitIsNotSpace(s[k]);
    }
  }

  /** `int` of a float drops the fraction and keeps the sign. */
  lemma TruncateBounds(r: real)
    ensures var t := Truncate(r);
      (r >= 0.0 ==> 0 <= t && t as real <= r < t as real + 1.0)
      && (r < 0.0 ==> t <= 0 && t as real - 1.0 < r <= t as real)
  {
  }

  /** `float` of an integer string is that integer. */
  lemma ParseDecimalOfInteger(i: int)
    ensures ParseDecimal(DecimalString(i)) == Some(i as real)
  {
    var n: nat := if i < 0 then -i else i;
    DecimalStringParts(i);
    DigitsRoundTrip(n);
    DecimalOfDigits(i < 0, Digits(n), i);
  }

  /** Without a decimal point, `float` reads the digits as a whole number. */
  lemma DecimalOfDigits(negative: bool, body: string, i: int)
    requires body != [] && AllDigits(body)
    requires i == if negative then -(DigitsValue(body) as int) else DigitsValue(body)
    ensures SignedDecimal(negative, body) == Some(i as real)
  {
    WholeDecimal(negative, body);
  }

  lemma WholeDecimal(negative: bool, body: string)
    requires body != [] && AllDigits(body)
    ensures var m := DigitsValue(body) as real;
      SignedDecimal(negative, body) == Some(if negative then -m else m)
  {
    PointlessSplit(body);
    NoFraction();
  }

  /** Digits alone have no decimal point: all of them are the whole part. */
  lemma PointlessSplit(body: string)
    requires AllDigits(body)
    ensures SplitPoint(body) == (body, [])
  {
    NoPointInDigits(body);
    assert body[..|body|] == body;
  }

  /** No digits after the point are worth nothing. */
  lemma NoFraction()
    ensures FractionValue([]) == 0.0
  {
    assert DigitsValue([]) == 0 && Pow10(0) == 1;
  }

  /**
   * `str(v)` for the scalars a ticker table holds. Python prints a float by its shortest
   * round-trip form, which is not modelled: None.
   */
  function PyStr(v: Scalar): Option<string>
  {
    match v
    case JNull => Some("None")
    case JBool(b) => Some(if b then "True" else "False")
    case JInt(i) => Some(DecimalString(i))
    case JNum(_) => None
    case JStr(s) => Some(s)
  }
}
