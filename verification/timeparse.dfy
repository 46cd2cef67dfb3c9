/**
 * The two conversions between timestamps and property names that the time series
 * relies on: `String(n)` for an integer number (ECMA-262 section 7.1.12.1,
 * Number::toString, for magnitudes below 10^21) and the lenient
 * `parseInt(string, 10)` (ECMA-262 section 19.2.5).
 */
module TimeParse {

  /** The white space and line terminators that parseInt skips before the number. */
  predicate IsSpace(c: char) {
    var u := c as int;
    (0x09 <= u <= 0x0D) || u == 0x20 || u == 0xA0 || u == 0x1680 || (0x2000 <= u <= 0x200A)
    || u == 0x2028 || u == 0x2029 || u == 0x202F || u == 0x205F || u == 0x3000 || u == 0xFEFF
  }

  predicate IsDigit(c: char) {
    '0' <= c <= '9'
  }

  function DigitValue(c: char): (d: nat)
    requires IsDigit(c)
    ensures d < 10
  {
    (c as int) - ('0' as int)
  }

  function DigitChar(d: nat): (c: char)
    requires d < 10
    ensures IsDigit(c) && DigitValue(c) == d
  {
    (('0' as int) + d) as char
  }

  function TrimStart(s: string): string {
    if s != [] && IsSpace(s[0]) then TrimStart(s[1..]) else s
  }

  /** The length of the run of decimal digits at the start of `s`. */
  function DigitRun(s: string): (n: nat)
    ensures n <= |s|
    ensures forall i :: 0 <= i < n ==> IsDigit(s[i])
    ensures n < |s| ==> !IsDigit(s[n])
  {
    if s != [] && IsDigit(s[0]) then 1 + DigitRun(s[1..]) else 0
  }

  /** The value of a string of decimal digits, most significant first. */
  function DigitsValue(ds: string): nat
    requires forall i :: 0 <= i < |ds| ==> IsDigit(ds[i])
  {
    if ds == [] then 0 else 10 * DigitsValue(ds[..|ds| - 1]) + DigitValue(ds[|ds| - 1])
  }

  /** The value of the digit run at the start of `b`, or NaN (None) when there is none. */
  function LeadingNumber(b: string): Option<nat> {
    var n := DigitRun(b);
    if n == 0 then None else Some(DigitsValue(b[..n]))
  }

  /**
   * parseInt(s, 10): skip leading white space, take an optional sign and the longest
   * run of decimal digits; no digit at all is NaN (None). Whatever follows the
   * digits is ignored.
   */
  function ParseInt(s: string): Option<int> {
    var t := TrimStart(s);
    if t != [] && t[0] == '-' then
      match LeadingNumber(t[1..])
      case None => None
      case Some(v) => Some(-(v as int))
    else if t != [] && t[0] == '+' then
      match LeadingNumber(t[1..])
      case None => None
      case Some(v) => Some(v as int)
    else
      match LeadingNumber(t)
      case None => None
      case Some(v) => Some(v as int)
  }

  datatype Option<T> = None | Some(value: T)

  /** The decimal digits of a natural number, without leading zeros. */
  function Digits(n: nat): (ds: string)
    ensures |ds| > 0 && forall i :: 0 <= i < |ds| ==> IsDigit(ds[i])
    ensures |ds| > 1 ==> ds[0] != '0'
  {
    if n < 10 then [DigitChar(n)] else Digits(n / 10) + [DigitChar(n % 10)]
  }

  /** String(n) for an integer number: an optional minus sign and the digits. */
  function DecimalString(n: int): (s: string)
    ensures |s| > 0 && (n < 0 <==> s[0] == '-')
  {
    if n < 0 then "-" + Digits(-n) else Digits(n)
  }

  lemma {:induction false} DigitsValueOfDigits(n: nat)
    ensures DigitsValue(Digits(n)) == n
  {
    if n >= 10 {
      DigitsValueOfDigits(n / 10);
      var ds := Digits(n);
      assert ds[..|ds| - 1] == Digits(n / 10);
    }
  }

  lemma {:induction false} DigitRunAll(ds: string, rest: string)
    requires forall i :: 0 <= i < |ds| ==> IsDigit(ds[i])
    requires rest == [] || !IsDigit(rest[0])
    ensures DigitRun(ds + rest) == |ds|
    decreases |ds|
  {
    if ds != [] {
      assert (ds + rest)[0] == ds[0];
      assert (ds + rest)[1..] == ds[1..] + rest;
      DigitRunAll(ds[1..], rest);
    } else {
      assert ds + rest == rest;
    }
  }

  /** Digits followed by a non-digit read back as their value. */
  lemma LeadingDigits(ds: string, rest: string)
    requires |ds| > 0 && forall i :: 0 <= i < |ds| ==> IsDigit(ds[i])
    requires rest == [] || !IsDigit(rest[0])
    ensures LeadingNumber(ds + rest) == Some(DigitsValue(ds))
  {
    var s := ds + rest;
    assert DigitRun(s) == |ds| by {
      DigitRunAll(ds, rest);
    }
    assert s[..|ds|] == ds;
  }

  lemma ParseDigitsOf(m: nat, rest: string)
    requires rest == [] || !IsDigit(rest[0])
    ensures ParseInt(Digits(m) + rest) == Some(m)
  {
    var ds := Digits(m);
    DigitsValueOfDigits(m);
    LeadingDigits(ds, rest);
    var s := ds + rest;
    assert s[0] == ds[0];
    assert TrimStart(s) == s;
  }

  lemma ParseMinusDigitsOf(m: nat, rest: string)
    requires rest == [] || !IsDigit(rest[0])
    ensures ParseInt("-" + Digits(m) + rest) == Some(-(m as int))
  {
    var ds := Digits(m);
    DigitsValueOfDigits(m);
    LeadingDigits(ds, rest);
    var s := "-" + ds + rest;
    assert s[0] == '-' && s[1..] == ds + rest;
    assert TrimStart(s) == s;
  }

  /**
   * parseInt reads back the integer that String wrote, also when anything that does
   * not start with a digit follows it (parseInt("120abc") is 120).
   */
  lemma ParseDecimalString(n: int, rest: string)
    requires rest == [] || !IsDigit(rest[0])
    ensures ParseInt(DecimalString(n) + rest) == Some(n)
  {
    if n < 0 {
      ParseMinusDigitsOf(-n, rest);
      assert DecimalString(n) == "-" + Digits(-n);
    } else {
      ParseDigitsOf(n, rest);
    }
  }

  lemma {:induction false} TrimStartSuffix(s: string)
    ensures |TrimStart(s)| <= |s| && TrimStart(s) == s[|s| - |TrimStart(s)|..]
  {
    if s != [] && IsSpace(s[0]) {
      TrimStartSuffix(s[1..]);
    }
  }

  /** A string without a digit after the white space and sign is NaN. */
  lemma ParseIntNaN(s: string)
    requires forall i :: 0 <= i < |s| ==> !IsDigit(s[i])
    ensures ParseInt(s) == None
  {
    var t := TrimStart(s);
    TrimStartSuffix(s);
    var body := if t != [] && (t[0] == '-' || t[0] == '+') then t[1..] else t;
    if body != [] {
      assert body[0] == s[|s| - |body|];
    }
  }
}
