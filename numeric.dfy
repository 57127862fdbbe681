/**
 * JavaScript's number parsing and printing as the source uses it:
 * `Number.prototype.toString(radix)`, `parseInt(s, radix)`, `parseFloat(s)`
 * and `Number(s)`. Numbers are exact (`int`, `real`); `None` stands for `NaN`.
 */
module Numeric {
  import opened Common
  import opened Text

  /** The value of an ASCII digit or letter as a digit (letters in either case count 10..35), or -1. */
  function DigitOf(c: char): (d: int)
    ensures -1 <= d < 36
    ensures d == -1 <==> !(IsDigitChar(c) || IsLowerAscii(c) || IsUpperAscii(c))
  {
    if IsDigitChar(c) then c as int - '0' as int
    else if IsLowerAscii(c) then c as int - 'a' as int + 10
    else if IsUpperAscii(c) then c as int - 'A' as int + 10
    else -1
  }

  predicate IsRadixDigit(c: char, radix: nat) { 0 <= DigitOf(c) < radix }

  predicate AllRadixDigits(s: string, radix: nat) { forall i :: 0 <= i < |s| ==> IsRadixDigit(s[i], radix) }

  /** The digit `toString(radix)` prints for `d`: `0-9` then lower-case `a-z`. */
  function DigitChar(d: nat): (c: char)
    requires d < 36
    ensures DigitOf(c) == d
    ensures IsDigitChar(c) || IsLowerAscii(c)
  {
    if d < 10 then ('0' as int + d) as char else ('a' as int + d - 10) as char
  }

  /** The number a string of digits denotes in the given radix, most significant digit first. */
  function ValueOf(ds: string, radix: nat): nat
    requires AllRadixDigits(ds, radix)
  {
    if ds == [] then 0 else ValueOf(ds[..|ds| - 1], radix) * radix + DigitOf(ds[|ds| - 1])
  }

  /** The length of the longest prefix of `s` made of digits of the radix. */
  function LeadingDigits(s: string, radix: nat): (n: nat)
    ensures n <= |s|
    ensures AllRadixDigits(s[..n], radix)
    ensures n == |s| || !IsRadixDigit(s[n], radix)
  {
    if s == [] || !IsRadixDigit(s[0], radix) then 0
    else
      var n := 1 + LeadingDigits(s[1..], radix);
      assert forall i :: 1 <= i < n ==> s[..n][i] == s[1..][..n - 1][i - 1];
      n
  }

  /** The digits of a string of radix digits are all of it. */
  lemma {:induction false} LeadingDigitsOfDigits(s: string, radix: nat)
    requires AllRadixDigits(s, radix)
    ensures LeadingDigits(s, radix) == |s|
  {
    if s != [] { LeadingDigitsOfDigits(s[1..], radix); }
  }

  /** One step of printing: the quotient is a smaller positive number and the remainder a digit. */
  lemma DivStep(n: nat, radix: nat)
    requires 2 <= radix <= n
    ensures 1 <= n / radix < n && n % radix < radix
    ensures n == (n / radix) * radix + n % radix
  {
    var q, m := n / radix, n % radix;
    assert n == q * radix + m && 0 <= m < radix;
    if q <= 0 { assert false; }
    assert q * radix >= q * 2;
  }

  /** `n.toString(radix)` for a non-negative integer: no sign, no leading zeros, lower-case letters. */
  function ToRadixString(n: nat, radix: nat): (r: string)
    requires 2 <= radix <= 36
    ensures |r| > 0 && AllRadixDigits(r, radix)
    ensures forall i :: 0 <= i < |r| ==> IsDigitChar(r[i]) || IsLowerAscii(r[i])
    ensures |r| > 1 ==> r[0] != '0'
    decreases n
  {
    if n < radix then [DigitChar(n)]
    else
      DivStep(n, radix);
      ToRadixString(n / radix, radix) + [DigitChar(n % radix)]
  }

  /** Printing in a radix and reading the digits back gives the number again. */
  lemma {:induction false} RadixRoundTrip(n: nat, radix: nat)
    requires 2 <= radix <= 36
    ensures ValueOf(ToRadixString(n, radix), radix) == n
    decreases n
  {
    var r := ToRadixString(n, radix);
    if n >= radix {
      DivStep(n, radix);
      RadixRoundTrip(n / radix, radix);
      assert r[..|r| - 1] == ToRadixString(n / radix, radix);
    }
  }

  /** The string with leading whitespace and one leading sign removed, and whether that sign was `-`. */
  function Unsigned(t: string): (r: (bool, string))
    ensures |r.1| <= |t|
  {
    if |t| > 0 && (t[0] == '-' || t[0] == '+') then (t[0] == '-', t[1..]) else (false, t)
  }

  /**
   * `parseInt(s, radix)`: leading whitespace and one sign skipped, then the
   * longest run of digits of the radix; `NaN` when there is none.
   */
  function ParseInt(s: string, radix: nat): (r: Option<int>)
    requires 2 <= radix <= 36
  {
    var t := TrimStart(s);
    var (neg, u) := Unsigned(t);
    var n := LeadingDigits(u, radix);
    if n == 0 then None
    else
      var v := ValueOf(u[..n], radix);
      Some(if neg then -(v as int) else v)
  }

  /** A non-empty string of digits parses to the number it denotes. */
  lemma ParseIntOfDigits(s: string, radix: nat)
    requires 2 <= radix <= 36
    requires |s| > 0 && AllRadixDigits(s, radix)
    ensures ParseInt(s, radix) == Some(ValueOf(s, radix))
  {
    assert IsRadixDigit(s[0], radix);
    LeadingDigitsOfDigits(s, radix);
    assert s[..|s|] == s;
  }

  /** Parsing what `toString(radix)` printed gives the number back. */
  lemma RadixParseRoundTrip(n: nat, radix: nat)
    requires 2 <= radix <= 36
    ensures ParseInt(ToRadixString(n, radix), radix) == Some(n)
  {
    RadixRoundTrip(n, radix);
    ParseIntOfDigits(ToRadixString(n, radix), radix);
  }

  function Pow10(k: nat): (p: nat)
    ensures p >= 1
  {
    if k == 0 then 1 else 10 * Pow10(k - 1)
  }

  /** `10^e` as a real, for an integer exponent of either sign. */
  function Scale(e: int): (x: real)
    ensures x > 0.0
  {
    if e >= 0 then Pow10(e) as real else 1.0 / Pow10(-e) as real
  }

  /** A decimal literal at the start of a string: its value and how many characters it took. */
  datatype Scan = Scan(value: real, length: nat)

  /** An exponent part `e`/`E`, optional sign, at least one digit, at the start of `v`. */
  function ScanExponent(v: string): (r: Option<(int, nat)>)
    ensures r.Some? ==> 2 <= r.value.1 <= |v|
  {
    if |v| < 2 || (v[0] != 'e' && v[0] != 'E') then None
    else
      var (neg, w) := Unsigned(v[1..]);
      var k := LeadingDigits(w, 10);
      if k == 0 then None
      else
        var e := ValueOf(w[..k], 10);
        Some((if neg then -(e as int) else e, 1 + (|v| - 1 - |w|) + k))
  }

  /**
   * The longest prefix of `t` that is a decimal literal
   * `[+-]? (digits [. digits?] | . digits) ([eE] [+-]? digits)?`.
   */
  function ScanDecimal(t: string): (r: Option<Scan>)
    ensures r.Some? ==> 0 < r.value.length <= |t|
  {
    var (neg, u) := Unsigned(t);
    var i := LeadingDigits(u, 10);
    var hasDot := i < |u| && u[i] == '.';
    var f := if hasDot then LeadingDigits(u[i + 1..], 10) else 0;
    if i == 0 && f == 0 then None
    else
      var whole := ValueOf(u[..i], 10) as real;
      var frac := if hasDot then ValueOf(u[i + 1..][..f], 10) as real / Pow10(f) as real else 0.0;
      var len := if hasDot then i + 1 + f else i;
      var mantissa := whole + frac;
      var magnitude := match ScanExponent(u[len..])
        case None => Scan(mantissa, len)
        case Some((e, elen)) => Scan(mantissa * Scale(e), len + elen);
      Some(Scan(if neg then -magnitude.value else magnitude.value, (|t| - |u|) + magnitude.length))
  }

  /** A string of decimal digits is one whole decimal literal denoting its value. */
  lemma DigitsScan(s: string)
    requires |s| > 0 && AllRadixDigits(s, 10)
    ensures ScanDecimal(s) == Some(Scan(ValueOf(s, 10) as real, |s|))
  {
    LeadingDigitsOfDigits(s, 10);
    assert s[..|s|] == s;
    assert Unsigned(s) == (false, s) by { assert IsRadixDigit(s[0], 10); }
  }

  /** `parseFloat(s)`: leading whitespace skipped, then the longest decimal literal; `NaN` if none. */
  function ParseFloat(s: string): Option<real> {
    match ScanDecimal(TrimStart(s))
    case None => None
    case Some(sc) => Some(sc.value)
  }

  /** `Number(s)`: the trimmed string must be empty (giving 0) or one whole decimal literal. */
  function JsNumber(s: string): Option<real> {
    var t := Trim(s);
    if t == [] then Some(0.0)
    else match ScanDecimal(t)
      case None => None
      case Some(sc) => if sc.length == |t| then Some(sc.value) else None
  }

  /** Both parsers read a plain string of decimal digits as the number it denotes. */
  lemma ParseDigits(s: string)
    requires |s| > 0 && AllRadixDigits(s, 10)
    ensures ParseFloat(s) == Some(ValueOf(s, 10) as real)
    ensures JsNumber(s) == Some(ValueOf(s, 10) as real)
  {
    assert IsRadixDigit(s[0], 10) && IsRadixDigit(s[|s| - 1], 10);
    assert TrimStart(s) == s;
    TrimOfTrimmed(s);
    DigitsScan(s);
    var sc := Scan(ValueOf(s, 10) as real, |s|);
    assert ScanDecimal(TrimStart(s)) == Some(sc);
    assert ScanDecimal(Trim(s)) == Some(sc);
  }

  /** `parseFloat` reads a minus sign followed by digits as the negated number. */
  lemma ParseNegativeDigits(s: string)
    requires |s| > 1 && s[0] == '-' && AllRadixDigits(s[1..], 10)
    ensures ParseFloat(s) == Some(-(ValueOf(s[1..], 10) as real))
  {
    var u := s[1..];
    LeadingDigitsOfDigits(u, 10);
    assert TrimOffset(s) == 0 by { assert !IsSpace(s[0]); }
    assert TrimStart(s) == s;
    assert Unsigned(s) == (true, u);
    assert u[..|u|] == u && u[|u|..] == [];
    assert ScanDecimal(s) == Some(Scan(-(ValueOf(u, 10) as real), |s|));
  }

  /** Reading back the decimal digits of a natural number gives it, with `parseFloat` and with `Number`. */
  lemma DecimalRoundTrip(n: nat)
    ensures ParseFloat(ToRadixString(n, 10)) == Some(n as real)
    ensures JsNumber(ToRadixString(n, 10)) == Some(n as real)
  {
    RadixRoundTrip(n, 10);
    ParseDigits(ToRadixString(n, 10));
  }
}
