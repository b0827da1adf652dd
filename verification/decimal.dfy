/**
 * Decimal rendering of integers (what string interpolation prints for an
 * integral number) and JavaScript's `parseInt(text)` for decimal text.
 */
module Decimal {
  import opened Wrappers

  predicate IsDigit(c: char) { '0' <= c <= '9' }

  function DigitValue(c: char): (d: nat)
    requires IsDigit(c)
    ensures d < 10
  {
    c as int - '0' as int
  }

  function DigitChar(d: nat): (c: char)
    requires d < 10
    ensures IsDigit(c) && DigitValue(c) == d
  {
    ('0' as int + d) as char
  }

  predicate AllDigits(s: string) {
    forall i :: 0 <= i < |s| ==> IsDigit(s[i])
  }

  /** The number a run of decimal digits denotes, most significant digit first. */
  function DigitsValue(s: string): nat
    requires AllDigits(s)
    decreases |s|
  {
    if |s| == 0 then 0 else DigitsValue(s[..|s| - 1]) * 10 + DigitValue(s[|s| - 1])
  }

  /** The shortest decimal digits of `n`: no leading zero except for `0` itself. */
  function NatToString(n: nat): (r: string)
    ensures |r| >= 1 && AllDigits(r)
    ensures n < 10 <==> |r| == 1
    decreases n
  {
    if n < 10 then [DigitChar(n)] else NatToString(n / 10) + [DigitChar(n % 10)]
  }

  /** How an integral number prints: a minus sign, then the digits of its magnitude. */
  function IntToString(n: int): (r: string)
    ensures |r| >= 1
    ensures n < 0 <==> r[0] == '-'
  {
    if n < 0 then "-" + NatToString(-n) else NatToString(n)
  }

  lemma {:induction false} NatToStringValue(n: nat)
    ensures DigitsValue(NatToString(n)) == n
    decreases n
  {
    if n >= 10 {
      var r := NatToString(n);
      NatToStringValue(n / 10);
      assert r[..|r| - 1] == NatToString(n / 10);
    }
  }

  /** Length of the longest run of digits at the start of `s`. */
  function DigitPrefixLength(s: string): (k: nat)
    ensures k <= |s|
    ensures AllDigits(s[..k])
    ensures k == |s| || !IsDigit(s[k])
    decreases |s|
  {
    if |s| == 0 || !IsDigit(s[0]) then 0
    else
      var k := 1 + DigitPrefixLength(s[1..]);
      assert s[..k] == [s[0]] + s[1..][..k - 1];
      k
  }

  /** The ASCII characters `parseInt` skips before the number. */
  predicate IsSpace(c: char) {
    c == ' ' || c == '\t' || c == '\n' || c == '\r' || c == '\U{000B}' || c == '\U{000C}'
  }

  function TrimStart(s: string): (r: string)
    ensures |r| == 0 || !IsSpace(r[0])
    ensures |r| <= |s| && r == s[|s| - |r|..]
    decreases |s|
  {
    if |s| > 0 && IsSpace(s[0]) then TrimStart(s[1..]) else s
  }

  /**
   * `parseInt(s)`: skip leading white space, read an optional sign and the
   * longest run of digits after it; `None` stands for `NaN`, the result
   * when no digit follows.
   */
  function ParseInt(s: string): (r: Option<int>)
    ensures r.None? <==>
      var t := TrimStart(s);
      var body := if |t| > 0 && (t[0] == '-' || t[0] == '+') then t[1..] else t;
      |body| == 0 || !IsDigit(body[0])
  {
    var t := TrimStart(s);
    if |t| > 0 && t[0] == '-' then
      var m := ParseMagnitude(t[1..]);
      if m.Some? then Some(-m.value) else None
    else if |t| > 0 && t[0] == '+' then ParseMagnitude(t[1..])
    else ParseMagnitude(t)
  }

  /** The value of the digit run at the start of `body`, or `None` when it has none. */
  function ParseMagnitude(body: string): (r: Option<int>)
    ensures r.None? <==> |body| == 0 || !IsDigit(body[0])
    ensures r.Some? ==> r.value >= 0
  {
    var k := DigitPrefixLength(body);
    if k == 0 then None else Some(DigitsValue(body[..k]))
  }

  /** Reading back a printed integer gives the integer, whatever non-digit text follows it. */
  lemma ParseIntToStringThen(n: int, rest: string)
    requires |rest| == 0 || !IsDigit(rest[0])
    ensures ParseInt(IntToString(n) + rest) == Some(n)
  {
    if n < 0 {
      var m: nat := -n;
      var printed := IntToString(n);
      assert printed == "-" + NatToString(m);
      NegativeReadsBack(m, rest);
      assert 0 - m == n;
    } else {
      NatReadsBack(n, rest);
    }
  }

  /** The digits of a natural number, then non-digit text, read back as the number. */
  lemma NatReadsBack(m: nat, rest: string)
    requires |rest| == 0 || !IsDigit(rest[0])
    ensures ParseInt(NatToString(m) + rest) == Some(m)
  {
    NatToStringValue(m);
    ParseDigits(NatToString(m), rest);
  }

  /** A minus sign and the digits of `m`, then non-digit text, read back as `-m`. */
  lemma NegativeReadsBack(m: nat, rest: string)
    requires |rest| == 0 || !IsDigit(rest[0])
    ensures ParseInt(("-" + NatToString(m)) + rest) == Some(0 - m)
  {
    NatToStringValue(m);
    SignedDigitsReadBack(NatToString(m), rest, m);
  }

  /** A minus sign and digits of value `v`, then non-digit text, read back as `-v`. */
  lemma SignedDigitsReadBack(digits: string, rest: string, v: int)
    requires |digits| >= 1 && AllDigits(digits) && DigitsValue(digits) == v
    requires |rest| == 0 || !IsDigit(rest[0])
    ensures ParseInt(("-" + digits) + rest) == Some(0 - v)
  {
    var body := digits + rest;
    MagnitudeOfDigits(digits, rest);
    ParseSignedMagnitude(body, v);
    SignThenBody(digits, rest);
  }

  lemma SignThenBody(digits: string, rest: string)
    ensures ("-" + digits) + rest == "-" + (digits + rest)
  {
  }

  /** Digits followed by text that does not start with a digit read as their value. */
  lemma ParseDigits(digits: string, rest: string)
    requires |digits| >= 1 && AllDigits(digits)
    requires |rest| == 0 || !IsDigit(rest[0])
    ensures ParseInt(digits + rest) == Some(DigitsValue(digits))
  {
    var s := digits + rest;
    assert IsDigit(s[0]);
    MagnitudeOfDigits(digits, rest);
    ParseUnsigned(s);
  }

  /** Text that starts with a digit is read by its digit run alone. */
  lemma ParseUnsigned(s: string)
    requires |s| > 0 && IsDigit(s[0])
    ensures ParseInt(s) == ParseMagnitude(s)
  {
    assert TrimStart(s) == s;
  }

  /** Text that starts with a minus sign is read as the negated digit run after it. */
  lemma ParseNegative(s: string)
    requires |s| > 0 && s[0] == '-'
    ensures ParseMagnitude(s[1..]).Some? ==> ParseInt(s) == Some(-ParseMagnitude(s[1..]).value)
  {
    assert TrimStart(s) == s;
  }

  /** The digit run of `digits + rest` is exactly `digits`. */
  lemma MagnitudeOfDigits(digits: string, rest: string)
    requires |digits| >= 1 && AllDigits(digits)
    requires |rest| == 0 || !IsDigit(rest[0])
    ensures ParseMagnitude(digits + rest) == Some(DigitsValue(digits))
  {
    DigitPrefixThen(digits, rest);
    assert (digits + rest)[..|digits|] == digits;
  }

  /** A minus sign in front of text whose digit run has value `v` reads as `-v`. */
  lemma ParseSignedMagnitude(body: string, v: int)
    requires ParseMagnitude(body) == Some(v)
    ensures ParseInt("-" + body) == Some(-v)
  {
    var s := "-" + body;
    assert s[0] == '-' && s[1..] == body;
    ParseNegative(s);
  }

  /** Reading back a printed integer gives the integer. */
  lemma ParseIntToString(n: int)
    ensures ParseInt(IntToString(n)) == Some(n)
  {
    ParseIntToStringThen(n, "");
    assert IntToString(n) + "" == IntToString(n);
  }

  /** The digit run at the start of `digits + rest` is `digits` when `rest` starts with no digit. */
  lemma {:induction false} DigitPrefixThen(digits: string, rest: string)
    requires AllDigits(digits)
    requires |rest| == 0 || !IsDigit(rest[0])
    ensures DigitPrefixLength(digits + rest) == |digits|
    decreases |digits|
  {
    if |digits| > 0 {
      DigitPrefixThen(digits[1..], rest);
      assert (digits + rest)[1..] == digits[1..] + rest;
    }
  }
}
