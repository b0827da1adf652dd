/**
 * The UTF-16 code units JavaScript strings are made of. A string here is a
 * sequence of Unicode scalar values; in JavaScript a character below
 * U+10000 is one code unit and any other is a surrogate pair of two, and
 * indexing, `substring` and the default sort all work on code units.
 */
module Utf16 {
  import opened AsciiText

  /** First character that needs a surrogate pair. */
  const PairBase: int := 0x10000

  predicate IsHighSurrogate(u: int) { 0xD800 <= u <= 0xDBFF }

  predicate IsLowSurrogate(u: int) { 0xDC00 <= u <= 0xDFFF }

  /** The code units of one character: itself below U+10000, otherwise its surrogate pair. */
  function CodeUnits(c: char): (r: seq<int>)
    ensures |r| == 1 <==> c as int < PairBase
    ensures |r| == 1 ==> r[0] == c as int && !IsHighSurrogate(r[0]) && !IsLowSurrogate(r[0])
    ensures |r| != 1 ==> |r| == 2 && IsHighSurrogate(r[0]) && IsLowSurrogate(r[1])
  {
    var v := c as int;
    if v < PairBase then [v]
    else [0xD800 + (v - PairBase) / 0x400, 0xDC00 + (v - PairBase) % 0x400]
  }

  /** The code units of a string, character after character. */
  function Encode(s: string): (r: seq<int>)
    ensures |r| >= |s|
    ensures |r| == 0 <==> |s| == 0
    decreases |s|
  {
    if |s| == 0 then [] else CodeUnits(s[0]) + Encode(s[1..])
  }

  /** The first code units of a sequence decide the character they encode, and what follows. */
  lemma CodeUnitsDecide(c: char, d: char, x: seq<int>, y: seq<int>)
    requires CodeUnits(c) + x == CodeUnits(d) + y
    ensures c == d && x == y
  {
    var u, w := CodeUnits(c), CodeUnits(d);
    assert (u + x)[0] == u[0] && (w + y)[0] == w[0];
    if |u| == 2 && |w| == 2 {
      assert (u + x)[1] == u[1] && (w + y)[1] == w[1];
      var a, b := c as int - PairBase, d as int - PairBase;
      assert a == 0x400 * (a / 0x400) + a % 0x400;
      assert b == 0x400 * (b / 0x400) + b % 0x400;
    }
    assert u == w;
    assert x == (u + x)[|u|..] && y == (w + y)[|w|..];
  }

  /** Different strings have different code units. */
  lemma {:induction false} EncodeInjective(a: string, b: string)
    requires Encode(a) == Encode(b)
    ensures a == b
    decreases |a|
  {
    if |a| > 0 {
      CodeUnitsDecide(a[0], b[0], Encode(a[1..]), Encode(b[1..]));
      EncodeInjective(a[1..], b[1..]);
      assert a == [a[0]] + a[1..] && b == [b[0]] + b[1..];
    }
  }

  /** `toUpperCase` on one code unit: only the ASCII lower-case letters change. */
  function UpperUnit(u: int): (r: int)
    ensures !('a' as int <= r <= 'z' as int)
    ensures 'A' as int <= u <= 'Z' as int ==> r == u
  {
    if 'a' as int <= u <= 'z' as int then u - 32 else u
  }

  function UpperUnits(us: seq<int>): (r: seq<int>)
    ensures |r| == |us|
    ensures forall k :: 0 <= k < |us| ==> r[k] == UpperUnit(us[k])
  {
    seq(|us|, k requires 0 <= k < |us| => UpperUnit(us[k]))
  }

  /** Upper-casing a character and encoding it is encoding it and upper-casing the units. */
  lemma CodeUnitsOfUpper(c: char)
    ensures CodeUnits(UpperChar(c)) == UpperUnits(CodeUnits(c))
  {
  }

  /** Upper-casing commutes with the encoding: a surrogate pair is never changed. */
  lemma {:induction false} EncodeUpper(s: string)
    ensures Encode(ToUpper(s)) == UpperUnits(Encode(s))
    decreases |s|
  {
    if |s| > 0 {
      var t := ToUpper(s);
      EncodeUpper(s[1..]);
      CodeUnitsOfUpper(s[0]);
      assert t[1..] == ToUpper(s[1..]);
      assert Encode(t) == CodeUnits(UpperChar(s[0])) + Encode(ToUpper(s[1..]));
      UpperUnitsAppend(CodeUnits(s[0]), Encode(s[1..]));
    }
  }

  lemma UpperUnitsAppend(x: seq<int>, y: seq<int>)
    ensures UpperUnits(x + y) == UpperUnits(x) + UpperUnits(y)
  {
  }
}
