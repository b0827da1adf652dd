/**
 * The handful of JavaScript operators whose semantics differ from Dafny's:
 * `||` on numbers and strings (falsy values fall through), the truncating
 * remainder `%`, `Math.ceil` of a quotient and `Array.prototype.slice`
 * with its index clamping.
 */
module JsOps {
  import opened Wrappers

  /** `x || d` for a number that may be missing: `0` and a missing value are falsy. */
  function IntOr(x: Option<int>, d: int): (r: int)
    ensures x.Some? && x.value != 0 ==> r == x.value
    ensures x.None? || x.value == 0 ==> r == d
  {
    if x.Some? && x.value != 0 then x.value else d
  }

  /** `s || d` for a string that may be missing: the empty string is falsy. */
  function StrOr(x: Option<string>, d: string): (r: string)
    ensures x.Some? && x.value != "" ==> r == x.value
    ensures x.None? || x.value == "" ==> r == d
  {
    if x.Some? && x.value != "" then x.value else d
  }

  /** True when a possibly missing string is truthy. */
  predicate StrTruthy(x: Option<string>) {
    x.Some? && x.value != ""
  }

  function Max(a: int, b: int): int { if a < b then b else a }

  function Min(a: int, b: int): int { if a < b then a else b }

  /** JavaScript's `a % b` for `b > 0`: the sign follows the dividend. */
  function JsRem(a: int, b: int): (r: int)
    requires b > 0
    ensures -b < r < b
    ensures a >= 0 ==> 0 <= r
    ensures a <= 0 ==> r <= 0
    ensures a >= 0 ==> r == a % b
  {
    if a >= 0 then a % b else -((-a) % b)
  }

  /** `Math.ceil(a / b)` for `b > 0`: the least integer `q` with `q * b >= a`. */
  function CeilDiv(a: int, b: int): (q: int)
    requires b > 0
    ensures q * b >= a
    ensures (q - 1) * b < a
  {
    if a % b == 0 then a / b else a / b + 1
  }

  /** How `slice` normalises one index against a length. */
  function ClampIndex(i: int, len: nat): (r: nat)
    ensures r <= len
    ensures 0 <= i <= len ==> r == i
  {
    if i < 0 then (if len + i < 0 then 0 else len + i)
    else if i > len then len
    else i
  }

  /** `s.slice(start, end)`. */
  function Slice<T>(s: seq<T>, start: int, end: int): (r: seq<T>)
    ensures |r| <= |s|
    ensures 0 <= start <= end <= |s| ==> r == s[start..end]
  {
    var b := ClampIndex(start, |s|);
    var e := ClampIndex(end, |s|);
    if b < e then s[b..e] else []
  }
}
