/**
 * ASCII text operations standing in for JavaScript's `toLowerCase`,
 * `toUpperCase`, `includes`, `split(' ')` and `join`.  Only the ASCII
 * letters change case; every other character is left alone.
 */
module AsciiText {

  predicate IsUpperLetter(c: char) { 'A' <= c <= 'Z' }

  predicate IsLowerLetter(c: char) { 'a' <= c <= 'z' }

  function LowerChar(c: char): (r: char)
    ensures !IsUpperLetter(r)
    ensures IsLowerLetter(c) ==> r == c
  {
    if IsUpperLetter(c) then (c as int + 32) as char else c
  }

  function UpperChar(c: char): (r: char)
    ensures !IsLowerLetter(r)
    ensures IsUpperLetter(c) ==> r == c
  {
    if IsLowerLetter(c) then (c as int - 32) as char else c
  }

  /** A string that is not empty: the test behind `filter(Boolean)` and `p.length > 0`. */
  function NonEmpty(s: string): bool { s != "" }

  /** No ASCII lower-case letter occurs in `s`. */
  predicate IsUpperCased(s: string) {
    forall i :: 0 <= i < |s| ==> !IsLowerLetter(s[i])
  }

  function ToLower(s: string): (r: string)
    ensures |r| == |s|
    ensures forall i :: 0 <= i < |s| ==> r[i] == LowerChar(s[i])
  {
    seq(|s|, i requires 0 <= i < |s| => LowerChar(s[i]))
  }

  function ToUpper(s: string): (r: string)
    ensures |r| == |s|
    ensures forall i :: 0 <= i < |s| ==> r[i] == UpperChar(s[i])
  {
    seq(|s|, i requires 0 <= i < |s| => UpperChar(s[i]))
  }

  /** Upper-casing leaves no lower-case letter behind and changes nothing a second time. */
  lemma ToUpperIdempotent(s: string)
    ensures IsUpperCased(ToUpper(s))
    ensures ToUpper(ToUpper(s)) == ToUpper(s)
  {
  }

  /** A string with no lower-case letter is its own upper-cased form. */
  lemma UpperCasedIsFixed(s: string)
    requires IsUpperCased(s)
    ensures ToUpper(s) == s
  {
  }

  // ---------------------------------------------------------------------
  // Substring search
  // ---------------------------------------------------------------------

  predicate StartsWith(s: string, prefix: string) {
    |prefix| <= |s| && s[..|prefix|] == prefix
  }

  /** `needle` occurs at position `i` of `hay`. */
  ghost predicate OccursAt(hay: string, needle: string, i: int) {
    0 <= i && i + |needle| <= |hay| && hay[i..i + |needle|] == needle
  }

  /** `hay.includes(needle)`, by scanning the start positions left to right. */
  predicate Includes(hay: string, needle: string)
    decreases |hay|
  {
    StartsWith(hay, needle) || (|hay| > 0 && Includes(hay[1..], needle))
  }

  /** The scan finds `needle` exactly when it occurs at some position. */
  lemma {:induction false} IncludesIffOccurs(hay: string, needle: string)
    ensures Includes(hay, needle) <==> exists i :: OccursAt(hay, needle, i)
    decreases |hay|
  {
    OccursAtStart(hay, needle);
    if StartsWith(hay, needle) {
    } else if |hay| == 0 {
      forall i ensures !OccursAt(hay, needle, i) { }
    } else {
      IncludesIffOccurs(hay[1..], needle);
      if Includes(hay[1..], needle) {
        var j :| OccursAt(hay[1..], needle, j);
        OccursAtTail(hay, needle, j + 1);
      } else {
        forall i ensures !OccursAt(hay, needle, i) {
          if i >= 1 {
            OccursAtTail(hay, needle, i);
          }
        }
      }
    }
  }

  /** An occurrence at position 0 is a prefix. */
  lemma OccursAtStart(hay: string, needle: string)
    ensures OccursAt(hay, needle, 0) <==> StartsWith(hay, needle)
  {
  }

  /** An occurrence at position `i >= 1` is an occurrence at `i - 1` of the tail. */
  lemma OccursAtTail(hay: string, needle: string, i: int)
    requires |hay| > 0 && i >= 1
    ensures OccursAt(hay, needle, i) <==> OccursAt(hay[1..], needle, i - 1)
  {
    if i + |needle| <= |hay| {
      assert hay[1..][i - 1..i - 1 + |needle|] == hay[i..i + |needle|];
    }
  }

  /** The empty string occurs in every string. */
  lemma IncludesEmpty(hay: string)
    ensures Includes(hay, "")
  {
    assert StartsWith(hay, "");
  }

  // ---------------------------------------------------------------------
  // split(' ') and join
  // ---------------------------------------------------------------------

  /** `s.split(sep)` for a one-character separator: every separator ends a piece. */
  function Split(s: string, sep: char): (r: seq<string>)
    ensures |r| >= 1
    ensures forall k :: 0 <= k < |r| ==> sep !in r[k]
    decreases |s|
  {
    if |s| == 0 then [""]
    else
      var rest := Split(s[1..], sep);
      if s[0] == sep then [""] + rest
      else [[s[0]] + rest[0]] + rest[1..]
  }

  /** `xs.join(sep)`. */
  function Join(xs: seq<string>, sep: string): string
    decreases |xs|
  {
    if |xs| == 0 then ""
    else if |xs| == 1 then xs[0]
    else xs[0] + sep + Join(xs[1..], sep)
  }

  /** Joining the pieces of a split with the separator gives back the original string. */
  lemma {:induction false} JoinSplit(s: string, sep: char)
    ensures Join(Split(s, sep), [sep]) == s
    decreases |s|
  {
    if |s| == 0 {
    } else {
      var rest := Split(s[1..], sep);
      JoinSplit(s[1..], sep);
      if s[0] == sep {
        assert Split(s, sep) == [""] + rest;
        assert ([""] + rest)[1..] == rest;
      } else {
        var r := [[s[0]] + rest[0]] + rest[1..];
        assert Split(s, sep) == r;
        if |rest| == 1 {
          assert Join(r, [sep]) == [s[0]] + rest[0];
        } else {
          assert r[1..] == rest[1..];
          assert Join(rest, [sep]) == rest[0] + [sep] + Join(rest[1..], [sep]);
        }
      }
    }
  }

  /** Splitting a join of separator-free pieces gives back the pieces. */
  lemma {:induction false} SplitJoin(xs: seq<string>, sep: char)
    requires |xs| >= 1
    requires forall k :: 0 <= k < |xs| ==> sep !in xs[k]
    ensures Split(Join(xs, [sep]), sep) == xs
    decreases |xs|, |xs[0]|
  {
    var x := xs[0];
    if |x| == 0 {
      if |xs| == 1 {
      } else {
        var tail := Join(xs[1..], [sep]);
        assert Join(xs, [sep]) == [sep] + tail;
        assert ([sep] + tail)[1..] == tail;
        SplitJoin(xs[1..], sep);
        assert [""] + xs[1..] == xs;
      }
    } else {
      var ys := [x[1..]] + xs[1..];
      assert ys[1..] == xs[1..];
      assert forall k :: 0 <= k < |ys| ==> sep !in ys[k] by {
        forall k | 0 <= k < |ys| ensures sep !in ys[k] {
          if k == 0 {
            assert forall c :: c in x[1..] ==> c in x;
          } else {
            assert ys[k] == xs[k];
          }
        }
      }
      var j := Join(xs, [sep]);
      if |xs| == 1 {
        assert j == x;
        assert Join(ys, [sep]) == x[1..];
      } else {
        assert j == x + [sep] + Join(xs[1..], [sep]);
        assert Join(ys, [sep]) == x[1..] + [sep] + Join(xs[1..], [sep]);
      }
      assert j == [x[0]] + Join(ys, [sep]);
      assert j[0] == x[0] && j[1..] == Join(ys, [sep]);
      SplitJoin(ys, sep);
      assert x[0] != sep by { assert x[0] in x; }
      assert [x[0]] + x[1..] == x;
      assert [[x[0]] + ys[0]] + ys[1..] == xs;
    }
  }

  /** The length of a join: the pieces plus one separator between each neighbour pair. */
  lemma {:induction false} JoinLength(xs: seq<string>, sep: string)
    ensures |Join(xs, sep)| == TotalLength(xs) + (if |xs| == 0 then 0 else (|xs| - 1) * |sep|)
    decreases |xs|
  {
    if |xs| > 1 {
      JoinLength(xs[1..], sep);
    }
  }

  function TotalLength(xs: seq<string>): nat
    decreases |xs|
  {
    if |xs| == 0 then 0 else |xs[0]| + TotalLength(xs[1..])
  }

  /** A join is empty exactly when there is nothing to join or a single empty piece (for a non-empty separator). */
  lemma JoinEmptyIff(xs: seq<string>, sep: string)
    requires sep != ""
    ensures Join(xs, sep) == "" <==> |xs| == 0 || (|xs| == 1 && xs[0] == "")
  {
    JoinLength(xs, sep);
    if |xs| == 1 {
      assert TotalLength(xs) == |xs[0]| by {
        assert TotalLength(xs[1..]) == 0;
      }
    }
  }
}
