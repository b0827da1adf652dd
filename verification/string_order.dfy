/**
 * The order JavaScript's default `Array.prototype.sort` puts strings in
 * (UTF-16 code unit by code unit, a proper prefix first), the `new Set(...)`
 * de-duplication that keeps first occurrences, and an insertion sort.
 */
module StringOrder {
  import opened Utf16

  /** Code-unit sequence `a` sorts strictly before `b`: unit by unit, a proper prefix first. */
  predicate UnitsLess(a: seq<int>, b: seq<int>)
    decreases |a|
  {
    if |a| == 0 then |b| > 0
    else if |b| == 0 then false
    else if a[0] != b[0] then a[0] < b[0]
    else UnitsLess(a[1..], b[1..])
  }

  /** `a` sorts strictly before `b`: JavaScript compares the UTF-16 code units, not the characters. */
  predicate Less(a: string, b: string) {
    UnitsLess(Encode(a), Encode(b))
  }

  predicate LessEq(a: string, b: string) {
    a == b || Less(a, b)
  }

  lemma {:induction false} UnitsIrreflexive(a: seq<int>)
    ensures !UnitsLess(a, a)
    decreases |a|
  {
    if |a| > 0 {
      UnitsIrreflexive(a[1..]);
    }
  }

  lemma {:induction false} UnitsAsymmetric(a: seq<int>, b: seq<int>)
    requires UnitsLess(a, b)
    ensures !UnitsLess(b, a)
    decreases |a|
  {
    if |a| > 0 && |b| > 0 && a[0] == b[0] {
      UnitsAsymmetric(a[1..], b[1..]);
    }
  }

  lemma {:induction false} UnitsTransitive(a: seq<int>, b: seq<int>, c: seq<int>)
    requires UnitsLess(a, b) && UnitsLess(b, c)
    ensures UnitsLess(a, c)
    decreases |a|
  {
    if |a| > 0 && a[0] == b[0] && b[0] == c[0] {
      UnitsTransitive(a[1..], b[1..], c[1..]);
    }
  }

  lemma {:induction false} UnitsTotal(a: seq<int>, b: seq<int>)
    ensures a == b || UnitsLess(a, b) || UnitsLess(b, a)
    decreases |a|
  {
    if |a| > 0 && |b| > 0 && a[0] == b[0] {
      UnitsTotal(a[1..], b[1..]);
      if a[1..] == b[1..] {
        assert a == [a[0]] + a[1..] && b == [b[0]] + b[1..];
      }
    }
  }

  lemma LessIrreflexive(a: string)
    ensures !Less(a, a)
  {
    UnitsIrreflexive(Encode(a));
  }

  lemma LessAsymmetric(a: string, b: string)
    requires Less(a, b)
    ensures !Less(b, a)
  {
    UnitsAsymmetric(Encode(a), Encode(b));
  }

  lemma LessTransitive(a: string, b: string, c: string)
    requires Less(a, b) && Less(b, c)
    ensures Less(a, c)
  {
    UnitsTransitive(Encode(a), Encode(b), Encode(c));
  }

  /** Of two different strings one sorts first, because different strings have different code units. */
  lemma LessTotal(a: string, b: string)
    ensures a == b || Less(a, b) || Less(b, a)
  {
    UnitsTotal(Encode(a), Encode(b));
    if Encode(a) == Encode(b) {
      EncodeInjective(a, b);
    }
  }

  /**
   * Code-unit order is not character order: U+FF21 (fullwidth A) is the
   * larger character, yet it sorts after U+1F600, whose first code unit is
   * the surrogate 0xD83D.
   */
  lemma SurrogatePairsSortBelowHighCharacters()
    ensures '\U{FF21}' as int < '\U{1F600}' as int
    ensures Less("\U{1F600}", "\U{FF21}") && !Less("\U{FF21}", "\U{1F600}")
  {
    assert Encode("\U{1F600}") == [0xD83D, 0xDE00];
    assert Encode("\U{FF21}") == [0xFF21];
  }

  lemma LessEqTransitive(a: string, b: string, c: string)
    requires LessEq(a, b) && LessEq(b, c)
    ensures LessEq(a, c)
  {
    if a != b && b != c {
      LessTransitive(a, b, c);
    }
  }

  ghost predicate Sorted(xs: seq<string>) {
    forall i, j :: 0 <= i < j < |xs| ==> LessEq(xs[i], xs[j])
  }

  ghost predicate StrictlySorted(xs: seq<string>) {
    forall i, j :: 0 <= i < j < |xs| ==> Less(xs[i], xs[j])
  }

  ghost predicate Distinct<T>(xs: seq<T>) {
    forall i, j :: 0 <= i < j < |xs| ==> xs[i] != xs[j]
  }

  /** Inserts `x` before the first element it does not sort after. */
  function Insert(x: string, xs: seq<string>): (r: seq<string>)
    requires Sorted(xs)
    ensures Sorted(r)
    ensures multiset(r) == multiset(xs) + multiset{x}
    decreases |xs|
  {
    if |xs| == 0 then [x]
    else if LessEq(x, xs[0]) then
      BelowHeadBelowAll(x, xs);
      ConsSorted(x, xs);
      [x] + xs
    else
      var rest := Insert(x, xs[1..]);
      LessTotal(x, xs[0]);
      BelowAllOfPermutation(xs[0], xs[1..], x, rest);
      ConsSorted(xs[0], rest);
      assert xs == [xs[0]] + xs[1..];
      [xs[0]] + rest
  }

  /** A value no greater than every element of a sorted list can go in front of it. */
  lemma ConsSorted(h: string, t: seq<string>)
    requires Sorted(t)
    requires forall j :: 0 <= j < |t| ==> LessEq(h, t[j])
    ensures Sorted([h] + t)
  {
    forall i, j | 0 <= i < j < |[h] + t| ensures LessEq(([h] + t)[i], ([h] + t)[j]) {
      if i > 0 {
        assert ([h] + t)[i] == t[i - 1];
      }
      assert ([h] + t)[j] == t[j - 1];
    }
  }

  /** A value no greater than the head of a sorted list is no greater than any element. */
  lemma BelowHeadBelowAll(x: string, xs: seq<string>)
    requires Sorted(xs) && |xs| > 0 && LessEq(x, xs[0])
    ensures forall j :: 0 <= j < |xs| ==> LessEq(x, xs[j])
  {
    forall j | 0 < j < |xs| ensures LessEq(x, xs[j]) {
      LessEqTransitive(x, xs[0], xs[j]);
    }
  }

  /** A lower bound of `tail` and of `x` bounds every element of a permutation of `tail` plus `x`. */
  lemma BelowAllOfPermutation(h: string, tail: seq<string>, x: string, rest: seq<string>)
    requires forall j :: 0 <= j < |tail| ==> LessEq(h, tail[j])
    requires LessEq(h, x)
    requires multiset(rest) == multiset(tail) + multiset{x}
    ensures forall j :: 0 <= j < |rest| ==> LessEq(h, rest[j])
  {
    forall j | 0 <= j < |rest| ensures LessEq(h, rest[j]) {
      var y := rest[j];
      assert y in multiset(rest);
      if y != x {
        assert y in multiset(tail);
        var k :| 0 <= k < |tail| && tail[k] == y;
      }
    }
  }

  /** Insertion sort: a sorted permutation of `xs`. */
  function Sort(xs: seq<string>): (r: seq<string>)
    ensures Sorted(r)
    ensures multiset(r) == multiset(xs)
    decreases |xs|
  {
    if |xs| == 0 then []
    else
      assert xs == [xs[0]] + xs[1..];
      Insert(xs[0], Sort(xs[1..]))
  }

  /** `[...new Set(xs)]`: each value once, in order of first occurrence. */
  function Dedup(xs: seq<string>): (r: seq<string>)
    ensures Distinct(r)
    ensures forall x :: x in r <==> x in xs
    decreases |xs|
  {
    if |xs| == 0 then []
    else
      var init := Dedup(xs[..|xs| - 1]);
      var last := xs[|xs| - 1];
      assert xs == xs[..|xs| - 1] + [last];
      if last in init then init else init + [last]
  }

  /** Sorting a list without repetitions gives a strictly increasing list of the same elements. */
  lemma SortOfDistinct(xs: seq<string>)
    requires Distinct(xs)
    ensures StrictlySorted(Sort(xs))
    ensures forall c :: c in Sort(xs) <==> c in xs
  {
    var r := Sort(xs);
    forall c ensures c in r <==> c in xs {
      assert c in r <==> c in multiset(r);
      assert c in xs <==> c in multiset(xs);
    }
    PermutationKeepsDistinct(xs, r);
    SortedDistinctIsStrict(r);
  }

  /** A sorted list without repetitions is strictly increasing. */
  lemma SortedDistinctIsStrict(xs: seq<string>)
    requires Sorted(xs) && Distinct(xs)
    ensures StrictlySorted(xs)
  {
  }

  /** A permutation of a list without repetitions has none either. */
  lemma {:induction false} PermutationKeepsDistinct(xs: seq<string>, ys: seq<string>)
    requires multiset(xs) == multiset(ys) && Distinct(xs)
    ensures Distinct(ys)
  {
    forall i, j | 0 <= i < j < |ys| ensures ys[i] != ys[j] {
      if ys[i] == ys[j] {
        var v := ys[i];
        assert ys == ys[..i] + [v] + ys[i + 1..j] + [v] + ys[j + 1..];
        assert multiset(ys)[v] >= 2;
        DistinctCount(xs, v);
      }
    }
  }

  /** In a list without repetitions every value occurs at most once. */
  lemma {:induction false} DistinctCount(xs: seq<string>, v: string)
    requires Distinct(xs)
    ensures multiset(xs)[v] <= 1
    decreases |xs|
  {
    if |xs| > 0 {
      var init := xs[..|xs| - 1];
      assert xs == init + [xs[|xs| - 1]];
      DistinctCount(init, v);
      if xs[|xs| - 1] == v {
        assert v !in init;
      }
    }
  }
}
