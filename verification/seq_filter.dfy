/**
 * `Array.prototype.filter` on sequences, with the facts the catalogue
 * filter relies on: the result is an order-preserving subsequence that
 * keeps exactly the passing positions, filters compose by conjunction,
 * and filtering is idempotent.
 */
module SeqFilter {

  function Filter<T>(f: T -> bool, s: seq<T>): (r: seq<T>)
    ensures |r| <= |s|
    ensures forall i :: 0 <= i < |r| ==> f(r[i])
    decreases |s|
  {
    if |s| == 0 then []
    else if f(s[0]) then [s[0]] + Filter(f, s[1..])
    else Filter(f, s[1..])
  }

  /** The positions of `s` whose element passes `f`, in increasing order. */
  function KeptIndices<T>(f: T -> bool, s: seq<T>): (idx: seq<nat>)
    ensures forall k :: 0 <= k < |idx| ==> idx[k] < |s|
    decreases |s|
  {
    if |s| == 0 then []
    else
      var rest := KeptIndices(f, s[1..]);
      if f(s[0]) then [0] + Shift(rest) else Shift(rest)
  }

  /** `a` is `b` read at the strictly increasing positions `idx`. */
  ghost predicate IsEmbedding<T>(idx: seq<nat>, a: seq<T>, b: seq<T>) {
    && |idx| == |a|
    && (forall k :: 0 <= k < |idx| ==> idx[k] < |b| && a[k] == b[idx[k]])
    && (forall k, l :: 0 <= k < l < |idx| ==> idx[k] < idx[l])
  }

  /** `a` is an order-preserving subsequence of `b`. */
  ghost predicate IsSubsequence<T>(a: seq<T>, b: seq<T>) {
    exists idx :: IsEmbedding(idx, a, b)
  }

  function Shift(idx: seq<nat>): (r: seq<nat>)
    ensures |r| == |idx|
    ensures forall k :: 0 <= k < |idx| ==> r[k] == idx[k] + 1
  {
    seq(|idx|, k requires 0 <= k < |idx| => idx[k] + 1)
  }

  /** Positions into `s[1..]` become positions into `s` one further on. */
  lemma ShiftEmbedding<T>(idx: seq<nat>, a: seq<T>, s: seq<T>)
    requires |s| > 0 && IsEmbedding(idx, a, s[1..])
    ensures IsEmbedding(Shift(idx), a, s)
    ensures forall i :: 1 <= i < |s| ==> (i in Shift(idx) <==> i - 1 in idx)
    ensures 0 !in Shift(idx)
  {
    var sh := Shift(idx);
    forall k | 0 <= k < |idx| ensures sh[k] < |s| && a[k] == s[sh[k]] {
      assert s[1..][idx[k]] == s[idx[k] + 1];
    }
    forall i | 1 <= i < |s| ensures i in sh <==> i - 1 in idx {
      if i - 1 in idx {
        var k :| 0 <= k < |idx| && idx[k] == i - 1;
        assert sh[k] == i;
      }
    }
  }

  /** Putting a passing first element in front of an embedding into `s[1..]`. */
  lemma ConsEmbedding<T>(idx: seq<nat>, a: seq<T>, s: seq<T>)
    requires |s| > 0 && IsEmbedding(idx, a, s[1..])
    ensures IsEmbedding([0] + Shift(idx), [s[0]] + a, s)
  {
    ShiftEmbedding(idx, a, s);
    var sh := Shift(idx);
    var j := [0] + sh;
    var b := [s[0]] + a;
    forall k | 0 < k < |j| ensures j[k] < |s| && b[k] == s[j[k]] {
      assert j[k] == sh[k - 1] && b[k] == a[k - 1];
    }
    forall k, l | 0 <= k < l < |j| ensures j[k] < j[l] {
      if k > 0 {
        assert j[k] == sh[k - 1] && j[l] == sh[l - 1];
      } else {
        assert j[l] == idx[l - 1] + 1;
      }
    }
  }

  /**
   * The filtered sequence is the input read at its passing positions, and a
   * position is among them exactly when its element passes.
   */
  lemma {:induction false} FilterKeepsExactlyPassing<T>(f: T -> bool, s: seq<T>)
    ensures IsEmbedding(KeptIndices(f, s), Filter(f, s), s)
    ensures forall i :: 0 <= i < |s| ==> (f(s[i]) <==> i in KeptIndices(f, s))
    decreases |s|
  {
    if |s| > 0 {
      FilterKeepsExactlyPassing(f, s[1..]);
      var rest := KeptIndices(f, s[1..]);
      var r := Filter(f, s[1..]);
      ShiftEmbedding(rest, r, s);
      forall i | 1 <= i < |s| ensures s[i] == s[1..][i - 1] { }
      if f(s[0]) {
        ConsEmbedding(rest, r, s);
      }
    }
  }

  /** Hence the filtered sequence is an order-preserving subsequence. */
  lemma FilterIsSubsequence<T>(f: T -> bool, s: seq<T>)
    ensures IsSubsequence(Filter(f, s), s)
  {
    FilterKeepsExactlyPassing(f, s);
  }

  /** An element is in the result exactly when it is in the input and passes. */
  lemma {:induction false} FilterMembership<T>(f: T -> bool, s: seq<T>, x: T)
    ensures x in Filter(f, s) <==> x in s && f(x)
    decreases |s|
  {
    if |s| > 0 {
      FilterMembership(f, s[1..], x);
      assert s == [s[0]] + s[1..];
    }
  }

  /** A predicate that every element passes removes nothing. */
  lemma {:induction false} FilterAllPass<T>(f: T -> bool, s: seq<T>)
    requires forall i :: 0 <= i < |s| ==> f(s[i])
    ensures Filter(f, s) == s
    decreases |s|
  {
    if |s| > 0 {
      FilterAllPass(f, s[1..]);
      assert s == [s[0]] + s[1..];
    }
  }

  /** A predicate that no element passes removes everything. */
  lemma {:induction false} FilterNonePass<T>(f: T -> bool, s: seq<T>)
    requires forall i :: 0 <= i < |s| ==> !f(s[i])
    ensures Filter(f, s) == []
    decreases |s|
  {
    if |s| > 0 {
      FilterNonePass(f, s[1..]);
    }
  }

  /** Two filters in a row are one filter by the conjunction. */
  lemma {:induction false} FilterFusion<T>(f: T -> bool, g: T -> bool, h: T -> bool, s: seq<T>)
    requires forall x :: h(x) == (f(x) && g(x))
    ensures Filter(g, Filter(f, s)) == Filter(h, s)
    decreases |s|
  {
    if |s| > 0 {
      FilterFusion(f, g, h, s[1..]);
      if f(s[0]) {
        var t := Filter(f, s[1..]);
        assert ([s[0]] + t)[1..] == t;
      }
    }
  }

  /** Predicates that agree everywhere filter alike. */
  lemma {:induction false} FilterExtensional<T>(f: T -> bool, g: T -> bool, s: seq<T>)
    requires forall x :: f(x) == g(x)
    ensures Filter(f, s) == Filter(g, s)
    decreases |s|
  {
    if |s| > 0 {
      FilterExtensional(f, g, s[1..]);
    }
  }

  /** Filtering an already filtered sequence again changes nothing. */
  lemma FilterIdempotent<T>(f: T -> bool, s: seq<T>)
    ensures Filter(f, Filter(f, s)) == Filter(f, s)
  {
    FilterAllPass(f, Filter(f, s));
  }

  /** The test `t` when `active`, and a test everything passes otherwise. */
  function Guard<T>(active: bool, t: T -> bool): T -> bool {
    x => active ==> t(x)
  }

  function Both<T>(a: T -> bool, b: T -> bool): T -> bool {
    x => a(x) && b(x)
  }

  /** `if (active) s = s.filter(t)` is a filter by the guarded test. */
  lemma GuardedStage<T>(active: bool, t: T -> bool, s: seq<T>)
    ensures (if active then Filter(t, s) else s) == Filter(Guard(active, t), s)
  {
    if active {
      FilterExtensional(t, Guard(active, t), s);
    } else {
      FilterAllPass(Guard(active, t), s);
    }
  }
}
