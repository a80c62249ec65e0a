/**
 * The sequence adaptors the board code draws from Rust's iterators and the
 * itertools crate: an inclusive integer range, `cartesian_product`, and
 * `filter` followed by `collect`, each as a function on sequences together
 * with the facts the board model needs about it.
 */
module Seqs {

  /** No element occurs twice. */
  ghost predicate Distinct<T>(s: seq<T>) {
    forall i, j :: 0 <= i < j < |s| ==> s[i] != s[j]
  }

  /** `xs` is obtained from `ys` by deleting elements, keeping the order of the rest. */
  predicate IsSubsequence<T(==)>(xs: seq<T>, ys: seq<T>)
    decreases |ys|
  {
    if xs == [] then true
    else if ys == [] then false
    else if xs[0] == ys[0] then IsSubsequence(xs[1..], ys[1..])
    else IsSubsequence(xs, ys[1..])
  }

  /** The inclusive range `lo..=hi`, in increasing order. */
  function RangeInclusive(lo: int, hi: int): (r: seq<int>)
    ensures |r| == if lo <= hi then hi - lo + 1 else 0
    ensures forall i :: 0 <= i < |r| ==> r[i] == lo + i
    decreases if lo <= hi then hi - lo + 1 else 0
  {
    if lo > hi then [] else [lo] + RangeInclusive(lo + 1, hi)
  }

  /** The pairs `(x, y)` for a fixed `x` and every `y` of `ys`, in the order of `ys`. */
  function PairsWith(x: int, ys: seq<int>): (r: seq<(int, int)>)
    ensures |r| == |ys|
    ensures forall a, y :: (a, y) in r <==> a == x && y in ys
  {
    if ys == [] then []
    else
      assert forall y :: y in ys <==> y == ys[0] || y in ys[1..];
      [(x, ys[0])] + PairsWith(x, ys[1..])
  }

  /**
   * Every pair of an element of `xs` with an element of `ys`, the first
   * component varying slowest.
   */
  function CartesianProduct(xs: seq<int>, ys: seq<int>): (r: seq<(int, int)>)
    ensures |r| == |xs| * |ys|
    ensures forall x, y :: (x, y) in r <==> x in xs && y in ys
  {
    if xs == [] then []
    else
      var rest := CartesianProduct(xs[1..], ys);
      assert |xs| * |ys| == |ys| + |xs[1..]| * |ys|;
      assert forall x :: x in xs <==> x == xs[0] || x in xs[1..];
      var head := PairsWith(xs[0], ys);
      assert forall p :: p in head + rest <==> p in head || p in rest;
      head + rest
  }

  /** The elements of `s` that satisfy `f`, in their original order. */
  function Filter<T>(f: T -> bool, s: seq<T>): seq<T> {
    if s == [] then []
    else
      var rest := Filter(f, s[1..]);
      if f(s[0]) then [s[0]] + rest else rest
  }

  /**
   * `Filter` keeps exactly the elements that satisfy `f`, as a subsequence
   * of its input.
   */
  lemma {:induction false} FilterSound<T(!new)>(f: T -> bool, s: seq<T>)
    ensures |Filter(f, s)| <= |s|
    ensures forall i :: 0 <= i < |Filter(f, s)| ==> f(Filter(f, s)[i])
    ensures forall x :: x in Filter(f, s) <==> x in s && f(x)
    ensures IsSubsequence(Filter(f, s), s)
  {
    if s != [] {
      FilterSound(f, s[1..]);
      assert forall x :: x in s <==> x == s[0] || x in s[1..];
    }
  }

  /** Filtering a concatenation filters each part. */
  lemma {:induction false} FilterAppend<T>(f: T -> bool, a: seq<T>, b: seq<T>)
    ensures Filter(f, a + b) == Filter(f, a) + Filter(f, b)
  {
    if a == [] {
      assert a + b == b;
    } else {
      assert (a + b)[0] == a[0];
      assert (a + b)[1..] == a[1..] + b;
      FilterAppend(f, a[1..], b);
    }
  }

  /** Filtering the suffix `s[k..]` decides `s[k]` and filters the rest. */
  lemma FilterSuffix<T>(f: T -> bool, s: seq<T>, k: int)
    requires 0 <= k < |s|
    ensures Filter(f, s[k..]) == (if f(s[k]) then [s[k]] else []) + Filter(f, s[k + 1..])
  {
    assert s[k..][0] == s[k];
    assert s[k..][1..] == s[k + 1..];
  }

  /** A subsequence as long as the whole is the whole. */
  lemma {:induction false} SubsequenceFull<T>(xs: seq<T>, ys: seq<T>)
    requires IsSubsequence(xs, ys)
    requires |xs| == |ys|
    ensures xs == ys
    decreases |ys|
  {
    if xs != [] {
      SubsequenceLength(xs, ys[1..]);
      assert xs[0] == ys[0];
      SubsequenceFull(xs[1..], ys[1..]);
      assert xs == [xs[0]] + xs[1..];
    }
  }

  /** A subsequence is no longer than the whole. */
  lemma {:induction false} SubsequenceLength<T>(xs: seq<T>, ys: seq<T>)
    ensures IsSubsequence(xs, ys) ==> |xs| <= |ys|
    decreases |ys|
  {
    if xs != [] && ys != [] {
      if xs[0] == ys[0] {
        SubsequenceLength(xs[1..], ys[1..]);
      } else {
        SubsequenceLength(xs, ys[1..]);
      }
    }
  }

  /** A subsequence of a sequence without repetitions has none either. */
  lemma {:induction false} SubsequenceDistinct<T>(xs: seq<T>, ys: seq<T>)
    requires IsSubsequence(xs, ys)
    requires Distinct(ys)
    ensures Distinct(xs)
    decreases |ys|
  {
    if xs != [] {
      assert Distinct(ys[1..]);
      if xs[0] == ys[0] {
        SubsequenceDistinct(xs[1..], ys[1..]);
        SubsequenceMembers(xs[1..], ys[1..]);
        forall i, j | 0 <= i < j < |xs| ensures xs[i] != xs[j] {
          if i == 0 {
            assert xs[j] == xs[1..][j - 1];
            assert xs[j] in ys[1..];
          } else {
            assert xs[i] == xs[1..][i - 1] && xs[j] == xs[1..][j - 1];
          }
        }
      } else {
        SubsequenceDistinct(xs, ys[1..]);
      }
    }
  }

  /** Every element of a subsequence is an element of the whole. */
  lemma {:induction false} SubsequenceMembers<T>(xs: seq<T>, ys: seq<T>)
    requires IsSubsequence(xs, ys)
    ensures forall x :: x in xs ==> x in ys
    decreases |ys|
  {
    if xs != [] {
      assert ys != [];
      if xs[0] == ys[0] {
        SubsequenceMembers(xs[1..], ys[1..]);
        assert forall x :: x in xs ==> x == xs[0] || x in xs[1..];
      } else {
        SubsequenceMembers(xs, ys[1..]);
      }
    }
  }

  /**
   * Over a sequence without repetitions, `Filter` is the only subsequence
   * that keeps exactly the elements satisfying `f`.
   */
  lemma {:induction false} FilterUnique<T(!new)>(f: T -> bool, s: seq<T>, r: seq<T>)
    requires Distinct(s)
    requires IsSubsequence(r, s)
    requires forall x :: x in r ==> f(x)
    requires forall x :: x in s && f(x) ==> x in r
    ensures r == Filter(f, s)
    decreases |s|
  {
    if s == [] {
      assert r == [];
    } else {
      assert Distinct(s[1..]);
      assert s[0] !in s[1..];
      if r != [] && r[0] == s[0] {
        assert IsSubsequence(r[1..], s[1..]);
        assert forall x :: x in r[1..] ==> x in r;
        SubsequenceMembers(r[1..], s[1..]);
        forall x | x in s[1..] && f(x) ensures x in r[1..] {
          assert x in s && x != s[0];
        }
        FilterUnique(f, s[1..], r[1..]);
        assert r == [r[0]] + r[1..];
      } else {
        assert IsSubsequence(r, s[1..]);
        SubsequenceMembers(r, s[1..]);
        assert !f(s[0]);
        FilterUnique(f, s[1..], r);
      }
    }
  }
}
