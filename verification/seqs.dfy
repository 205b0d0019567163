/**
 * Order-preserving selections from sequences: subsequences and filters, the
 * shape of every "keep some entries, in order" stage of the pipeline.
 */
module Seqs {

  /** `r` is `xs` restricted to the strictly increasing positions `idx`. */
  ghost predicate SubseqBy<T>(r: seq<T>, xs: seq<T>, idx: seq<int>) {
    && |idx| == |r|
    && (forall i :: 0 <= i < |idx| ==> 0 <= idx[i] < |xs| && r[i] == xs[idx[i]])
    && (forall i, j :: 0 <= i < j < |idx| ==> idx[i] < idx[j])
  }

  /** `r` can be obtained from `xs` by deleting elements. */
  ghost predicate IsSubseq<T>(r: seq<T>, xs: seq<T>) {
    exists idx :: SubseqBy(r, xs, idx)
  }

  /** The empty list is a subsequence of every list. */
  lemma SubseqEmpty<T>(xs: seq<T>)
    ensures IsSubseq([], xs)
  {
    assert SubseqBy([], xs, []);
  }

  /** Every list is a subsequence of itself. */
  lemma SubseqRefl<T>(xs: seq<T>)
    ensures IsSubseq(xs, xs)
  {
    var idx := seq(|xs|, i requires 0 <= i < |xs| => i);
    assert SubseqBy(xs, xs, idx);
  }

  /** Appending to the source keeps a subsequence; appending to both extends it. */
  lemma SubseqSnoc<T>(r: seq<T>, xs: seq<T>, x: T)
    requires IsSubseq(r, xs)
    ensures IsSubseq(r, xs + [x])
    ensures IsSubseq(r + [x], xs + [x])
  {
    var idx :| SubseqBy(r, xs, idx);
    assert SubseqBy(r, xs + [x], idx);
    assert SubseqBy(r + [x], xs + [x], idx + [|xs|]);
  }

  /** Prepending to the source keeps a subsequence; prepending to both extends it. */
  lemma SubseqCons<T>(r: seq<T>, xs: seq<T>, x: T)
    requires IsSubseq(r, xs)
    ensures IsSubseq(r, [x] + xs)
    ensures IsSubseq([x] + r, [x] + xs)
  {
    var idx :| SubseqBy(r, xs, idx);
    var shifted := seq(|idx|, i requires 0 <= i < |idx| => idx[i] + 1);
    assert SubseqBy(r, [x] + xs, shifted);
    assert SubseqBy([x] + r, [x] + xs, [0] + shifted);
  }

  /** A subsequence of a subsequence is a subsequence. */
  lemma SubseqTrans<T>(a: seq<T>, b: seq<T>, c: seq<T>)
    requires IsSubseq(a, b) && IsSubseq(b, c)
    ensures IsSubseq(a, c)
  {
    var ia :| SubseqBy(a, b, ia);
    var ib :| SubseqBy(b, c, ib);
    var ic := seq(|ia|, i requires 0 <= i < |ia| => ib[ia[i]]);
    assert SubseqBy(a, c, ic);
  }

  /** A subsequence is no longer than its source and draws its elements from it. */
  lemma SubseqElements<T>(r: seq<T>, xs: seq<T>)
    requires IsSubseq(r, xs)
    ensures |r| <= |xs|
    ensures forall e :: e in r ==> e in xs
  {
    var idx :| SubseqBy(r, xs, idx);
    IncreasingBounded(idx, |xs|);
    forall e | e in r ensures e in xs {
      var i :| 0 <= i < |r| && r[i] == e;
      assert xs[idx[i]] == e;
    }
  }

  /** A strictly increasing sequence of indices below `n` has at most `n` elements. */
  lemma {:induction false} IncreasingBounded(idx: seq<int>, n: nat)
    requires forall i :: 0 <= i < |idx| ==> 0 <= idx[i] < n
    requires forall i, j :: 0 <= i < j < |idx| ==> idx[i] < idx[j]
    ensures |idx| <= n
  {
    if |idx| > 0 {
      var last := idx[|idx| - 1];
      var front := idx[..|idx| - 1];
      assert forall i :: 0 <= i < |front| ==> front[i] < last;
      IncreasingBounded(front, last);
    }
  }

  /** The elements of `xs` satisfying `p`, in order. */
  function Filter<T>(xs: seq<T>, p: T -> bool): (r: seq<T>)
    ensures |r| <= |xs|
    ensures forall i :: 0 <= i < |r| ==> p(r[i])
    ensures forall i :: 0 <= i < |r| ==> r[i] in xs
    ensures forall i :: 0 <= i < |xs| && p(xs[i]) ==> xs[i] in r
  {
    if xs == [] then []
    else (if p(xs[0]) then [xs[0]] else []) + Filter(xs[1..], p)
  }

  /** Filtering distributes over concatenation. */
  lemma {:induction false} FilterAppend<T>(xs: seq<T>, ys: seq<T>, p: T -> bool)
    ensures Filter(xs + ys, p) == Filter(xs, p) + Filter(ys, p)
  {
    if xs != [] {
      assert (xs + ys)[1..] == xs[1..] + ys;
      FilterAppend(xs[1..], ys, p);
    } else {
      assert xs + ys == ys;
    }
  }

  /** Filtering one more element of a prefix adds it exactly when it passes. */
  lemma FilterSnoc<T>(xs: seq<T>, i: nat, p: T -> bool)
    requires i < |xs|
    ensures Filter(xs[..i + 1], p) == Filter(xs[..i], p) + (if p(xs[i]) then [xs[i]] else [])
  {
    assert xs[..i + 1] == xs[..i] + [xs[i]];
    FilterAppend(xs[..i], [xs[i]], p);
    assert [xs[i]][1..] == [];
  }

  /**
   * The `j`-th element a filter keeps sits at some position `i` of `xs`,
   * and what the filter keeps before position `i` is exactly its first `j`.
   */
  lemma {:induction false} FilterOrigin<T>(xs: seq<T>, p: T -> bool, j: nat) returns (i: nat)
    requires j < |Filter(xs, p)|
    ensures i < |xs| && xs[i] == Filter(xs, p)[j] && p(xs[i])
    ensures Filter(xs[..i], p) == Filter(xs, p)[..j]
    decreases |xs|
  {
    var n := |xs| - 1;
    var front := xs[..n];
    var f := Filter(front, p);
    FilterSnoc(xs, n, p);
    assert xs[..n + 1] == xs;
    if j < |f| {
      i := FilterOrigin(front, p, j);
      assert xs[..i] == front[..i];
      assert Filter(xs, p)[..j] == f[..j];
    } else {
      i := n;
    }
  }

  /** Filtering keeps order: the result is a subsequence. */
  lemma {:induction false} FilterIsSubseq<T>(xs: seq<T>, p: T -> bool)
    ensures IsSubseq(Filter(xs, p), xs)
  {
    if xs == [] {
      SubseqEmpty(xs);
    } else {
      FilterIsSubseq(xs[1..], p);
      SubseqCons(Filter(xs[1..], p), xs[1..], xs[0]);
      assert [xs[0]] + xs[1..] == xs;
      if p(xs[0]) {
        assert Filter(xs, p) == [xs[0]] + Filter(xs[1..], p);
      } else {
        assert Filter(xs, p) == Filter(xs[1..], p);
      }
    }
  }

  /** A contiguous slice is a subsequence. */
  lemma SubseqSlice<T>(xs: seq<T>, a: nat, b: nat)
    requires a <= b <= |xs|
    ensures IsSubseq(xs[a..b], xs)
  {
    var idx := seq(b - a, i requires 0 <= i < b - a => a + i);
    assert SubseqBy(xs[a..b], xs, idx);
  }

  /** A subsequence whose elements all pass `p` is a subsequence of what the filter keeps. */
  lemma {:induction false} SubseqOfFilter<T>(r: seq<T>, xs: seq<T>, p: T -> bool)
    requires IsSubseq(r, xs)
    requires forall k :: 0 <= k < |r| ==> p(r[k])
    ensures IsSubseq(r, Filter(xs, p))
    decreases |xs|
  {
    if xs == [] {
      SubseqElements(r, xs);
      SubseqEmpty(Filter(xs, p));
    } else {
      var rest := Filter(xs[1..], p);
      var head := SubseqHead(r, xs);
      if head {
        SubseqOfFilter(r[1..], xs[1..], p);
        SubseqCons(r[1..], rest, xs[0]);
        assert [xs[0]] + r[1..] == r;
        assert Filter(xs, p) == [xs[0]] + rest;
      } else {
        SubseqOfFilter(r, xs[1..], p);
        SubseqCons(r, rest, xs[0]);
        if p(xs[0]) {
          assert Filter(xs, p) == [xs[0]] + rest;
        } else {
          assert Filter(xs, p) == rest;
        }
      }
    }
  }

  /**
   * A subsequence of a non-empty list either starts with its head and
   * continues in its tail, or lies wholly in its tail.
   */
  lemma SubseqHead<T>(r: seq<T>, xs: seq<T>) returns (head: bool)
    requires IsSubseq(r, xs) && xs != []
    ensures head ==> r != [] && r[0] == xs[0] && IsSubseq(r[1..], xs[1..])
    ensures !head ==> IsSubseq(r, xs[1..])
  {
    var idx :| SubseqBy(r, xs, idx);
    head := |r| > 0 && idx[0] == 0;
    if head {
      var tail := seq(|r| - 1, k requires 0 <= k < |r| - 1 => idx[k + 1] - 1);
      forall k | 0 <= k < |r| - 1 ensures 0 <= tail[k] < |xs| - 1 && r[1..][k] == xs[1..][tail[k]] {
        assert idx[0] < idx[k + 1];
      }
      assert SubseqBy(r[1..], xs[1..], tail);
    } else {
      var tail := seq(|r|, k requires 0 <= k < |r| => idx[k] - 1);
      forall k | 0 <= k < |r| ensures 0 <= tail[k] < |xs| - 1 && r[k] == xs[1..][tail[k]] {
        assert idx[0] <= idx[k];
      }
      assert SubseqBy(r, xs[1..], tail);
    }
  }

  /** What a filter keeps of a prefix is a subsequence of what it keeps of the whole. */
  lemma FilterPrefixSubseq<T>(a: seq<T>, b: seq<T>, p: T -> bool)
    requires a <= b
    ensures IsSubseq(Filter(a, p), Filter(b, p))
  {
    assert b[0..|a|] == a;
    SubseqSlice(b, 0, |a|);
    FilterKeepsSubseq(a, b, p);
  }

  /** Filtering both sides keeps a subsequence a subsequence. */
  lemma FilterKeepsSubseq<T>(a: seq<T>, b: seq<T>, p: T -> bool)
    requires IsSubseq(a, b)
    ensures IsSubseq(Filter(a, p), Filter(b, p))
  {
    FilterIsSubseq(a, p);
    SubseqTrans(Filter(a, p), a, b);
    SubseqOfFilter(Filter(a, p), b, p);
  }

  /** Splitting by a predicate: what is kept plus what is dropped is everything. */
  lemma {:induction false} FilterPartition<T>(xs: seq<T>, p: T -> bool)
    ensures |Filter(xs, p)| + |Filter(xs, x => !p(x))| == |xs|
  {
    if xs != [] {
      FilterPartition(xs[1..], p);
    }
  }

  /** Filters by predicates that agree everywhere agree. */
  lemma {:induction false} FilterSame<T>(xs: seq<T>, p: T -> bool, q: T -> bool)
    requires forall x :: p(x) == q(x)
    ensures Filter(xs, p) == Filter(xs, q)
  {
    if xs != [] {
      FilterSame(xs[1..], p, q);
    }
  }

  /** Index of the first element satisfying `p`; `|xs|` when there is none. */
  function FirstWhere<T>(xs: seq<T>, p: T -> bool): (r: nat)
    ensures r <= |xs|
    ensures forall j :: 0 <= j < r ==> !p(xs[j])
    ensures r < |xs| ==> p(xs[r])
  {
    if xs == [] || p(xs[0]) then 0 else 1 + FirstWhere(xs[1..], p)
  }

  /** Sum of a sequence of naturals. */
  function Sum(ns: seq<nat>): nat {
    if ns == [] then 0 else ns[0] + Sum(ns[1..])
  }

  /** Sums add up over concatenation. */
  lemma {:induction false} SumAppend(a: seq<nat>, b: seq<nat>)
    ensures Sum(a + b) == Sum(a) + Sum(b)
  {
    if a == [] {
      assert a + b == b;
    } else {
      assert (a + b)[1..] == a[1..] + b;
      SumAppend(a[1..], b);
    }
  }
}
