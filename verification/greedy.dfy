/**
 * Greedy walks: go through a list once, keeping each element a rule
 * accepts given the elements kept before it. The variant filter of the
 * quantization selector is one; this module states what such a walk keeps.
 */
module Greedy {
  import opened Seqs

  /** Walk `xs` in order, appending each element `keep` accepts against what is kept so far. */
  function Walk<T>(xs: seq<T>, keep: (T, seq<T>) -> bool): (r: seq<T>)
    ensures |r| <= |xs|
  {
    if xs == [] then []
    else
      var prev := Walk(xs[..|xs| - 1], keep);
      if keep(xs[|xs| - 1], prev) then prev + [xs[|xs| - 1]] else prev
  }

  /**
   * `r`, taken from `xs` at the positions `idx`, is what a greedy walk keeps:
   * every pick is accepted against the picks before it, and every element
   * skipped between two picks is refused against the picks made before it.
   */
  ghost predicate Picks<T>(xs: seq<T>, keep: (T, seq<T>) -> bool, r: seq<T>, idx: seq<int>) {
    && SubseqBy(r, xs, idx)
    && (forall k :: 0 <= k < |r| ==> keep(r[k], r[..k]))
    && (forall i, k :: 0 <= i < |xs| && 0 <= k <= |r| && (k == 0 || idx[k - 1] < i) && (k == |r| || i < idx[k])
          ==> !keep(xs[i], r[..k]))
  }

  /** The walk's result is a set of greedy picks, at positions built one element at a time. */
  lemma {:induction false} WalkPicks<T>(xs: seq<T>, keep: (T, seq<T>) -> bool) returns (idx: seq<int>)
    ensures Picks(xs, keep, Walk(xs, keep), idx)
  {
    if xs == [] {
      idx := [];
    } else {
      var n := |xs| - 1;
      var prev := Walk(xs[..n], keep);
      var pidx := WalkPicks(xs[..n], keep);
      if keep(xs[n], prev) {
        idx := pidx + [n];
        PicksKeep(xs, keep, prev, pidx);
      } else {
        idx := pidx;
        PicksSkip(xs, keep, prev, pidx);
      }
    }
  }

  /** An accepted last element extends the picks over the elements before it. */
  lemma PicksKeep<T>(xs: seq<T>, keep: (T, seq<T>) -> bool, prev: seq<T>, pidx: seq<int>)
    requires xs != []
    requires Picks(xs[..|xs| - 1], keep, prev, pidx)
    requires keep(xs[|xs| - 1], prev)
    ensures Picks(xs, keep, prev + [xs[|xs| - 1]], pidx + [|xs| - 1])
  {
    var n := |xs| - 1;
    var front, r, idx := xs[..n], prev + [xs[n]], pidx + [n];
    assert SubseqBy(r, xs, idx);
    forall k | 0 <= k < |r| ensures keep(r[k], r[..k]) {
      assert r[..k] == prev[..k];
    }
    forall i, k | 0 <= i < |xs| && 0 <= k <= |r| && (k == 0 || idx[k - 1] < i) && (k == |r| || i < idx[k])
      ensures !keep(xs[i], r[..k])
    {
      assert k < |r|;
      assert k < |prev| ==> idx[k] == pidx[k] < |front|;
      assert k > 0 ==> idx[k - 1] == pidx[k - 1];
      assert i < n && front[i] == xs[i];
      assert r[..k] == prev[..k];
      PicksRefuse(front, keep, prev, pidx, i, k);
    }
  }

  /** A refused last element leaves the picks over the elements before it as they are. */
  lemma PicksSkip<T>(xs: seq<T>, keep: (T, seq<T>) -> bool, prev: seq<T>, pidx: seq<int>)
    requires xs != []
    requires Picks(xs[..|xs| - 1], keep, prev, pidx)
    requires !keep(xs[|xs| - 1], prev)
    ensures Picks(xs, keep, prev, pidx)
  {
    var n := |xs| - 1;
    var front := xs[..n];
    assert SubseqBy(prev, xs, pidx);
    forall i, k | 0 <= i < |xs| && 0 <= k <= |prev| && (k == 0 || pidx[k - 1] < i) && (k == |prev| || i < pidx[k])
      ensures !keep(xs[i], prev[..k])
    {
      if i < n {
        assert front[i] == xs[i];
        PicksRefuse(front, keep, prev, pidx, i, k);
      } else {
        assert k == |prev| && prev[..k] == prev;
      }
    }
  }

  /** Picks refuse each element skipped between two of them. */
  lemma PicksRefuse<T>(xs: seq<T>, keep: (T, seq<T>) -> bool, r: seq<T>, idx: seq<int>, i: nat, k: nat)
    requires Picks(xs, keep, r, idx)
    requires i < |xs| && k <= |r| && (k == 0 || idx[k - 1] < i) && (k == |r| || i < idx[k])
    ensures !keep(xs[i], r[..k])
  {
  }

  /** Greedy picks are unique: any picks that fit `xs` are the walk's result. */
  lemma {:induction false} PicksUnique<T>(xs: seq<T>, keep: (T, seq<T>) -> bool, r: seq<T>, idx: seq<int>)
    requires Picks(xs, keep, r, idx)
    ensures r == Walk(xs, keep)
    decreases |xs|
  {
    if xs == [] {
      IncreasingBounded(idx, |xs|);
    } else {
      var n := |xs| - 1;
      var prev := Walk(xs[..n], keep);
      if |r| > 0 && idx[|r| - 1] == n {
        var m := |r| - 1;
        PicksDropLast(xs, keep, r, idx);
        PicksUnique(xs[..n], keep, r[..m], idx[..m]);
        assert r[m] == xs[n] && r[..m] == prev;
        assert r == prev + [xs[n]];
      } else {
        PicksFront(xs, keep, r, idx);
        PicksUnique(xs[..n], keep, r, idx);
        assert r[..|r|] == r;
        PicksRefuse(xs, keep, r, idx, n, |r|);
      }
    }
  }

  /** Picks ending at the last element, without it, are the picks over the elements before it. */
  lemma PicksDropLast<T>(xs: seq<T>, keep: (T, seq<T>) -> bool, r: seq<T>, idx: seq<int>)
    requires xs != [] && r != []
    requires Picks(xs, keep, r, idx) && idx[|r| - 1] == |xs| - 1
    ensures Picks(xs[..|xs| - 1], keep, r[..|r| - 1], idx[..|r| - 1])
  {
    var n, m := |xs| - 1, |r| - 1;
    var front, r', idx' := xs[..n], r[..m], idx[..m];
    assert SubseqBy(r', front, idx') by {
      forall k | 0 <= k < m ensures 0 <= idx'[k] < n {
        assert idx[k] < idx[m];
      }
    }
    forall k | 0 <= k < |r'| ensures keep(r'[k], r'[..k]) {
      assert r'[..k] == r[..k];
    }
    forall i, k | 0 <= i < |front| && 0 <= k <= |r'| && (k == 0 || idx'[k - 1] < i) && (k == |r'| || i < idx'[k])
      ensures !keep(front[i], r'[..k])
    {
      assert r'[..k] == r[..k] && front[i] == xs[i];
      PicksRefuse(xs, keep, r, idx, i, k);
    }
  }

  /** Picks that all lie before the last element are the picks over the elements before it. */
  lemma PicksFront<T>(xs: seq<T>, keep: (T, seq<T>) -> bool, r: seq<T>, idx: seq<int>)
    requires xs != []
    requires Picks(xs, keep, r, idx) && !(|r| > 0 && idx[|r| - 1] == |xs| - 1)
    ensures Picks(xs[..|xs| - 1], keep, r, idx)
  {
    var n := |xs| - 1;
    var front := xs[..n];
    assert SubseqBy(r, front, idx) by {
      forall k | 0 <= k < |r| ensures idx[k] < n {
        assert idx[k] <= idx[|r| - 1];
      }
    }
    forall i, k | 0 <= i < |front| && 0 <= k <= |r| && (k == 0 || idx[k - 1] < i) && (k == |r| || i < idx[k])
      ensures !keep(front[i], r[..k])
    {
      assert front[i] == xs[i];
      PicksRefuse(xs, keep, r, idx, i, k);
    }
  }
}
