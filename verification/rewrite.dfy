/**
 * `re.sub(pattern, '', s)`: scan left to right; where the pattern matches,
 * drop the match and resume after it; elsewhere keep the character and move
 * on. A pattern is given as a matcher that tells, for a position, where a
 * match starting there ends. Replacing an empty match by nothing changes
 * nothing, so an empty (or malformed) match is read as no match.
 */
module Rewrite {
  import opened Wrappers
  import opened Seqs

  /** Where a match of the pattern starting at the given index ends, if one starts there. */
  type Matcher = (string, nat) -> Option<nat>

  /** A non-empty match starts at `i`. */
  predicate MatchesAt(s: string, m: Matcher, i: nat) {
    i < |s| && m(s, i).Some? && i < m(s, i).value <= |s|
  }

  /** The suffix `s[i..]` with every match removed. */
  function DeleteFrom(s: string, m: Matcher, i: nat): string
    requires i <= |s|
    decreases |s| - i
  {
    if i == |s| then []
    else if MatchesAt(s, m, i) then DeleteFrom(s, m, m(s, i).value)
    else [s[i]] + DeleteFrom(s, m, i + 1)
  }

  /** Deleting matches keeps the remaining characters in order. */
  lemma {:induction false} DeleteFromSubseq(s: string, m: Matcher, i: nat)
    requires i <= |s|
    ensures IsSubseq(DeleteFrom(s, m, i), s[i..])
    decreases |s| - i
  {
    if i == |s| {
      SubseqEmpty(s[i..]);
    } else if MatchesAt(s, m, i) {
      var k := m(s, i).value;
      DeleteFromSubseq(s, m, k);
      assert s[i..][k - i..] == s[k..];
      SubseqDrop(DeleteFrom(s, m, k), s[i..], k - i);
    } else {
      var r := DeleteFrom(s, m, i + 1);
      DeleteFromSubseq(s, m, i + 1);
      SubseqCons(r, s[i + 1..], s[i]);
      assert [s[i]] + s[i + 1..] == s[i..];
    }
  }

  /** `re.sub(pattern, '', s)` */
  function Delete(s: string, m: Matcher): (r: string)
    ensures IsSubseq(r, s)
    ensures |r| <= |s|
  {
    assert s[0..] == s;
    var r := DeleteFrom(s, m, 0);
    DeleteFromSubseq(s, m, 0);
    SubseqElements(r, s);
    r
  }

  /** A dropped subsequence of a suffix is a subsequence of the whole. */
  lemma SubseqDrop<T>(r: seq<T>, xs: seq<T>, n: nat)
    requires n <= |xs| && IsSubseq(r, xs[n..])
    ensures IsSubseq(r, xs)
  {
    var idx :| SubseqBy(r, xs[n..], idx);
    var shifted := seq(|idx|, j requires 0 <= j < |idx| => idx[j] + n);
    assert SubseqBy(r, xs, shifted);
  }

  /** Positions without a match are copied as they are. */
  lemma {:induction false} DeleteCopies(s: string, m: Matcher, i: nat, j: nat)
    requires i <= j <= |s|
    requires forall k :: i <= k < j ==> !MatchesAt(s, m, k)
    ensures DeleteFrom(s, m, i) == s[i..j] + DeleteFrom(s, m, j)
    decreases j - i
  {
    if i < j {
      CopyStep(s, m, i);
      DeleteCopies(s, m, i + 1, j);
      ConsSlice(s, i, j, DeleteFrom(s, m, j));
    }
  }

  /** A position without a match contributes its character. */
  lemma CopyStep(s: string, m: Matcher, i: nat)
    requires i < |s| && !MatchesAt(s, m, i)
    ensures DeleteFrom(s, m, i) == [s[i]] + DeleteFrom(s, m, i + 1)
  {
  }

  /** Consing a character onto a slice extends the slice by one. */
  lemma ConsSlice(s: string, i: nat, j: nat, tail: string)
    requires i < j <= |s|
    ensures [s[i]] + (s[i + 1..j] + tail) == s[i..j] + tail
  {
    assert [s[i]] + s[i + 1..j] == s[i..j];
  }

  /** Where the pattern never matches, nothing is removed. */
  lemma DeleteNothing(s: string, m: Matcher)
    requires forall k :: 0 <= k < |s| ==> !MatchesAt(s, m, k)
    ensures Delete(s, m) == s
  {
    DeleteCopies(s, m, 0, |s|);
  }

  /** A match running to the end of the string removes everything from its start. */
  lemma DeleteTail(s: string, m: Matcher, i: nat)
    requires i < |s| && MatchesAt(s, m, i) && m(s, i).value == |s|
    requires forall k :: 0 <= k < i ==> !MatchesAt(s, m, k)
    ensures Delete(s, m) == s[..i]
  {
    DeleteCopies(s, m, 0, i);
  }

  /** `re.search`: the leftmost position at or after `from` where a non-empty match starts. */
  function Search(s: string, m: Matcher, from: nat): (r: Option<nat>)
    decreases |s| - from
    ensures r.Some? ==> from <= r.value && MatchesAt(s, m, r.value)
    ensures r.Some? ==> forall j :: from <= j < r.value ==> !MatchesAt(s, m, j)
    ensures r.None? ==> forall j :: from <= j ==> !MatchesAt(s, m, j)
  {
    if from >= |s| then None
    else if MatchesAt(s, m, from) then Some(from)
    else Search(s, m, from + 1)
  }

  /** The search finds a match exactly where it is the leftmost one. */
  lemma SearchLeftmost(s: string, m: Matcher, i: nat)
    requires MatchesAt(s, m, i)
    requires forall j :: 0 <= j < i ==> !MatchesAt(s, m, j)
    ensures Search(s, m, 0) == Some(i)
  {
  }

  /** A pattern that matches nowhere is not found. */
  lemma SearchNoMatch(s: string, m: Matcher)
    requires !MatchesSomewhere(s, m)
    ensures Search(s, m, 0).None?
  {
  }

  /** A pattern that matches somewhere in `s`. */
  predicate MatchesSomewhere(s: string, m: Matcher) {
    exists i | 0 <= i < |s| :: MatchesAt(s, m, i)
  }
}
