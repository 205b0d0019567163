/**
 * Python's `list.sort(key=..., reverse=True)`: a stable sort into descending
 * key order. Elements with equal keys keep their original relative order,
 * which is what the pipeline's output order depends on when sizes or
 * download counts tie. Keys are pairs compared lexicographically, as Python
 * compares tuples; a single integer key is the pair `(k, 0)`.
 */
module Sorting {
  import opened Seqs

  datatype Key = Key(major: int, minor: int)

  /** Python tuple `<` on two-element integer tuples. */
  predicate KeyLt(a: Key, b: Key) {
    a.major < b.major || (a.major == b.major && a.minor < b.minor)
  }

  predicate KeyLe(a: Key, b: Key) {
    !KeyLt(b, a)
  }

  /** Keys never increase from left to right. */
  predicate SortedDesc<T>(xs: seq<T>, key: T -> Key) {
    forall i, j :: 0 <= i < j < |xs| ==> KeyLe(key(xs[j]), key(xs[i]))
  }

  /** The elements of `xs` whose key is `k`, in their order in `xs`. */
  function WithKey<T>(xs: seq<T>, key: T -> Key, k: Key): seq<T> {
    if xs == [] then []
    else (if key(xs[0]) == k then [xs[0]] else []) + WithKey(xs[1..], key, k)
  }

  /** Picking out one key distributes over concatenation. */
  lemma {:induction false} WithKeyAppend<T>(xs: seq<T>, ys: seq<T>, key: T -> Key, k: Key)
    ensures WithKey(xs + ys, key, k) == WithKey(xs, key, k) + WithKey(ys, key, k)
  {
    if xs == [] {
      assert xs + ys == ys;
    } else {
      assert (xs + ys)[1..] == xs[1..] + ys;
      WithKeyAppend(xs[1..], ys, key, k);
    }
  }

  /** In a descending sequence headed by a key below `k`, no element has key `k`. */
  lemma {:induction false} WithKeyBelowHead<T>(ys: seq<T>, key: T -> Key, k: Key)
    requires SortedDesc(ys, key)
    requires ys != [] && KeyLt(key(ys[0]), k)
    ensures WithKey(ys, key, k) == []
  {
    if |ys| > 1 {
      assert KeyLe(key(ys[1]), key(ys[0]));
      WithKeyBelowHead(ys[1..], key, k);
    }
  }

  /**
   * Place `x` in front of the first element whose key is strictly smaller:
   * after every element whose key is at least its own.
   */
  function Insert<T>(x: T, ys: seq<T>, key: T -> Key): (r: seq<T>)
    ensures |r| == |ys| + 1
  {
    if ys == [] then [x]
    else if KeyLt(key(ys[0]), key(x)) then [x] + ys
    else [ys[0]] + Insert(x, ys[1..], key)
  }

  /** Inserting adds exactly the one element. */
  lemma {:induction false} InsertPermutes<T>(x: T, ys: seq<T>, key: T -> Key)
    ensures multiset(Insert(x, ys, key)) == multiset(ys) + multiset{x}
  {
    if ys != [] && !KeyLt(key(ys[0]), key(x)) {
      InsertPermutes(x, ys[1..], key);
      assert ys == [ys[0]] + ys[1..];
    }
  }

  /** Inserting into a sorted list keeps it sorted. */
  lemma {:induction false} InsertSorted<T>(x: T, ys: seq<T>, key: T -> Key)
    requires SortedDesc(ys, key)
    ensures SortedDesc(Insert(x, ys, key), key)
  {
    if ys != [] && !KeyLt(key(ys[0]), key(x)) {
      var tail := ys[1..];
      SortedTail(ys, key);
      InsertSorted(x, tail, key);
      forall j | 0 <= j < |tail| ensures KeyLe(key(tail[j]), key(ys[0])) {
        assert tail[j] == ys[j + 1];
      }
      InsertBounded(x, tail, key, key(ys[0]));
      SortedCons(ys[0], Insert(x, tail, key), key);
    } else if ys != [] {
      forall j | 0 <= j < |ys| ensures KeyLe(key(ys[j]), key(x)) {
        assert KeyLe(key(ys[j]), key(ys[0]));
      }
      SortedCons(x, ys, key);
    }
  }

  /** Inserting below a bound that holds for `x` and all of `ys` keeps it holding. */
  lemma {:induction false} InsertBounded<T>(x: T, ys: seq<T>, key: T -> Key, b: Key)
    requires KeyLe(key(x), b)
    requires forall j :: 0 <= j < |ys| ==> KeyLe(key(ys[j]), b)
    ensures forall j :: 0 <= j < |Insert(x, ys, key)| ==> KeyLe(key(Insert(x, ys, key)[j]), b)
  {
    if ys != [] && !KeyLt(key(ys[0]), key(x)) {
      var tail := ys[1..];
      assert forall j :: 0 <= j < |tail| ==> tail[j] == ys[j + 1];
      InsertBounded(x, tail, key, b);
      var r := Insert(x, ys, key);
      assert r == [ys[0]] + Insert(x, tail, key);
    }
  }

  /** A head no smaller than a descending tail gives a descending sequence. */
  lemma SortedCons<T>(h: T, t: seq<T>, key: T -> Key)
    requires SortedDesc(t, key)
    requires forall j :: 0 <= j < |t| ==> KeyLe(key(t[j]), key(h))
    ensures SortedDesc([h] + t, key)
  {
    var r := [h] + t;
    forall i, j | 0 <= i < j < |r| ensures KeyLe(key(r[j]), key(r[i])) {
      assert r[j] == t[j - 1];
      if i > 0 {
        assert r[i] == t[i - 1];
      }
    }
  }

  /** The one-element case of `WithKey`. */
  function Tag<T>(x: T, key: T -> Key, k: Key): (r: seq<T>)
    ensures r == WithKey([x], key, k)
  {
    assert [x][1..] == [];
    if key(x) == k then [x] else []
  }

  /** Insertion puts the new element after the existing ones with the same key. */
  lemma {:induction false} InsertStable<T>(x: T, ys: seq<T>, key: T -> Key, k: Key)
    requires SortedDesc(ys, key)
    ensures WithKey(Insert(x, ys, key), key, k) == WithKey(ys, key, k) + Tag(x, key, k)
  {
    if ys == [] {
      assert Insert(x, ys, key) == [x];
    } else if KeyLt(key(ys[0]), key(x)) {
      assert Insert(x, ys, key) == [x] + ys;
      WithKeyAppend([x], ys, key, k);
      if key(x) == k {
        WithKeyBelowHead(ys, key, k);
      }
    } else {
      var tail := ys[1..];
      SortedTail(ys, key);
      InsertStable(x, tail, key, k);
      InsertStableStep(x, ys, key, k);
    }
  }

  /** The tail of a sorted list is sorted. */
  lemma SortedTail<T>(ys: seq<T>, key: T -> Key)
    requires SortedDesc(ys, key) && ys != []
    ensures SortedDesc(ys[1..], key)
  {
  }

  /** One step of `InsertStable` past a head that stays in front. */
  lemma {:induction false} InsertStableStep<T>(x: T, ys: seq<T>, key: T -> Key, k: Key)
    requires ys != [] && !KeyLt(key(ys[0]), key(x))
    requires WithKey(Insert(x, ys[1..], key), key, k) == WithKey(ys[1..], key, k) + Tag(x, key, k)
    ensures WithKey(Insert(x, ys, key), key, k) == WithKey(ys, key, k) + Tag(x, key, k)
  {
    var head, tail := [ys[0]], ys[1..];
    var rest := Insert(x, tail, key);
    var a, b, t := WithKey(head, key, k), WithKey(tail, key, k), Tag(x, key, k);
    assert WithKey(Insert(x, ys, key), key, k) == a + WithKey(rest, key, k) by {
      assert Insert(x, ys, key) == head + rest;
      WithKeyAppend(head, rest, key, k);
    }
    assert WithKey(ys, key, k) == a + b by {
      assert head + tail == ys;
      WithKeyAppend(head, tail, key, k);
    }
    assert a + (b + t) == (a + b) + t;
  }

  /** `sorted(xs, key=key, reverse=True)`, built by inserting elements in order. */
  function SortDesc<T>(xs: seq<T>, key: T -> Key): (r: seq<T>)
    ensures |r| == |xs|
  {
    if xs == [] then []
    else Insert(xs[|xs| - 1], SortDesc(xs[..|xs| - 1], key), key)
  }

  /** The sort result is a permutation of its input. */
  lemma {:induction false} SortDescPermutes<T>(xs: seq<T>, key: T -> Key)
    ensures multiset(SortDesc(xs, key)) == multiset(xs)
  {
    if xs != [] {
      var front := xs[..|xs| - 1];
      SortDescPermutes(front, key);
      InsertPermutes(xs[|xs| - 1], SortDesc(front, key), key);
      assert xs == front + [xs[|xs| - 1]];
    }
  }

  /** Every element of the sort result comes from the input. */
  lemma SortDescMembers<T>(xs: seq<T>, key: T -> Key)
    ensures forall k :: 0 <= k < |SortDesc(xs, key)| ==> SortDesc(xs, key)[k] in xs
  {
    var r := SortDesc(xs, key);
    SortDescPermutes(xs, key);
    forall k | 0 <= k < |r| ensures r[k] in xs {
      assert r[k] in multiset(r);
    }
  }

  /** The sort result is in descending key order. */
  lemma {:induction false} SortDescSorted<T>(xs: seq<T>, key: T -> Key)
    ensures SortedDesc(SortDesc(xs, key), key)
  {
    if xs != [] {
      SortDescSorted(xs[..|xs| - 1], key);
      InsertSorted(xs[|xs| - 1], SortDesc(xs[..|xs| - 1], key), key);
    }
  }

  /** Stability: for every key, the elements carrying it appear in their original order. */
  lemma {:induction false} SortDescStable<T>(xs: seq<T>, key: T -> Key, k: Key)
    ensures WithKey(SortDesc(xs, key), key, k) == WithKey(xs, key, k)
  {
    if xs != [] {
      var front := xs[..|xs| - 1];
      var x := xs[|xs| - 1];
      SortDescStable(front, key, k);
      SortDescSorted(front, key);
      InsertStable(x, SortDesc(front, key), key, k);
      assert xs == front + [x];
      WithKeyAppend(front, [x], key, k);
      assert SortDesc(xs, key) == Insert(x, SortDesc(front, key), key);
    }
  }

  /** Sorting an already descending sequence changes nothing. */
  lemma {:induction false} SortDescOfSorted<T>(xs: seq<T>, key: T -> Key)
    requires SortedDesc(xs, key)
    ensures SortDesc(xs, key) == xs
  {
    if xs != [] {
      var front := xs[..|xs| - 1];
      var x := xs[|xs| - 1];
      assert SortedDesc(front, key);
      SortDescOfSorted(front, key);
      InsertAtEnd(x, front, key);
    }
  }

  /** Inserting an element no larger than all of `ys` appends it. */
  lemma {:induction false} InsertAtEnd<T>(x: T, ys: seq<T>, key: T -> Key)
    requires forall j :: 0 <= j < |ys| ==> KeyLe(key(x), key(ys[j]))
    ensures Insert(x, ys, key) == ys + [x]
  {
    if ys != [] {
      InsertAtEnd(x, ys[1..], key);
      assert [ys[0]] + (ys[1..] + [x]) == ys + [x];
    }
  }

  /** Deleting elements from a descending sequence leaves it descending. */
  lemma SortedSubseq<T>(r: seq<T>, xs: seq<T>, key: T -> Key)
    requires IsSubseq(r, xs) && SortedDesc(xs, key)
    ensures SortedDesc(r, key)
  {
    var idx :| SubseqBy(r, xs, idx);
    forall i, j | 0 <= i < j < |r| ensures KeyLe(key(r[j]), key(r[i])) {
      assert idx[i] < idx[j];
    }
  }
}
