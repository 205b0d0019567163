/**
 * Grouping by a string key into an insertion-ordered dictionary of lists:
 * `groups[key(x)].append(x)` for each `x` in turn, with a group created the
 * first time its key is seen.
 */
module Grouping {

  datatype Group<T> = Group(name: string, members: seq<T>)

  /** The elements of `xs` whose key is `k`, in their order in `xs`. */
  function Members<T>(xs: seq<T>, key: T -> string, k: string): seq<T> {
    if xs == [] then []
    else Members(xs[..|xs| - 1], key, k) + (if key(xs[|xs| - 1]) == k then [xs[|xs| - 1]] else [])
  }

  /** The groups' names are pairwise different. */
  ghost predicate DistinctNames<T>(gs: seq<Group<T>>) {
    forall i, j :: 0 <= i < j < |gs| ==> gs[i].name != gs[j].name
  }

  /** Some group carries the name `k`. */
  ghost predicate HasName<T>(gs: seq<Group<T>>, k: string) {
    exists i :: 0 <= i < |gs| && gs[i].name == k
  }

  /**
   * `gs` groups `xs` by `key`: one group per key that occurs, no other
   * groups, and each group holds exactly the elements with its key, in order.
   */
  ghost predicate IsGrouping<T>(gs: seq<Group<T>>, xs: seq<T>, key: T -> string) {
    && DistinctNames(gs)
    && (forall i :: 0 <= i < |gs| ==> gs[i].members == Members(xs, key, gs[i].name) && gs[i].members != [])
    && (forall j :: 0 <= j < |xs| ==> HasName(gs, key(xs[j])))
  }

  /** `groups[k].append(x)` */
  function AddTo<T>(gs: seq<Group<T>>, k: string, x: T): (r: seq<Group<T>>)
    ensures |r| == |gs| || |r| == |gs| + 1
  {
    if gs == [] then [Group(k, [x])]
    else if gs[0].name == k then [Group(k, gs[0].members + [x])] + gs[1..]
    else [gs[0]] + AddTo(gs[1..], k, x)
  }

  /** Appending to an existing group changes that group only. */
  lemma {:induction false} AddToExisting<T>(gs: seq<Group<T>>, k: string, x: T, i: nat)
    requires DistinctNames(gs) && i < |gs| && gs[i].name == k
    ensures var r := AddTo(gs, k, x);
      && |r| == |gs|
      && r[i] == Group(k, gs[i].members + [x])
      && (forall j :: 0 <= j < |gs| && j != i ==> r[j] == gs[j])
  {
    if i > 0 {
      assert gs[0].name != k;
      AddToExisting(gs[1..], k, x, i - 1);
    }
  }

  /** A new key opens a new group at the end. */
  lemma {:induction false} AddToNew<T>(gs: seq<Group<T>>, k: string, x: T)
    requires !HasName(gs, k)
    ensures AddTo(gs, k, x) == gs + [Group(k, [x])]
  {
    if gs != [] {
      assert gs[0].name != k;
      AddToNew(gs[1..], k, x);
    }
  }

  /** `dict(groups)` after the loop over `xs`. */
  function GroupBy<T>(xs: seq<T>, key: T -> string): seq<Group<T>> {
    if xs == [] then []
    else AddTo(GroupBy(xs[..|xs| - 1], key), key(xs[|xs| - 1]), xs[|xs| - 1])
  }

  /** Appending one element extends only the members list of its own key. */
  lemma MembersSnoc<T>(xs: seq<T>, x: T, key: T -> string, k: string)
    ensures Members(xs + [x], key, k) == Members(xs, key, k) + (if key(x) == k then [x] else [])
  {
    assert (xs + [x])[..|xs|] == xs;
  }

  /** Adding one element keeps the grouping exact. */
  lemma AddToGrouping<T>(gs: seq<Group<T>>, xs: seq<T>, x: T, key: T -> string)
    requires IsGrouping(gs, xs, key)
    ensures IsGrouping(AddTo(gs, key(x), x), xs + [x], key)
  {
    if HasName(gs, key(x)) {
      var i :| 0 <= i < |gs| && gs[i].name == key(x);
      AddToExistingGrouping(gs, xs, x, key, i);
    } else {
      AddToNewGrouping(gs, xs, x, key);
    }
  }

  /** An element with a known key keeps the grouping exact. */
  lemma AddToExistingGrouping<T>(gs: seq<Group<T>>, xs: seq<T>, x: T, key: T -> string, i: nat)
    requires IsGrouping(gs, xs, key) && i < |gs| && gs[i].name == key(x)
    ensures IsGrouping(AddTo(gs, key(x), x), xs + [x], key)
  {
    var ys, k := xs + [x], key(x);
    var r := AddTo(gs, k, x);
    AddToExisting(gs, k, x, i);
    forall m | 0 <= m < |r| ensures r[m].members == Members(ys, key, r[m].name) && r[m].members != [] {
      MembersSnoc(xs, x, key, r[m].name);
    }
    forall j | 0 <= j < |ys| ensures HasName(r, key(ys[j])) {
      if j < |xs| {
        assert ys[j] == xs[j];
        var m :| 0 <= m < |gs| && gs[m].name == key(xs[j]);
        assert r[m].name == gs[m].name;
      } else {
        assert r[i].name == k;
      }
    }
  }

  /** An element with a new key keeps the grouping exact. */
  lemma AddToNewGrouping<T>(gs: seq<Group<T>>, xs: seq<T>, x: T, key: T -> string)
    requires IsGrouping(gs, xs, key) && !HasName(gs, key(x))
    ensures IsGrouping(AddTo(gs, key(x), x), xs + [x], key)
  {
    AddToNew(gs, key(x), x);
    NewGroupDistinct(gs, key(x), x);
    NewGroupMembers(gs, xs, x, key);
    NewGroupNames(gs, xs, x, key);
  }

  /** A group with an unused name keeps the names distinct. */
  lemma NewGroupDistinct<T>(gs: seq<Group<T>>, k: string, x: T)
    requires DistinctNames(gs) && !HasName(gs, k)
    ensures DistinctNames(gs + [Group(k, [x])])
  {
    var r := gs + [Group(k, [x])];
    forall i, j | 0 <= i < j < |r| ensures r[i].name != r[j].name {
      assert r[i] == gs[i];
      if j < |gs| {
        assert r[j] == gs[j];
      }
    }
  }

  /** The old groups gain no members and the new group holds just the new element. */
  lemma NewGroupMembers<T>(gs: seq<Group<T>>, xs: seq<T>, x: T, key: T -> string)
    requires IsGrouping(gs, xs, key) && !HasName(gs, key(x))
    ensures var r := gs + [Group(key(x), [x])];
      forall m :: 0 <= m < |r| ==> r[m].members == Members(xs + [x], key, r[m].name) && r[m].members != []
  {
    var ys, k := xs + [x], key(x);
    var r := gs + [Group(k, [x])];
    forall m | 0 <= m < |gs| ensures r[m].members == Members(ys, key, r[m].name) {
      assert r[m] == gs[m];
      MembersSnoc(xs, x, key, gs[m].name);
    }
    forall j | 0 <= j < |xs| ensures key(xs[j]) != k {
      var m :| 0 <= m < |gs| && gs[m].name == key(xs[j]);
    }
    MembersAbsent(xs, key, k);
    MembersSnoc(xs, x, key, k);
  }

  /** Every element, old or new, still finds a group with its key. */
  lemma NewGroupNames<T>(gs: seq<Group<T>>, xs: seq<T>, x: T, key: T -> string)
    requires forall j :: 0 <= j < |xs| ==> HasName(gs, key(xs[j]))
    ensures forall j :: 0 <= j < |xs + [x]| ==> HasName(gs + [Group(key(x), [x])], key((xs + [x])[j]))
  {
    var ys, r := xs + [x], gs + [Group(key(x), [x])];
    forall j | 0 <= j < |ys| ensures HasName(r, key(ys[j])) {
      if j < |xs| {
        assert ys[j] == xs[j];
        var m :| 0 <= m < |gs| && gs[m].name == key(xs[j]);
        assert r[m] == gs[m];
      } else {
        assert r[|gs|].name == key(x);
      }
    }
  }

  /** A key that labels no element has no members. */
  lemma {:induction false} MembersAbsent<T>(xs: seq<T>, key: T -> string, k: string)
    requires forall j :: 0 <= j < |xs| ==> key(xs[j]) != k
    ensures Members(xs, key, k) == []
  {
    if xs != [] {
      MembersAbsent(xs[..|xs| - 1], key, k);
    }
  }

  /** `GroupBy` puts every element in exactly one group, in input order. */
  lemma {:induction false} GroupByIsGrouping<T>(xs: seq<T>, key: T -> string)
    ensures IsGrouping(GroupBy(xs, key), xs, key)
  {
    if xs != [] {
      var front := xs[..|xs| - 1];
      GroupByIsGrouping(front, key);
      AddToGrouping(GroupBy(front, key), front, xs[|xs| - 1], key);
      assert front + [xs[|xs| - 1]] == xs;
    }
  }

  /** The names of the groups, as a set. */
  function Names<T>(gs: seq<Group<T>>): set<string> {
    if gs == [] then {} else Names(gs[..|gs| - 1]) + {gs[|gs| - 1].name}
  }

  /** The number of elements held by all groups together. */
  function Total<T>(gs: seq<Group<T>>): nat {
    if gs == [] then 0 else |gs[0].members| + Total(gs[1..])
  }

  /** The total splits off the last group. */
  lemma {:induction false} TotalLast<T>(gs: seq<Group<T>>)
    requires gs != []
    ensures Total(gs) == Total(gs[..|gs| - 1]) + |gs[|gs| - 1].members|
  {
    if |gs| > 1 {
      TotalLast(gs[1..]);
      assert gs[1..][..|gs| - 2] == gs[..|gs| - 1][1..];
    }
  }

  /** Adding one element adds one to the total. */
  lemma {:induction false} TotalAddTo<T>(gs: seq<Group<T>>, k: string, x: T)
    ensures Total(AddTo(gs, k, x)) == Total(gs) + 1
  {
    if gs != [] && gs[0].name != k {
      TotalAddTo(gs[1..], k, x);
      assert AddTo(gs, k, x)[1..] == AddTo(gs[1..], k, x);
    }
  }

  /** The group sizes add up to the number of elements grouped. */
  lemma {:induction false} GroupByTotal<T>(xs: seq<T>, key: T -> string)
    ensures Total(GroupBy(xs, key)) == |xs|
  {
    if xs != [] {
      GroupByTotal(xs[..|xs| - 1], key);
      TotalAddTo(GroupBy(xs[..|xs| - 1], key), key(xs[|xs| - 1]), xs[|xs| - 1]);
    }
  }

  /** Every member of a group is an element of the input. */
  lemma {:induction false} MembersFromInput<T>(xs: seq<T>, key: T -> string, k: string)
    ensures forall j :: 0 <= j < |Members(xs, key, k)| ==>
      (Members(xs, key, k)[j] in xs && key(Members(xs, key, k)[j]) == k)
  {
    if xs != [] {
      MembersFromInput(xs[..|xs| - 1], key, k);
      var m := Members(xs[..|xs| - 1], key, k);
      forall j | 0 <= j < |m| ensures m[j] in xs {
        assert m[j] in xs[..|xs| - 1];
      }
    }
  }
}
