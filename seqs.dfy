/** Array.prototype.filter and a stable sort by an integer key (Array.prototype.sort with a
    comparator, LINQ OrderBy), with the facts the model uses about them. */
module Seqs {
  import opened Wrappers

  /** The elements satisfying p, in their original order. */
  function Filter<T>(s: seq<T>, p: T -> bool): (r: seq<T>)
    ensures |r| <= |s|
    ensures forall i :: 0 <= i < |r| ==> p(r[i])
  {
    if |s| == 0 then []
    else
      var rest := Filter(s[1..], p);
      if p(s[0]) then [s[0]] + rest else rest
  }

  /** Filtering keeps a sub-multiset of the input. */
  lemma {:induction false} FilterSubMultiset<T>(s: seq<T>, p: T -> bool)
    ensures multiset(Filter(s, p)) <= multiset(s)
  {
    if |s| > 0 {
      FilterSubMultiset(s[1..], p);
      assert s == [s[0]] + s[1..];
    }
  }

  /** Filtering keeps every occurrence of an element satisfying p and none of the others. */
  lemma {:induction false} FilterCounts<T>(s: seq<T>, p: T -> bool, x: T)
    ensures multiset(Filter(s, p))[x] == if p(x) then multiset(s)[x] else 0
  {
    if |s| > 0 {
      FilterCounts(s[1..], p, x);
      assert s == [s[0]] + s[1..];
    }
  }

  /** The elements of `a` occur in `b` in the same order. */
  predicate IsSubsequence<T(==)>(a: seq<T>, b: seq<T>)
    decreases |b|
  {
    if |a| == 0 then true
    else if |b| == 0 then false
    else (a[0] == b[0] && IsSubsequence(a[1..], b[1..])) || IsSubsequence(a, b[1..])
  }

  /** Filtering keeps the input's order. */
  lemma {:induction false} FilterSubsequence<T>(s: seq<T>, p: T -> bool)
    ensures IsSubsequence(Filter(s, p), s)
  {
    if |s| > 0 {
      FilterSubsequence(s[1..], p);
      var r := Filter(s, p);
      if p(s[0]) {
        assert r == [s[0]] + Filter(s[1..], p);
        assert r[1..] == Filter(s[1..], p);
      }
    }
  }

  /** An element is kept exactly when it is in the input and satisfies p. */
  lemma {:induction false} FilterMembers<T>(s: seq<T>, p: T -> bool, x: T)
    ensures x in Filter(s, p) <==> x in s && p(x)
  {
    if |s| > 0 {
      FilterMembers(s[1..], p, x);
      assert s == [s[0]] + s[1..];
    }
  }

  /** The filter is empty exactly when no element satisfies p. */
  lemma {:induction false} FilterEmpty<T>(s: seq<T>, p: T -> bool)
    ensures |Filter(s, p)| == 0 <==> forall i :: 0 <= i < |s| ==> !p(s[i])
  {
    if |s| > 0 {
      FilterEmpty(s[1..], p);
      assert forall i :: 1 <= i < |s| ==> s[i] == s[1..][i - 1];
    }
  }

  /** The first element kept is the first element of the input satisfying p. */
  lemma {:induction false} FilterFirst<T>(s: seq<T>, p: T -> bool)
    requires |Filter(s, p)| > 0
    ensures exists i :: 0 <= i < |s| && s[i] == Filter(s, p)[0] && p(s[i]) && forall j :: 0 <= j < i ==> !p(s[j])
  {
    if !p(s[0]) {
      FilterFirst(s[1..], p);
      var i :| 0 <= i < |s[1..]| && s[1..][i] == Filter(s[1..], p)[0] && p(s[1..][i]) && forall j :: 0 <= j < i ==> !p(s[1..][j]);
      assert s[i + 1] == s[1..][i];
      assert forall j :: 1 <= j < i + 1 ==> s[j] == s[1..][j - 1];
    }
  }

  /** Filtering distributes over concatenation. */
  lemma {:induction false} FilterAppend<T>(a: seq<T>, b: seq<T>, p: T -> bool)
    ensures Filter(a + b, p) == Filter(a, p) + Filter(b, p)
  {
    if |a| > 0 {
      FilterAppend(a[1..], b, p);
      assert (a + b)[0] == a[0];
      assert (a + b)[1..] == a[1..] + b;
      var head := if p(a[0]) then [a[0]] else [];
      assert Filter(a + b, p) == head + Filter(a[1..] + b, p);
      assert Filter(a, p) == head + Filter(a[1..], p);
    } else {
      assert a + b == b;
    }
  }

  /** The last element kept is the last element of the input satisfying p. */
  lemma {:induction false} FilterLast<T>(s: seq<T>, p: T -> bool)
    requires |Filter(s, p)| > 0
    ensures exists i :: (0 <= i < |s| && s[i] == Filter(s, p)[|Filter(s, p)| - 1] && p(s[i])
      && forall j :: i < j < |s| ==> !p(s[j]))
    decreases |s|
  {
    var n := |s|;
    var init := s[..n - 1];
    assert s == init + [s[n - 1]];
    FilterAppend(init, [s[n - 1]], p);
    assert [s[n - 1]][1..] == [];
    if p(s[n - 1]) {
      assert Filter(s, p)[|Filter(s, p)| - 1] == s[n - 1];
    } else {
      assert Filter(s, p) == Filter(init, p);
      FilterLast(init, p);
      var i :| 0 <= i < |init| && init[i] == Filter(init, p)[|Filter(init, p)| - 1] && p(init[i])
        && forall j :: i < j < |init| ==> !p(init[j]);
      assert s[i] == init[i];
      assert forall j :: i < j < n - 1 ==> s[j] == init[j];
    }
  }

  /** Array.prototype.findIndex / FirstOrDefault: the index of the first element satisfying p. */
  function FirstIndex<T>(s: seq<T>, p: T -> bool): (r: Option<nat>)
    ensures r.Some? ==> (r.value < |s| && p(s[r.value]) && forall j :: 0 <= j < r.value ==> !p(s[j]))
    ensures r.None? ==> forall j :: 0 <= j < |s| ==> !p(s[j])
  {
    if |s| == 0 then None
    else if p(s[0]) then Some(0)
    else
      var rest := FirstIndex(s[1..], p);
      if rest.Some? then Some(rest.value + 1) else None
  }

  /** The elements are in ascending order of key. */
  predicate SortedBy<T>(s: seq<T>, key: T -> int) {
    forall i, j :: 0 <= i < j < |s| ==> key(s[i]) <= key(s[j])
  }

  /** x placed before the first element whose key is not smaller, so that earlier elements of
      equal key stay in front. */
  function InsertBy<T>(x: T, s: seq<T>, key: T -> int): (r: seq<T>)
    ensures |r| == |s| + 1
    ensures multiset(r) == multiset(s) + multiset{x}
  {
    if |s| == 0 || key(x) <= key(s[0]) then [x] + s
    else
      assert s == [s[0]] + s[1..];
      [s[0]] + InsertBy(x, s[1..], key)
  }

  /** Inserting into a sorted sequence keeps it sorted; the new head is x or the old head. */
  lemma {:induction false} InsertBySorted<T>(x: T, s: seq<T>, key: T -> int)
    requires SortedBy(s, key)
    ensures InsertBy(x, s, key)[0] == x || (|s| > 0 && InsertBy(x, s, key)[0] == s[0])
    ensures SortedBy(InsertBy(x, s, key), key)
  {
    if |s| > 0 && key(x) > key(s[0]) {
      var rest := InsertBy(x, s[1..], key);
      InsertBySorted(x, s[1..], key);
      assert key(s[0]) <= key(rest[0]);
      assert forall j :: 0 <= j < |rest| ==> key(rest[0]) <= key(rest[j]);
      assert InsertBy(x, s, key) == [s[0]] + rest;
    }
  }

  /** A stable insertion sort: an ascending ordering by key of the same elements. */
  function SortBy<T>(s: seq<T>, key: T -> int): (r: seq<T>)
    ensures SortedBy(r, key)
    ensures multiset(r) == multiset(s)
    ensures |r| == |s|
  {
    if |s| == 0 then []
    else
      assert s == [s[0]] + s[1..];
      var sorted := SortBy(s[1..], key);
      InsertBySorted(s[0], sorted, key);
      InsertBy(s[0], sorted, key)
  }
}
