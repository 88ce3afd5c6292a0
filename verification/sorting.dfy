/** `Array.prototype.sort` with a comparator, as a stable insertion sort:
    `cmp(a, b) < 0` puts `a` before `b`, anything else keeps the input
    order. */
module Sorting {

  /** Sorted by `key`, smallest first. */
  ghost predicate SortedBy<T>(s: seq<T>, key: T -> int) {
    forall i, j :: 0 <= i < j < |s| ==> key(s[i]) <= key(s[j])
  }

  /** Puts `x` after every leading element that sorts strictly before it. */
  function Insert<T>(x: T, s: seq<T>, cmp: (T, T) -> int): (r: seq<T>)
    ensures multiset(r) == multiset(s) + multiset{x}
    ensures |r| == |s| + 1
  {
    if s == [] then [x]
    else if cmp(s[0], x) < 0 then
      assert s == [s[0]] + s[1..];
      [s[0]] + Insert(x, s[1..], cmp)
    else [x] + s
  }

  /** `s.sort(cmp)`: the same elements, in comparator order, ties in input
      order. */
  function Sort<T>(s: seq<T>, cmp: (T, T) -> int): (r: seq<T>)
    ensures multiset(r) == multiset(s)
    ensures |r| == |s|
  {
    if s == [] then []
    else
      assert s == [s[0]] + s[1..];
      Insert(s[0], Sort(s[1..], cmp), cmp)
  }

  /** Prepending an element no larger than any other keeps a sequence
      sorted. */
  lemma ConsSorted<T>(h: T, t: seq<T>, key: T -> int)
    requires SortedBy(t, key)
    requires forall k :: 0 <= k < |t| ==> key(h) <= key(t[k])
    ensures SortedBy([h] + t, key)
  {
    var r := [h] + t;
    forall i, j | 0 <= i < j < |r|
      ensures key(r[i]) <= key(r[j])
    {
      assert r[j] == t[j - 1];
      if i > 0 {
        assert r[i] == t[i - 1];
      }
    }
  }

  /** Inserting never introduces an element below a common lower bound. */
  lemma {:induction false} InsertBound<T>(x: T, s: seq<T>, cmp: (T, T) -> int, key: T -> int, lo: int)
    requires lo <= key(x)
    requires forall k :: 0 <= k < |s| ==> lo <= key(s[k])
    ensures forall k :: 0 <= k < |Insert(x, s, cmp)| ==> lo <= key(Insert(x, s, cmp)[k])
    decreases |s|
  {
    if s != [] && cmp(s[0], x) < 0 {
      assert forall k :: 0 <= k < |s[1..]| ==> s[1..][k] == s[k + 1];
      InsertBound(x, s[1..], cmp, key, lo);
      var r := Insert(x, s, cmp);
      assert forall k :: 0 < k < |r| ==> r[k] == Insert(x, s[1..], cmp)[k - 1];
    } else if s != [] {
      var r := Insert(x, s, cmp);
      assert forall k :: 0 < k < |r| ==> r[k] == s[k - 1];
    }
  }

  /** Inserting into a sequence sorted by `key`, with a comparator that
      orders by `key`, keeps it sorted. */
  lemma {:induction false} InsertSorted<T>(x: T, s: seq<T>, cmp: (T, T) -> int, key: T -> int)
    requires forall a, b :: cmp(a, b) < 0 <==> key(a) < key(b)
    requires SortedBy(s, key)
    ensures SortedBy(Insert(x, s, cmp), key)
    decreases |s|
  {
    if s != [] {
      var t := s[1..];
      assert forall k :: 0 <= k < |t| ==> t[k] == s[k + 1];
      assert SortedBy(t, key);
      if cmp(s[0], x) < 0 {
        InsertSorted(x, t, cmp, key);
        InsertBound(x, t, cmp, key, key(s[0]));
        ConsSorted(s[0], Insert(x, t, cmp), key);
      } else {
        ConsSorted(x, s, key);
      }
    }
  }

  /** Sorting with a comparator that orders by `key` sorts by `key`. */
  lemma {:induction false} SortSorted<T>(s: seq<T>, cmp: (T, T) -> int, key: T -> int)
    requires forall a, b :: cmp(a, b) < 0 <==> key(a) < key(b)
    ensures SortedBy(Sort(s, cmp), key)
    decreases |s|
  {
    if s != [] {
      SortSorted(s[1..], cmp, key);
      InsertSorted(s[0], Sort(s[1..], cmp), cmp, key);
    }
  }

  /** A comparator that never puts one element before another leaves the
      input order. */
  lemma {:induction false} SortKeepsOrder<T>(s: seq<T>, cmp: (T, T) -> int)
    requires forall a, b :: cmp(a, b) >= 0
    ensures Sort(s, cmp) == s
    decreases |s|
  {
    if s != [] {
      SortKeepsOrder(s[1..], cmp);
      assert s == [s[0]] + s[1..];
    }
  }
}
