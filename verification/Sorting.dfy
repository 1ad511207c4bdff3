/**
 Python's `sorted(xs, key=...)`: stable, as its documentation promises.
 */
module Sorting {

  function Insert<T>(xs: seq<T>, x: T, key: T -> int): seq<T> {
    if xs == [] || key(xs[|xs| - 1]) <= key(x) then xs + [x]
    else Insert(xs[..|xs| - 1], x, key) + [xs[|xs| - 1]]
  }

  function SortBy<T>(xs: seq<T>, key: T -> int): seq<T> {
    if xs == [] then [] else Insert(SortBy(xs[..|xs| - 1], key), xs[|xs| - 1], key)
  }

  ghost predicate Ascending<T>(xs: seq<T>, key: T -> int) {
    forall i, j :: 0 <= i < j < |xs| ==> key(xs[i]) <= key(xs[j])
  }

  /** The elements with a key, in order */
  function WithKey<T>(xs: seq<T>, key: T -> int, v: int): seq<T> {
    if xs == [] then []
    else WithKey(xs[..|xs| - 1], key, v) + (if key(xs[|xs| - 1]) == v then [xs[|xs| - 1]] else [])
  }

  lemma {:induction false} InsertElements<T>(xs: seq<T>, x: T, key: T -> int)
    ensures multiset(Insert(xs, x, key)) == multiset(xs) + multiset{x}
  {
    if xs != [] && key(xs[|xs| - 1]) > key(x) {
      InsertElements(xs[..|xs| - 1], x, key);
      assert xs == xs[..|xs| - 1] + [xs[|xs| - 1]];
    }
  }

  lemma {:induction false} InsertAscending<T>(xs: seq<T>, x: T, key: T -> int)
    requires Ascending(xs, key)
    ensures Ascending(Insert(xs, x, key), key)
  {
    if xs != [] && key(xs[|xs| - 1]) > key(x) {
      var front := xs[..|xs| - 1];
      InsertAscending(front, x, key);
      InsertElements(front, x, key);
      var r := Insert(front, x, key);
      forall i | 0 <= i < |r|
        ensures key(r[i]) <= key(xs[|xs| - 1])
      {
        assert r[i] in multiset(r);
        assert r[i] in front || r[i] == x;
      }
    }
  }

  lemma {:induction false} InsertKeeps<T>(xs: seq<T>, x: T, key: T -> int, v: int)
    requires Ascending(xs, key)
    ensures WithKey(Insert(xs, x, key), key, v) == WithKey(xs, key, v) + (if key(x) == v then [x] else [])
  {
    if xs == [] || key(xs[|xs| - 1]) <= key(x) {
      assert (xs + [x])[..|xs|] == xs;
    } else {
      var r := Insert(xs[..|xs| - 1], x, key);
      InsertKeeps(xs[..|xs| - 1], x, key, v);
      assert (r + [xs[|xs| - 1]])[..|r|] == r;
      if key(x) == v {
        assert key(xs[|xs| - 1]) != v;
      }
    }
  }

  lemma SortNothing<T>(key: T -> int)
    ensures Ascending([], key)
  {
  }

  /** Sorting keeps the elements, orders the keys, and keeps the order of the elements with the same
      key. */
  lemma {:induction false} SortByIs<T>(xs: seq<T>, key: T -> int, v: int)
    ensures Ascending(SortBy(xs, key), key)
    ensures multiset(SortBy(xs, key)) == multiset(xs)
    ensures WithKey(SortBy(xs, key), key, v) == WithKey(xs, key, v)
  {
    hide Insert, Ascending;
    SortNothing(key);
    if xs != [] {
      var front, last := xs[..|xs| - 1], xs[|xs| - 1];
      SortByIs(front, key, v);
      InsertElements(SortBy(front, key), last, key);
      InsertAscending(SortBy(front, key), last, key);
      InsertKeeps(SortBy(front, key), last, key, v);
      assert xs == front + [last];
    }
  }

}
