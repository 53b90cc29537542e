/**
  Python's stable `list.sort(key=...)` / `sorted(...)` for keys of the shape
  `(int, real)`, compared lexicographically as Python compares tuples.
 */
module Ordering {

  predicate KeyLe(a: (int, real), b: (int, real)) {
    a.0 < b.0 || (a.0 == b.0 && a.1 <= b.1)
  }

  predicate SortedBy<T>(xs: seq<T>, key: T -> (int, real)) {
    forall i, j :: 0 <= i < j < |xs| ==> KeyLe(key(xs[i]), key(xs[j]))
  }

  /** Puts `x` in front of the first element whose key is not smaller, so equal keys keep their order. */
  function Insert<T>(x: T, s: seq<T>, key: T -> (int, real)): (r: seq<T>)
    requires SortedBy(s, key)
    ensures SortedBy(r, key)
    ensures multiset(r) == multiset(s) + multiset{x}
    ensures |r| == |s| + 1
    ensures forall i :: 0 <= i < |r| ==> r[i] == x || r[i] in s
    decreases |s|
  {
    if s == [] || KeyLe(key(x), key(s[0])) then
      [x] + s
    else
      var rest := Insert(x, s[1..], key);
      assert s == [s[0]] + s[1..];
      [s[0]] + rest
  }

  /** Stable ascending sort by `key`. */
  function SortBy<T>(xs: seq<T>, key: T -> (int, real)): (r: seq<T>)
    ensures SortedBy(r, key)
    ensures multiset(r) == multiset(xs)
    ensures |r| == |xs|
    decreases |xs|
  {
    if xs == [] then []
    else
      assert xs == [xs[0]] + xs[1..];
      Insert(xs[0], SortBy(xs[1..], key), key)
  }

  /** The elements whose key is `k`, in their order. */
  function KeyRun<T>(xs: seq<T>, key: T -> (int, real), k: (int, real)): seq<T>
    decreases |xs|
  {
    if xs == [] then []
    else (if key(xs[0]) == k then [xs[0]] else []) + KeyRun(xs[1..], key, k)
  }

  /** Inserting `x` puts it in front of the elements with its key and moves no other run. */
  lemma {:induction false} InsertKeyRun<T>(x: T, s: seq<T>, key: T -> (int, real), k: (int, real))
    requires SortedBy(s, key)
    ensures KeyRun(Insert(x, s, key), key, k) == (if key(x) == k then [x] else []) + KeyRun(s, key, k)
    decreases |s|
  {
    if s == [] || KeyLe(key(x), key(s[0])) {
      assert Insert(x, s, key) == [x] + s;
      assert ([x] + s)[1..] == s;
    } else {
      var rest := Insert(x, s[1..], key);
      assert SortedBy(s[1..], key);
      InsertKeyRun(x, s[1..], key, k);
      assert Insert(x, s, key) == [s[0]] + rest;
      assert ([s[0]] + rest)[1..] == rest;
      assert key(s[0]) != key(x);
    }
  }

  /**
    The sort is stable: for every key, the elements with that key appear in
    the result in the same order as in the input.
   */
  lemma {:induction false} SortByStable<T>(xs: seq<T>, key: T -> (int, real), k: (int, real))
    ensures KeyRun(SortBy(xs, key), key, k) == KeyRun(xs, key, k)
    decreases |xs|
  {
    if xs != [] {
      SortByStable(xs[1..], key, k);
      InsertKeyRun(xs[0], SortBy(xs[1..], key), key, k);
    }
  }
}
