/** Python's `sorted`: ascending for epochs, and the stable descending sort by
    a key (`sorted(..., key=k, reverse=True)`) used for start nodes, accounts
    and rings. With `reverse=True` Python keeps equal-key elements in their
    original order; `SortDesc` promises the same. */
module Sorting {

  predicate Ascending(s: seq<int>)
  {
    forall i, j :: 0 <= i < j < |s| ==> s[i] <= s[j]
  }

  function InsertAsc(x: int, s: seq<int>): (r: seq<int>)
    requires Ascending(s)
    ensures Ascending(r)
    ensures multiset(r) == multiset(s) + multiset{x}
    ensures |r| == |s| + 1
    ensures forall i :: 0 <= i < |r| ==> r[i] == x || r[i] in s
  {
    if s == [] || x <= s[0] then
      var r := [x] + s;
      assert forall i :: 0 < i < |r| ==> r[i] == s[i - 1];
      r
    else
      var t := InsertAsc(x, s[1..]);
      InsertAscAbove(s[0], x, s[1..], t);
      assert s == [s[0]] + s[1..];
      [s[0]] + t
  }

  /** An element no larger than `x` and than all of `s` can lead the
      insertion of `x` into `s`. */
  lemma InsertAscAbove(y: int, x: int, s: seq<int>, t: seq<int>)
    requires Ascending(t) && forall i :: 0 <= i < |t| ==> t[i] == x || t[i] in s
    requires y <= x && forall i :: 0 <= i < |s| ==> y <= s[i]
    ensures Ascending([y] + t)
    ensures forall i :: 0 <= i < |[y] + t| ==> ([y] + t)[i] == y || ([y] + t)[i] == x || ([y] + t)[i] in s
  {
    var r := [y] + t;
    assert forall i :: 0 < i < |r| ==> r[i] == t[i - 1];
  }

  /** `sorted(xs)` on numbers. */
  function SortAsc(xs: seq<int>): (r: seq<int>)
    ensures Ascending(r)
    ensures multiset(r) == multiset(xs)
    ensures |r| == |xs|
  {
    if xs == [] then []
    else
      assert xs == [xs[0]] + xs[1..];
      InsertAsc(xs[0], SortAsc(xs[1..]))
  }

  predicate Descending<T>(s: seq<T>, key: T -> real)
  {
    forall i, j :: 0 <= i < j < |s| ==> key(s[i]) >= key(s[j])
  }

  /** The elements of `s` whose key is `k`, in their order in `s`. */
  function WithKey<T>(s: seq<T>, key: T -> real, k: real): seq<T>
  {
    if s == [] then []
    else (if key(s[0]) == k then [s[0]] else []) + WithKey(s[1..], key, k)
  }

  /** Inserts `x` before the first element whose key is not larger. */
  function InsertDesc<T>(x: T, s: seq<T>, key: T -> real): (r: seq<T>)
    requires Descending(s, key)
    ensures Descending(r, key)
    ensures multiset(r) == multiset(s) + multiset{x}
    ensures |r| == |s| + 1
  {
    if s == [] || key(x) >= key(s[0]) then
      var r := [x] + s;
      assert forall i :: 0 < i < |r| ==> r[i] == s[i - 1];
      r
    else
      var t := InsertDesc(x, s[1..], key);
      InsertDescBelow(s[0], x, s[1..], t, key);
      assert s == [s[0]] + s[1..];
      [s[0]] + t
  }

  /** An element whose key bounds those of `x` and of `s` can lead the
      insertion of `x` into `s`. */
  lemma InsertDescBelow<T>(y: T, x: T, s: seq<T>, t: seq<T>, key: T -> real)
    requires Descending(s, key) && Descending(t, key) && multiset(t) == multiset(s) + multiset{x}
    requires key(y) >= key(x) && forall i :: 0 <= i < |s| ==> key(y) >= key(s[i])
    ensures Descending([y] + t, key)
  {
    var r := [y] + t;
    forall i | 0 <= i < |t| ensures key(y) >= key(t[i]) {
      assert t[i] in multiset(t);
      if t[i] != x {
        assert t[i] in multiset(s);
        var k :| 0 <= k < |s| && s[k] == t[i];
      }
    }
    assert forall i :: 0 < i < |r| ==> r[i] == t[i - 1];
  }

  lemma WithKeyCons<T>(y: T, t: seq<T>, key: T -> real, k: real)
    ensures WithKey([y] + t, key, k) == (if key(y) == k then [y] else []) + WithKey(t, key, k)
  {
    assert ([y] + t)[0] == y && ([y] + t)[1..] == t;
  }

  /** Inserting `x` puts it ahead of every element with the same key. */
  lemma {:induction false} InsertDescKeepsOrder<T>(x: T, s: seq<T>, key: T -> real, k: real)
    requires Descending(s, key)
    ensures WithKey(InsertDesc(x, s, key), key, k) == (if key(x) == k then [x] else []) + WithKey(s, key, k)
  {
    if s == [] || key(x) >= key(s[0]) {
      assert InsertDesc(x, s, key) == [x] + s;
      WithKeyCons(x, s, key, k);
    } else {
      var t := InsertDesc(x, s[1..], key);
      assert InsertDesc(x, s, key) == [s[0]] + t;
      WithKeyCons(s[0], t, key, k);
      InsertDescKeepsOrder(x, s[1..], key, k);
      WithKeyCons(s[0], s[1..], key, k);
      assert s == [s[0]] + s[1..];
      if key(x) == k {
        assert key(s[0]) != k;
      }
    }
  }

  /** `sorted(xs, key=key, reverse=True)`: a permutation of `xs`, keys
      non-increasing, and elements with equal keys in their original order. */
  function SortDesc<T>(xs: seq<T>, key: T -> real): (r: seq<T>)
    ensures Descending(r, key)
    ensures multiset(r) == multiset(xs)
    ensures |r| == |xs|
    ensures forall k :: WithKey(r, key, k) == WithKey(xs, key, k)
  {
    if xs == [] then []
    else
      var t := SortDesc(xs[1..], key);
      SortDescStep(xs, t, key);
      InsertDesc(xs[0], t, key)
  }

  lemma SortDescStep<T>(xs: seq<T>, t: seq<T>, key: T -> real)
    requires xs != [] && Descending(t, key) && multiset(t) == multiset(xs[1..])
    requires forall k :: WithKey(t, key, k) == WithKey(xs[1..], key, k)
    ensures multiset(InsertDesc(xs[0], t, key)) == multiset(xs)
    ensures forall k :: WithKey(InsertDesc(xs[0], t, key), key, k) == WithKey(xs, key, k)
  {
    assert xs == [xs[0]] + xs[1..];
    forall k ensures WithKey(InsertDesc(xs[0], t, key), key, k) == WithKey(xs, key, k) {
      InsertDescKeepsOrder(xs[0], t, key, k);
    }
  }

  /** A list comprehension `[x for x in s if p(x)]`: the elements of `s`
      that pass `p`, in their order in `s`. */
  function Filter<T(!new)>(s: seq<T>, p: T -> bool): (r: seq<T>)
    ensures |r| <= |s|
    ensures forall x :: x in r <==> x in s && p(x)
    ensures multiset(r) <= multiset(s)
  {
    if s == [] then []
    else
      assert s == [s[0]] + s[1..];
      (if p(s[0]) then [s[0]] else []) + Filter(s[1..], p)
  }

}
