/**
 * Python's built-in `sorted(iterable, key=...)` over an integer key: a stable
 * insertion sort. Only what the metrics rely on is proved: the result is in
 * ascending key order and is a permutation of the input.
 */
module Sorting {

  ghost predicate SortedBy<T>(s: seq<T>, key: T -> int)
  {
    forall i, j :: 0 <= i < j < |s| ==> key(s[i]) <= key(s[j])
  }

  /** Inserts `x` before the first element whose key is not smaller (keeps equal keys in input order). */
  function Insert<T>(x: T, s: seq<T>, key: T -> int): (r: seq<T>)
    requires SortedBy(s, key)
    ensures SortedBy(r, key)
    ensures multiset(r) == multiset(s) + multiset{x}
    ensures |r| == |s| + 1
  {
    if s == [] then [x]
    else if key(x) <= key(s[0]) then
      SortedCons(x, s, key);
      [x] + s
    else
      var rest := Insert(x, s[1..], key);
      AllAbove(x, s[1..], rest, key, key(s[0]));
      SortedCons(s[0], rest, key);
      assert s == [s[0]] + s[1..];
      [s[0]] + rest
  }

  /** A sorted sequence stays sorted behind an element whose key is no larger than any of its keys. */
  lemma SortedCons<T>(h: T, s: seq<T>, key: T -> int)
    requires SortedBy(s, key)
    requires forall i :: 0 <= i < |s| ==> key(h) <= key(s[i])
    ensures SortedBy([h] + s, key)
  {
    var r := [h] + s;
    forall i, j | 0 <= i < j < |r| ensures key(r[i]) <= key(r[j]) {
      assert r[j] == s[j - 1];
      if i > 0 {
        assert r[i] == s[i - 1];
      }
    }
  }

  /** Every element of a permutation of `s + [x]` has a key of at least `k` when `x` and
      every element of `s` do. */
  lemma AllAbove<T>(x: T, s: seq<T>, r: seq<T>, key: T -> int, k: int)
    requires multiset(r) == multiset(s) + multiset{x}
    requires k <= key(x) && forall i :: 0 <= i < |s| ==> k <= key(s[i])
    ensures forall i :: 0 <= i < |r| ==> k <= key(r[i])
  {
    forall i | 0 <= i < |r| ensures k <= key(r[i]) {
      assert r[i] in multiset(r);
      if r[i] != x {
        assert r[i] in multiset(s);
        var j :| 0 <= j < |s| && s[j] == r[i];
      }
    }
  }

  /** `sorted(s, key=key)`. */
  function Sorted<T>(s: seq<T>, key: T -> int): (r: seq<T>)
    ensures SortedBy(r, key)
    ensures multiset(r) == multiset(s)
    ensures |r| == |s|
  {
    if s == [] then []
    else
      assert s == [s[0]] + s[1..];
      Insert(s[0], Sorted(s[1..], key), key)
  }
}
