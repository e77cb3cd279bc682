/**
 * Python's `collections.Counter` built from an iterable, and `most_common(1)`.
 * A Counter is a dict, so its keys keep first-insertion order; `most_common(1)`
 * is `max(items, key=count)`, which keeps the FIRST item of maximal count.
 */
module Counting {

  /** Number of occurrences of `x` in `s`. */
  function Occurrences<T(==)>(s: seq<T>, x: T): (n: nat)
    ensures n <= |s|
    ensures n > 0 <==> x in s
  {
    if s == [] then 0
    else Occurrences(s[..|s| - 1], x) + (if s[|s| - 1] == x then 1 else 0)
  }

  /** Index of the first occurrence of `x` in `s`. */
  function FirstIndex<T(==)>(s: seq<T>, x: T): (i: nat)
    requires x in s
    ensures i < |s| && s[i] == x
    ensures forall j :: 0 <= j < i ==> s[j] != x
  {
    if x in s[..|s| - 1] then FirstIndex(s[..|s| - 1], x) else |s| - 1
  }

  /** An insertion-ordered counting table: `keys` in first-insertion order, `counts` per key. */
  datatype Counter<T> = Counter(keys: seq<T>, counts: map<T, nat>)

  /** Counts one more `x`: a new key goes to the end of `keys`. */
  function Add<T(==)>(c: Counter<T>, x: T): Counter<T>
  {
    if x in c.counts then Counter(c.keys, c.counts[x := c.counts[x] + 1])
    else Counter(c.keys + [x], c.counts[x := 1])
  }

  /** `Counter(s)`: counts the elements of `s` from left to right. */
  function CountAll<T(==)>(s: seq<T>): Counter<T>
  {
    if s == [] then Counter([], map[])
    else Add(CountAll(s[..|s| - 1]), s[|s| - 1])
  }

  /** What `Counter(s)` holds: one key per distinct element, each with its number of
      occurrences, keys ordered by first occurrence in `s`. */
  ghost predicate Counts<T>(c: Counter<T>, s: seq<T>)
  {
    && (forall x :: x in c.counts ==> x in s)
    && (forall x :: x in s ==> x in c.counts)
    && (forall x :: x in c.counts ==> x in c.keys)
    && (forall x :: x in c.keys ==> x in c.counts)
    && (forall x :: x in c.counts ==> c.counts[x] == Occurrences(s, x))
    && (forall i, j :: 0 <= i < j < |c.keys| ==> FirstIndex(s, c.keys[i]) < FirstIndex(s, c.keys[j]))
  }

  lemma FirstIndexAppend<T>(p: seq<T>, y: T, x: T)
    requires x in p + [y]
    ensures x in p ==> FirstIndex(p + [y], x) == FirstIndex(p, x)
    ensures x !in p ==> FirstIndex(p + [y], x) == |p|
  {
    assert (p + [y])[..|p|] == p;
  }

  lemma {:induction false} CountAllCounts<T>(s: seq<T>)
    ensures Counts(CountAll(s), s)
  {
    if s != [] {
      var p, y := s[..|s| - 1], s[|s| - 1];
      CountAllCounts(p);
      assert s == p + [y];
      AddCounts(CountAll(p), p, y);
    }
  }

  /** Counting one more element keeps a counter in step with the sequence it counts. */
  lemma AddCounts<T>(c: Counter<T>, p: seq<T>, y: T)
    requires Counts(c, p)
    ensures Counts(Add(c, y), p + [y])
  {
    var s, c' := p + [y], Add(c, y);
    forall x | x in c'.counts ensures c'.counts[x] == Occurrences(s, x) {
      assert s[..|s| - 1] == p;
    }
    AddKeysOrdered(c, p, y);
  }

  lemma AddKeysOrdered<T>(c: Counter<T>, p: seq<T>, y: T)
    requires Counts(c, p)
    ensures var s, c' := p + [y], Add(c, y);
      forall i, j :: 0 <= i < j < |c'.keys| ==> FirstIndex(s, c'.keys[i]) < FirstIndex(s, c'.keys[j])
  {
    assert forall k :: k in c.keys ==> k in p;
    if y in c.counts {
      KeysStayOrdered(c.keys, p, y);
    } else {
      NewKeyOrdered(c.keys, p, y);
    }
  }

  /** Keys ordered by first occurrence in `p` stay so in `p + [y]`. */
  lemma KeysStayOrdered<T>(keys: seq<T>, p: seq<T>, y: T)
    requires forall k :: k in keys ==> k in p
    requires forall i, j :: 0 <= i < j < |keys| ==> FirstIndex(p, keys[i]) < FirstIndex(p, keys[j])
    ensures forall i, j :: 0 <= i < j < |keys| ==> FirstIndex(p + [y], keys[i]) < FirstIndex(p + [y], keys[j])
  {
    forall i | 0 <= i < |keys| ensures FirstIndex(p + [y], keys[i]) == FirstIndex(p, keys[i]) {
      FirstIndexAppend(p, y, keys[i]);
    }
  }

  /** A key that first occurs at the end of `p + [y]` goes after the keys of `p`. */
  lemma NewKeyOrdered<T>(keys: seq<T>, p: seq<T>, y: T)
    requires forall k :: k in keys ==> k in p
    requires y !in p
    requires forall i, j :: 0 <= i < j < |keys| ==> FirstIndex(p, keys[i]) < FirstIndex(p, keys[j])
    ensures var keys' := keys + [y];
      forall i, j :: 0 <= i < j < |keys'| ==> FirstIndex(p + [y], keys'[i]) < FirstIndex(p + [y], keys'[j])
  {
    KeysStayOrdered(keys, p, y);
    FirstIndexAppend(p, y, y);
    var keys' := keys + [y];
    forall i | 0 <= i < |keys| ensures keys'[i] == keys[i] && FirstIndex(p + [y], keys[i]) < |p| {
      FirstIndexAppend(p, y, keys[i]);
    }
  }

  /** `max(range(|keys|), key=count)`: the index of the first key of maximal count. */
  function MaxFirst<T>(keys: seq<T>, counts: map<T, nat>): (i: nat)
    requires |keys| > 0
    requires forall k :: k in keys ==> k in counts
    ensures i < |keys|
    ensures forall j :: 0 <= j < |keys| ==> counts[keys[j]] <= counts[keys[i]]
    ensures forall j :: 0 <= j < i ==> counts[keys[j]] < counts[keys[i]]
  {
    if |keys| == 1 then 0
    else
      var b := MaxFirst(keys[..|keys| - 1], counts);
      assert keys[..|keys| - 1][b] == keys[b];
      if counts[keys[|keys| - 1]] > counts[keys[b]] then |keys| - 1 else b
  }

  /** `Counter(s).most_common(1)[0]`: the element and its count. */
  function MostCommon<T(==)>(s: seq<T>): (r: (T, nat))
    requires |s| > 0
    ensures r.0 in s && r.1 == Occurrences(s, r.0)
    ensures forall x :: x in s ==> Occurrences(s, x) <= r.1
    ensures forall i :: 0 <= i < |s| && Occurrences(s, s[i]) == r.1 ==> FirstIndex(s, r.0) <= i
  {
    CountAllCounts(s);
    var c := CountAll(s);
    assert s[0] in c.keys;
    var i := MaxFirst(c.keys, c.counts);
    MostCommonIsFirstMaximum(s, c, i);
    (c.keys[i], c.counts[c.keys[i]])
  }

  lemma MostCommonIsFirstMaximum<T>(s: seq<T>, c: Counter<T>, i: nat)
    requires Counts(c, s) && i < |c.keys|
    requires forall j :: 0 <= j < |c.keys| ==> c.counts[c.keys[j]] <= c.counts[c.keys[i]]
    requires forall j :: 0 <= j < i ==> c.counts[c.keys[j]] < c.counts[c.keys[i]]
    ensures forall x :: x in s ==> Occurrences(s, x) <= c.counts[c.keys[i]]
    ensures forall k :: 0 <= k < |s| && Occurrences(s, s[k]) == c.counts[c.keys[i]] ==> FirstIndex(s, c.keys[i]) <= k
  {
    var h := c.keys[i];
    forall x | x in s ensures Occurrences(s, x) <= c.counts[h] {
      var j :| 0 <= j < |c.keys| && c.keys[j] == x;
    }
    forall k | 0 <= k < |s| && Occurrences(s, s[k]) == c.counts[h] ensures FirstIndex(s, h) <= k {
      var x := s[k];
      var j :| 0 <= j < |c.keys| && c.keys[j] == x;
      if j < i {
        assert false;
      } else if j > i {
        assert FirstIndex(s, h) < FirstIndex(s, x);
      }
    }
  }
}
