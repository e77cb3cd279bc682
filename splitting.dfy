/**
 * Python's `str.split(sep)` for a non-empty separator: the pieces between
 * successive non-overlapping occurrences of `sep`, scanning left to right.
 */
module Splitting {
  import opened Wrappers

  /** `sep` occurs in `s` starting at index `i`. */
  ghost predicate OccursAt(s: string, i: int, sep: string)
  {
    0 <= i && i + |sep| <= |s| && s[i..i + |sep|] == sep
  }

  /** `sep` occurs nowhere in `s`. */
  ghost predicate Free(s: string, sep: string)
  {
    forall i :: 0 <= i <= |s| - |sep| ==> !OccursAt(s, i, sep)
  }

  /** `s[i:].startswith(sep)`, one character at a time. */
  function MatchesAt(s: string, i: nat, sep: string): bool
    decreases |sep|
  {
    |sep| == 0 || (i < |s| && s[i] == sep[0] && MatchesAt(s, i + 1, sep[1..]))
  }

  lemma {:induction false} MatchesAtIff(s: string, i: nat, sep: string)
    requires i <= |s|
    decreases |sep|
    ensures MatchesAt(s, i, sep) <==> OccursAt(s, i, sep)
  {
    if |sep| > 0 && i < |s| {
      MatchesAtIff(s, i + 1, sep[1..]);
      if i + |sep| <= |s| {
        var w := s[i..i + |sep|];
        assert w == [s[i]] + s[i + 1..i + 1 + |sep[1..]|];
        assert sep == [sep[0]] + sep[1..];
        assert w == sep <==> s[i] == sep[0] && s[i + 1..i + 1 + |sep[1..]|] == sep[1..];
      }
    }
  }

  /** `s.find(sep, from)`: the first occurrence at or after `from`, as `FindFromSpec` states. */
  function FindFrom(s: string, sep: string, from: nat): (r: Option<nat>)
    requires |sep| > 0
    decreases |s| - from
    ensures r.Some? ==> from <= r.value && r.value + |sep| <= |s|
  {
    if from + |sep| > |s| then None
    else if MatchesAt(s, from, sep) then (MatchesAtIff(s, from, sep); Some(from))
    else FindFrom(s, sep, from + 1)
  }

  lemma {:induction false} FindFromSpec(s: string, sep: string, from: nat)
    requires |sep| > 0
    decreases |s| - from
    ensures var r := FindFrom(s, sep, from);
      && (r.Some? ==> OccursAt(s, r.value, sep))
      && forall i :: from <= i <= |s| - |sep| && (r.None? || i < r.value) ==> !OccursAt(s, i, sep)
  {
    if from + |sep| <= |s| {
      MatchesAtIff(s, from, sep);
      if !MatchesAt(s, from, sep) {
        FindFromSpec(s, sep, from + 1);
      }
    }
  }

  /** `s.find(sep)`. */
  function Find(s: string, sep: string): (r: Option<nat>)
    requires |sep| > 0
    ensures r.Some? ==> r.value + |sep| <= |s|
  {
    FindFrom(s, sep, 0)
  }

  /** `Find` finds nothing exactly when `sep` does not occur; otherwise it finds an
      occurrence, and nothing occurs before it. */
  lemma FindSpec(s: string, sep: string)
    requires |sep| > 0
    ensures Find(s, sep).None? <==> Free(s, sep)
    ensures Find(s, sep).Some? ==> OccursAt(s, Find(s, sep).value, sep)
    ensures Find(s, sep).Some? ==> forall i :: 0 <= i < Find(s, sep).value ==> !OccursAt(s, i, sep)
  {
    FindFromSpec(s, sep, 0);
  }

  lemma OccursInPrefix(s: string, n: nat, i: int, sep: string)
    requires n <= |s|
    ensures OccursAt(s[..n], i, sep) ==> OccursAt(s, i, sep)
  {
    if OccursAt(s[..n], i, sep) {
      assert s[..n][i..i + |sep|] == s[i..i + |sep|];
    }
  }

  lemma OccursInSuffix(s: string, m: nat, i: int, sep: string)
    requires m <= |s|
    ensures OccursAt(s[m..], i, sep) <==> 0 <= i && OccursAt(s, m + i, sep)
  {
    if 0 <= i && i + |sep| <= |s| - m {
      assert s[m..][i..i + |sep|] == s[m + i..m + i + |sep|];
    }
  }

  /** A prefix of `s` that ends before the first occurrence of `sep` is separator-free. */
  lemma PrefixBeforeFirstFree(s: string, sep: string, k: nat, n: nat)
    requires |sep| > 0 && n <= k <= |s|
    requires forall i :: 0 <= i < k ==> !OccursAt(s, i, sep)
    ensures Free(s[..n], sep)
  {
    forall i | 0 <= i <= n - |sep| ensures !OccursAt(s[..n], i, sep) {
      OccursInPrefix(s, n, i, sep);
    }
  }

  /** `s.split(sep)`. */
  function Split(s: string, sep: string): (parts: seq<string>)
    requires |sep| > 0
    decreases |s|
    ensures |parts| >= 1
  {
    match Find(s, sep)
    case None => [s]
    case Some(i) => [s[..i]] + Split(s[i + |sep|..], sep)
  }

  /** `sep.join(parts)`. */
  function Join(parts: seq<string>, sep: string): string
  {
    if |parts| <= 1 then (if parts == [] then "" else parts[0])
    else parts[0] + sep + Join(parts[1..], sep)
  }

  /** `Split` at its first occurrence `i`: the piece before it, then the pieces after it. */
  lemma SplitAt(s: string, sep: string, i: nat)
    requires |sep| > 0 && Find(s, sep) == Some(i)
    ensures Split(s, sep) == [s[..i]] + Split(s[i + |sep|..], sep)
  {
  }

  lemma JoinCons(p: string, parts: seq<string>, sep: string)
    requires |parts| >= 1
    ensures Join([p] + parts, sep) == p + sep + Join(parts, sep)
  {
    assert ([p] + parts)[1..] == parts;
  }

  lemma Reassemble(s: string, sep: string, i: nat)
    requires OccursAt(s, i, sep)
    ensures s == s[..i] + sep + s[i + |sep|..]
  {
    assert s == s[..i] + s[i..i + |sep|] + s[i + |sep|..];
  }

  /** Splitting and joining with the same separator gives back the string. */
  lemma {:induction false} JoinSplit(s: string, sep: string)
    requires |sep| > 0
    ensures Join(Split(s, sep), sep) == s
    decreases |s|
  {
    var f := Find(s, sep);
    if f.Some? {
      var i := f.value;
      var rest := s[i + |sep|..];
      JoinSplit(rest, sep);
      SplitAt(s, sep, i);
      JoinCons(s[..i], Split(rest, sep), sep);
      FindSpec(s, sep);
      Reassemble(s, sep, i);
    }
  }

  /** No piece contains the separator. */
  lemma {:induction false} SplitPartsFree(s: string, sep: string)
    requires |sep| > 0
    ensures forall k :: 0 <= k < |Split(s, sep)| ==> Free(Split(s, sep)[k], sep)
    decreases |s|
  {
    FindSpec(s, sep);
    match Find(s, sep)
    case None =>
    case Some(i) =>
      var rest := s[i + |sep|..];
      SplitPartsFree(rest, sep);
      var parts := Split(s, sep);
      PrefixBeforeFirstFree(s, sep, i, i);
      forall k | 1 <= k < |parts| ensures Free(parts[k], sep) {
        assert parts[k] == Split(rest, sep)[k - 1];
      }
  }

  /** Where the last piece of `s.split(sep)` starts: just after the last occurrence of
      `sep`, or 0 when there is none (see `LastStartSpec`). */
  function LastStart(s: string, sep: string): (k: nat)
    requires |sep| > 0
    decreases |s|
    ensures k <= |s|
  {
    match Find(s, sep)
    case None => 0
    case Some(i) => i + |sep| + LastStart(s[i + |sep|..], sep)
  }

  lemma {:induction false} LastStartSpec(s: string, sep: string)
    requires |sep| > 0
    decreases |s|
    ensures var k := LastStart(s, sep);
      k == 0 || (k >= |sep| && OccursAt(s, k - |sep|, sep))
  {
    var f := Find(s, sep);
    if f.Some? {
      var j := f.value + |sep|;
      LastStartSpec(s[j..], sep);
      LastStartAt(s, sep, f.value);
      var k := LastStart(s[j..], sep);
      if k > 0 {
        OccursInSuffix(s, j, k - |sep|, sep);
      } else {
        FindSpec(s, sep);
      }
    }
  }

  /** `LastStart` at the first occurrence `i`. */
  lemma LastStartAt(s: string, sep: string, i: nat)
    requires |sep| > 0 && Find(s, sep) == Some(i)
    ensures LastStart(s, sep) == i + |sep| + LastStart(s[i + |sep|..], sep)
  {
  }

  /** `s.split(sep)[-1]`: what follows the last occurrence of `sep`, or all of `s`. */
  function LastPiece(s: string, sep: string): string
    requires |sep| > 0
  {
    s[LastStart(s, sep)..]
  }

  /** The last piece is a suffix of `s`, preceded by an occurrence of `sep` unless it is all of `s`. */
  lemma LastPieceIsSuffix(s: string, sep: string)
    requires |sep| > 0
    ensures var last := LastPiece(s, sep);
      && |last| <= |s| && last == s[|s| - |last|..]
      && (|last| < |s| ==> OccursAt(s, |s| - |last| - |sep|, sep))
  {
    LastStartSpec(s, sep);
  }

  /** `LastPiece` is the last element of `Split`. */
  lemma {:induction false} LastPieceOfSplit(s: string, sep: string)
    requires |sep| > 0
    ensures LastPiece(s, sep) == Split(s, sep)[|Split(s, sep)| - 1]
    decreases |s|
  {
    var f := Find(s, sep);
    if f.Some? {
      var j := f.value + |sep|;
      LastPieceOfSplit(s[j..], sep);
      SplitAt(s, sep, f.value);
      LastStartAt(s, sep, f.value);
      SuffixOfSuffix(s, j, LastStart(s[j..], sep));
    }
  }

  lemma SuffixOfSuffix(s: string, j: nat, k: nat)
    requires j + k <= |s|
    ensures s[j..][k..] == s[j + k..]
  {
  }

  /** The last piece is the whole string exactly when `sep` does not occur. */
  lemma LastPieceWhole(s: string, sep: string)
    requires |sep| > 0
    ensures |LastPiece(s, sep)| == |s| <==> Free(s, sep)
  {
    FindSpec(s, sep);
    if Find(s, sep).Some? {
      assert LastStart(s, sep) >= |sep|;
    }
  }

  /** The last piece does not contain the separator. */
  lemma {:induction false} LastPieceFree(s: string, sep: string)
    requires |sep| > 0
    ensures Free(LastPiece(s, sep), sep)
    decreases |s|
  {
    var f := Find(s, sep);
    FindSpec(s, sep);
    if f.Some? {
      var j := f.value + |sep|;
      LastPieceFree(s[j..], sep);
      LastStartAt(s, sep, f.value);
      SuffixOfSuffix(s, j, LastStart(s[j..], sep));
    }
  }

  /** A prefix of a separator-free string is separator-free. */
  lemma FreePrefix(s: string, sep: string, n: nat)
    requires |sep| > 0 && n <= |s| && Free(s, sep)
    ensures Free(s[..n], sep)
  {
    PrefixBeforeFirstFree(s, sep, |s|, n);
  }

  /** The first piece of `s.split(sep)` is the prefix of `s` before the first occurrence of
      `sep`, or all of `s` when there is none. */
  lemma FirstPieceIsPrefix(s: string, sep: string)
    requires |sep| > 0
    ensures var first := Split(s, sep)[0];
      && |first| <= |s| && s[..|first|] == first
      && Free(first, sep)
      && (|first| == |s| || OccursAt(s, |first|, sep))
  {
    FindSpec(s, sep);
    match Find(s, sep)
    case None =>
      assert s[..|s|] == s;
    case Some(i) =>
      PrefixBeforeFirstFree(s, sep, i, i);
  }

  /** There are at least two pieces exactly when `sep` occurs, and then the second piece is the
      first piece of what follows the first occurrence. */
  lemma SecondPiece(s: string, sep: string)
    requires |sep| > 0
    ensures |Split(s, sep)| >= 2 <==> !Free(s, sep)
    ensures !Free(s, sep) ==>
      Split(s, sep)[1] == Split(s[Find(s, sep).value + |sep|..], sep)[0]
  {
    FindSpec(s, sep);
  }
}
