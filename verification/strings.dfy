/**
 String helpers with the semantics of the Python and Spark calls the ETL job makes:
 literal-delimiter `split` that keeps empty segments (Python `str.split(sep)` and
 Spark `split` on a pattern without regex metacharacters), null-safe array indexing,
 `substring_index(s, c, 1)`, `rfind`, suffix test (`LIKE '%suffix'`), ASCII
 lower-casing and character deletion (`regexp_replace(s, '-', '')`).
 */
module Strings {
  import opened Wrappers

  /** `d` occurs in `s` starting at position `i`. */
  predicate OccursAt(s: string, d: string, i: int)
  {
    0 <= i && i + |d| <= |s| && s[i..i + |d|] == d
  }

  /** `d` occurs somewhere in `s`. */
  predicate Contains(s: string, d: string)
  {
    exists i | 0 <= i <= |s| - |d| :: OccursAt(s, d, i)
  }

  /** An occurrence inside a prefix of `s` is an occurrence in `s`. */
  lemma OccursInPrefix(s: string, d: string, n: nat, i: int)
    requires n <= |s|
    requires OccursAt(s[..n], d, i)
    ensures OccursAt(s, d, i) && i + |d| <= n
  {
    assert s[..n][i..i + |d|] == s[i..i + |d|];
  }

  /** The leftmost occurrence of `d` in `s` at or after position `i`. */
  function FindFrom(s: string, d: string, i: nat): (r: Option<nat>)
    requires |d| > 0
    ensures r.Some? ==> i <= r.value && OccursAt(s, d, r.value)
    ensures r.Some? ==> forall j :: i <= j < r.value ==> !OccursAt(s, d, j)
    ensures r.None? ==> forall j :: i <= j ==> !OccursAt(s, d, j)
    decreases |s| - i
  {
    if i + |d| > |s| then None
    else if s[i..i + |d|] == d then Some(i)
    else FindFrom(s, d, i + 1)
  }

  /** Python `str.find`: the leftmost occurrence of `d` in `s`. */
  function IndexOf(s: string, d: string): (r: Option<nat>)
    requires |d| > 0
    ensures r.None? <==> !Contains(s, d)
    ensures r.Some? ==> OccursAt(s, d, r.value)
    ensures r.Some? ==> forall j :: 0 <= j < r.value ==> !OccursAt(s, d, j)
  {
    FindFrom(s, d, 0)
  }

  /** Glues the segments back together with `d` between consecutive ones. */
  function Join(parts: seq<string>, d: string): string
    requires |parts| > 0
  {
    if |parts| == 1 then parts[0] else parts[0] + d + Join(parts[1..], d)
  }

  /**
   Splits `s` at every leftmost, non-overlapping occurrence of `d`, keeping empty
   segments: `Split("a,,b", ",") == ["a", "", "b"]` and `Split("", ",") == [""]`.
   */
  function Split(s: string, d: string): (parts: seq<string>)
    requires |d| > 0
    ensures |parts| > 0
    ensures Join(parts, d) == s
    ensures forall k :: 0 <= k < |parts| ==> !Contains(parts[k], d)
    decreases |s|
  {
    match IndexOf(s, d)
    case None => [s]
    case Some(i) =>
      var rest := Split(s[i + |d|..], d);
      assert s == s[..i] + d + s[i + |d|..] by {
        assert s == s[..i] + s[i..i + |d|] + s[i + |d|..];
      }
      assert !Contains(s[..i], d) by {
        forall j | 0 <= j <= i - |d| && OccursAt(s[..i], d, j)
          ensures false
        {
          OccursInPrefix(s, d, i, j);
        }
      }
      [s[..i]] + rest
  }

  /** Splitting a string that does not contain the delimiter yields the string alone. */
  lemma SplitWithout(s: string, d: string)
    requires |d| > 0 && !Contains(s, d)
    ensures Split(s, d) == [s]
  {
  }

  /**
   The first segment of a split is the longest prefix that stops at the first
   occurrence of `d`: a prefix of `s` free of `d`, followed either by nothing or by `d`.
   */
  lemma SplitHead(s: string, d: string)
    requires |d| > 0
    ensures var h := Split(s, d)[0];
      && |h| <= |s| && s[..|h|] == h
      && (|Split(s, d)| == 1 <==> h == s)
      && (|Split(s, d)| > 1 ==> OccursAt(s, d, |h|) && Split(s, d)[1..] == Split(s[|h| + |d|..], d))
  {
  }

  /** The second segment of a split is the first segment of what follows the first delimiter. */
  lemma SplitSecond(s: string, d: string)
    requires |d| > 0 && Contains(s, d)
    ensures var i := IndexOf(s, d).value;
      |Split(s, d)| > 1 && Split(s, d)[1] == Split(s[i + |d|..], d)[0]
  {
  }

  /** A prefix of a text free of `d` is free of `d`. */
  lemma PrefixKeepsAbsence(s: string, n: nat, d: string)
    requires n <= |s| && !Contains(s, d)
    ensures !Contains(s[..n], d)
  {
    forall j | 0 <= j <= n - |d| && OccursAt(s[..n], d, j)
      ensures false
    {
      OccursInPrefix(s, d, n, j);
    }
  }

  /** With a one-character delimiter, a delimiter-free head splits off exactly. */
  lemma SplitOnFirst(a: string, d: string, b: string)
    requires |d| == 1 && !Contains(a, d)
    ensures Split(a + d + b, d) == [a] + Split(b, d)
  {
    var s := a + d + b;
    assert OccursAt(s, d, |a|) by {
      assert s[|a|..|a| + 1] == d;
    }
    forall j | 0 <= j < |a|
      ensures !OccursAt(s, d, j)
    {
      if OccursAt(s, d, j) {
        assert s[j..j + 1] == a[j..j + 1];
        assert OccursAt(a, d, j);
      }
    }
    assert IndexOf(s, d) == Some(|a|);
    assert s[..|a|] == a;
    assert s[|a| + 1..] == b;
  }

  /** Two delimiter-free texts joined by a one-character delimiter split back into the two. */
  lemma SplitTwo(a: string, d: string, b: string)
    requires |d| == 1 && !Contains(a, d) && !Contains(b, d)
    ensures Split(a + d + b, d) == [a, b]
  {
    SplitOnFirst(a, d, b);
    SplitWithout(b, d);
  }

  /** Python `rfind(c)`: the position of the last `c` in `s`, or -1. */
  function RFind(s: string, c: char): (r: int)
    ensures -1 <= r < |s|
    ensures r >= 0 ==> s[r] == c
    ensures forall j :: r < j < |s| ==> s[j] != c
  {
    if |s| == 0 then -1
    else if s[|s| - 1] == c then |s| - 1
    else RFind(s[..|s| - 1], c)
  }

  /** A one-character string occurs exactly where its character does. */
  lemma OccursAtChar(s: string, c: char, j: int)
    requires 0 <= j < |s|
    ensures OccursAt(s, [c], j) <==> s[j] == c
  {
    assert s[j..j + 1] == [s[j]];
  }

  /** The last `c` of `s` lies in the part after any given `c` at position `i`. */
  lemma RFindAfter(s: string, c: char, i: nat)
    requires i < |s| && s[i] == c
    ensures RFind(s, c) == i + 1 + RFind(s[i + 1..], c)
  {
    var tail := s[i + 1..];
    var rt := RFind(tail, c);
    var r := RFind(s, c);
    if rt >= 0 {
      assert s[i + 1 + rt] == tail[rt];
    }
    assert forall j :: i + 1 <= j < |s| ==> s[j] == tail[j - i - 1];
  }

  /**
   Python `s.split('/')[-1]` and `s[s.rfind('/') + 1:]` name the same text: the last
   segment of a split on a one-character delimiter is what follows its last occurrence.
   */
  lemma {:induction false} LastSegmentAfterRFind(s: string, c: char)
    ensures var parts := Split(s, [c]);
      parts[|parts| - 1] == s[RFind(s, c) + 1..]
    decreases |s|
  {
    match IndexOf(s, [c])
    case None =>
      NoCharWholeSegment(s, c);
    case Some(i) =>
      FirstIsChar(s, c, i);
      LastSegmentAfterRFind(s[i + 1..], c);
      SplitLastAfterFirst(s, c, i);
      RFindSuffix(s, c, i);
  }

  /** Without `c` the split is the whole text, and nothing precedes the last segment. */
  lemma NoCharWholeSegment(s: string, c: char)
    requires IndexOf(s, [c]).None?
    ensures Split(s, [c]) == [s] && RFind(s, c) == -1
  {
    forall j | 0 <= j < |s|
      ensures s[j] != c
    {
      OccursAtChar(s, c, j);
    }
  }

  /** The first occurrence of a one-character delimiter is that character. */
  lemma FirstIsChar(s: string, c: char, i: nat)
    requires IndexOf(s, [c]) == Some(i)
    ensures i < |s| && s[i] == c
  {
    OccursAtChar(s, c, i);
  }

  /** Splitting past the first `c` leaves the last segment where it was. */
  lemma SplitLastAfterFirst(s: string, c: char, i: nat)
    requires IndexOf(s, [c]) == Some(i)
    ensures var parts, rest := Split(s, [c]), Split(s[i + 1..], [c]);
      parts[|parts| - 1] == rest[|rest| - 1]
  {
    assert Split(s, [c]) == [s[..i]] + Split(s[i + 1..], [c]);
    LastOfCons(s[..i], Split(s[i + 1..], [c]));
  }

  /** What follows the last `c` of `s` is what follows the last `c` after an earlier one. */
  lemma RFindSuffix(s: string, c: char, i: nat)
    requires i < |s| && s[i] == c
    ensures s[RFind(s, c) + 1..] == s[i + 1..][RFind(s[i + 1..], c) + 1..]
  {
    RFindAfter(s, c, i);
    SliceOfSlice(s, i + 1, RFind(s[i + 1..], c) + 1);
  }

  lemma LastOfCons(a: string, rest: seq<string>)
    requires |rest| > 0
    ensures ([a] + rest)[|rest|] == rest[|rest| - 1]
  {
  }

  lemma SliceOfSlice(s: string, i: nat, k: nat)
    requires i <= |s| && k <= |s| - i
    ensures s[i..][k..] == s[i + k..]
  {
  }

  /** Spark's array index `a[i]` outside ANSI mode: null when out of range. */
  function At<T>(s: seq<T>, i: nat): (r: Option<T>)
    ensures r.Some? <==> i < |s|
    ensures r.Some? ==> r.value == s[i]
  {
    if i < |s| then Some(s[i]) else None
  }

  /** Spark `substring_index(s, c, 1)`: the text before the first `c`, or all of `s`. */
  function SubstringIndex1(s: string, c: char): (r: string)
    ensures |r| <= |s| && s[..|r|] == r
    ensures c !in r
    ensures |r| < |s| ==> s[|r|] == c
  {
    if |s| == 0 || s[0] == c then ""
    else [s[0]] + SubstringIndex1(s[1..], c)
  }

  /** SQL `s LIKE '%suffix'` for a suffix without wildcard characters. */
  predicate EndsWith(s: string, suffix: string)
  {
    |suffix| <= |s| && s[|s| - |suffix|..] == suffix
  }

  predicate IsUpper(c: char)
  {
    'A' <= c <= 'Z'
  }

  function LowerChar(c: char): char
  {
    if IsUpper(c) then (c as int + 32) as char else c
  }

  /** Spark `lower`, restricted to ASCII letters. */
  function Lower(s: string): (r: string)
    ensures |r| == |s|
    ensures forall i :: 0 <= i < |s| ==> r[i] == LowerChar(s[i])
    ensures forall i :: 0 <= i < |r| ==> !IsUpper(r[i])
  {
    seq(|s|, i requires 0 <= i < |s| => LowerChar(s[i]))
  }

  /** `regexp_replace(s, c, '')` for a single literal character `c`: deletes every `c`. */
  function RemoveAll(s: string, c: char): (r: string)
    ensures c !in r
    ensures |r| <= |s|
    ensures forall x :: x != c ==> multiset(r)[x] == multiset(s)[x]
  {
    if |s| == 0 then ""
    else
      assert s == [s[0]] + s[1..];
      (if s[0] == c then "" else [s[0]]) + RemoveAll(s[1..], c)
  }
}
