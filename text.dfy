/**
 * The few operations of Python's `str` that the event fetcher relies on:
 * substring search (`in`), `split` on a non-empty separator, `join` and `replace`.
 */
module Text {
  import opened Wrappers

  /** `pat` occurs in `s` starting at index `i`. */
  predicate OccursAt(s: string, pat: string, i: nat) {
    i + |pat| <= |s| && s[i..i + |pat|] == pat
  }

  /** The leftmost index at or after `from` where `pat` occurs in `s`. */
  function FindFrom(s: string, pat: string, from: nat): (r: Option<nat>)
    requires from <= |s|
    ensures r.Some? ==> from <= r.value && OccursAt(s, pat, r.value)
    decreases |s| - from
  {
    if OccursAt(s, pat, from) then Some(from)
    else if |s| <= from + |pat| then None
    else FindFrom(s, pat, from + 1)
  }

  /** No occurrence is skipped: before the index found (or anywhere, when none is found) the pattern does not occur. */
  lemma {:induction false} FindFromLeftmost(s: string, pat: string, from: nat)
    requires from <= |s|
    ensures forall j: nat :: from <= j && (FindFrom(s, pat, from).Some? ==> j < FindFrom(s, pat, from).value)
                             ==> !OccursAt(s, pat, j)
    decreases |s| - from
  {
    if !OccursAt(s, pat, from) && from + |pat| < |s| {
      FindFromLeftmost(s, pat, from + 1);
    }
  }

  /** Python's `pat in s`. */
  function Contains(s: string, pat: string): bool {
    FindFrom(s, pat, 0).Some?
  }

  /** `pat in s` holds exactly when `pat` occurs somewhere in `s`. */
  lemma ContainsSpec(s: string, pat: string)
    ensures Contains(s, pat) <==> exists j: nat :: OccursAt(s, pat, j)
  {
    FindFromLeftmost(s, pat, 0);
  }

  /** Python's `sep.join(parts)`. */
  function Join(parts: seq<string>, sep: string): string {
    if |parts| == 0 then ""
    else if |parts| == 1 then parts[0]
    else parts[0] + sep + Join(parts[1..], sep)
  }

  /** A join of at least two parts starts with the first part and the separator. */
  lemma JoinCons(parts: seq<string>, sep: string)
    requires |parts| >= 2
    ensures Join(parts, sep) == parts[0] + sep + Join(parts[1..], sep)
  {
  }

  /** The first three parts of a join, spelled out; `tail` is empty or starts with the separator. */
  lemma JoinThree(parts: seq<string>, sep: string) returns (tail: string)
    requires |parts| >= 3
    ensures Join(parts, sep) == parts[0] + sep + parts[1] + sep + parts[2] + tail
    ensures tail == (if |parts| > 3 then sep + Join(parts[3..], sep) else "")
  {
    tail := if |parts| > 3 then sep + Join(parts[3..], sep) else "";
    var p1, p2 := parts[1..], parts[2..];
    assert p1[1..] == p2;
    assert p2[1..] == parts[3..];
    var j2 := Join(p2, sep);
    assert j2 == parts[2] + tail;
    JoinCons(p1, sep);
    var j1 := Join(p1, sep);
    assert j1 == parts[1] + sep + j2;
    JoinCons(parts, sep);
    assert Join(parts, sep) == parts[0] + sep + j1;
  }

  lemma OccursInPrefix(s: string, pat: string, i: nat, j: nat)
    requires i <= |s|
    requires OccursAt(s[..i], pat, j)
    ensures OccursAt(s, pat, j)
  {
    assert s[..i][j..j + |pat|] == s[j..j + |pat|];
  }

  /**
   * Python's `s.split(sep)` for a non-empty separator: the pieces between the
   * leftmost non-overlapping occurrences of `sep`.
   */
  function Split(s: string, sep: string): (parts: seq<string>)
    requires |sep| > 0
    ensures |parts| >= 1
    decreases |s|
  {
    match FindFrom(s, sep, 0)
    case None => [s]
    case Some(i) => [s[..i]] + Split(s[i + |sep|..], sep)
  }

  /** Joining the pieces of a split with the separator gives back the text. */
  lemma {:induction false} SplitJoin(s: string, sep: string)
    requires |sep| > 0
    ensures Join(Split(s, sep), sep) == s
    decreases |s|
  {
    match FindFrom(s, sep, 0)
    case None =>
    case Some(i) =>
      var rest := Split(s[i + |sep|..], sep);
      SplitJoin(s[i + |sep|..], sep);
      var parts := [s[..i]] + rest;
      assert parts[1..] == rest;
      assert s[i..i + |sep|] == sep;
      assert s == s[..i] + s[i..i + |sep|] + s[i + |sep|..];
  }

  /** No piece of a split contains the separator. */
  lemma {:induction false} SplitNoSeparator(s: string, sep: string)
    requires |sep| > 0
    ensures forall k :: 0 <= k < |Split(s, sep)| ==> !Contains(Split(s, sep)[k], sep)
    decreases |s|
  {
    FindFromLeftmost(s, sep, 0);
    match FindFrom(s, sep, 0)
    case None =>
      ContainsSpec(s, sep);
    case Some(i) =>
      var rest := Split(s[i + |sep|..], sep);
      SplitNoSeparator(s[i + |sep|..], sep);
      var parts := [s[..i]] + rest;
      assert forall k :: 1 <= k < |parts| ==> parts[k] == rest[k - 1];
      ContainsSpec(s[..i], sep);
      forall j: nat | OccursAt(s[..i], sep, j)
        ensures OccursAt(s, sep, j) && j < i
      {
        OccursInPrefix(s, sep, i, j);
      }
  }

  /** Python's `s.replace(target, with)` for a non-empty `target`. */
  function Replace(s: string, target: string, with: string): string
    requires |target| > 0
  {
    Join(Split(s, target), with)
  }

  /** A single-character pattern occurs exactly where that character stands. */
  lemma ContainsChar(s: string, c: char)
    ensures Contains(s, [c]) <==> c in s
  {
    ContainsSpec(s, [c]);
    if c in s {
      var j :| 0 <= j < |s| && s[j] == c;
      assert OccursAt(s, [c], j);
    }
    if Contains(s, [c]) {
      var j: nat :| OccursAt(s, [c], j);
      assert s[j] == s[j..j + 1][0];
    }
  }

  /** A character of a join is a character of some piece, or of the separator when there are two pieces or more. */
  lemma {:induction false} JoinChars(parts: seq<string>, sep: string, c: char)
    ensures c in Join(parts, sep) <==> (exists k :: 0 <= k < |parts| && c in parts[k]) || (|parts| >= 2 && c in sep)
    decreases |parts|
  {
    if |parts| >= 2 {
      var tail := parts[1..];
      JoinChars(tail, sep, c);
      JoinCons(parts, sep);
      if exists k :: 0 <= k < |tail| && c in tail[k] {
        var k :| 0 <= k < |tail| && c in tail[k];
        assert tail[k] == parts[k + 1];
      }
      if exists k :: 0 <= k < |parts| && c in parts[k] {
        var k :| 0 <= k < |parts| && c in parts[k];
        if k > 0 {
          assert tail[k - 1] == parts[k];
        }
      }
    }
  }

  /** Deleting every occurrence of a pattern never introduces a character. */
  lemma DeleteKeepsOut(s: string, pat: string, c: char)
    requires |pat| > 0 && c !in s
    ensures c !in Replace(s, pat, "")
  {
    var parts := Split(s, pat);
    SplitJoin(s, pat);
    JoinChars(parts, pat, c);
    JoinChars(parts, "", c);
  }

  /** Deleting every occurrence of a single character leaves none of it. */
  lemma DeleteCharRemovesIt(s: string, c: char)
    ensures c !in Replace(s, [c], "")
  {
    var parts := Split(s, [c]);
    SplitNoSeparator(s, [c]);
    forall k | 0 <= k < |parts|
      ensures c !in parts[k]
    {
      ContainsChar(parts[k], c);
    }
    JoinChars(parts, "", c);
  }

  /** Splitting on one character gives one more piece than there are occurrences of it. */
  lemma {:induction false} SplitCharCount(s: string, c: char)
    ensures |Split(s, [c])| == multiset(s)[c] + 1
    decreases |s|
  {
    FindFromLeftmost(s, [c], 0);
    match FindFrom(s, [c], 0)
    case None =>
      forall j | 0 <= j < |s|
        ensures s[j] != c
      {
        assert !OccursAt(s, [c], j);
        assert s[j..j + 1] == [s[j]];
      }
      assert multiset(s)[c] == 0;
    case Some(i) =>
      assert s[i] == c by { assert s[i..i + 1] == [c]; }
      assert s == s[..i] + [c] + s[i + 1..];
      forall j | 0 <= j < i
        ensures s[j] != c
      {
        assert !OccursAt(s, [c], j);
        assert s[j..j + 1] == [s[j]];
      }
      assert c !in s[..i];
      SplitCharCount(s[i + 1..], c);
      calc {
        multiset(s)[c];
        multiset(s[..i])[c] + multiset([c])[c] + multiset(s[i + 1..])[c];
        1 + multiset(s[i + 1..])[c];
      }
  }
}
