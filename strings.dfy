/**
 * The JavaScript string operations the two scraper scripts chain together:
 * `indexOf`, `includes`, `split`, `replace` with a string pattern, `endsWith`,
 * and the ASCII case folding that a regular expression with the `i` flag
 * applies to an ASCII pattern.
 */
module Strings {
  import opened Wrappers

  predicate IsDigit(c: char) { '0' <= c <= '9' }

  predicate AllDigits(s: string) { forall i :: 0 <= i < |s| ==> IsDigit(s[i]) }

  /** `pat` occurs in `s` starting at position `i`. */
  predicate MatchAt(s: string, pat: string, i: nat) {
    i + |pat| <= |s| && s[i..i + |pat|] == pat
  }

  /** `s.includes(pat)`. */
  predicate Includes(s: string, pat: string) {
    exists i: nat | i <= |s| :: MatchAt(s, pat, i)
  }

  /** `s.endsWith(suffix)`. */
  predicate EndsWith(s: string, suffix: string) {
    |suffix| <= |s| && s[|s| - |suffix|..] == suffix
  }

  /** The first position at or after `from` where `pat` occurs (`s.indexOf(pat, from)`, with `None` for -1). */
  function IndexFrom(s: string, pat: string, from: nat): (r: Option<nat>)
    decreases |s| - from
    ensures r.Some? ==> from <= r.value && r.value + |pat| <= |s|
  {
    if |s| < from + |pat| then None
    else if s[from..from + |pat|] == pat then Some(from)
    else IndexFrom(s, pat, from + 1)
  }

  /** `IndexFrom` finds an occurrence, and none lies between `from` and it (or after `from` at all, for `None`). */
  lemma {:induction false} IndexFromFirst(s: string, pat: string, from: nat)
    decreases |s| - from
    ensures var r := IndexFrom(s, pat, from);
      && (r.Some? ==> MatchAt(s, pat, r.value))
      && forall j: nat :: from <= j && (r.None? || j < r.value) ==> !MatchAt(s, pat, j)
  {
    if from + |pat| <= |s| && s[from..from + |pat|] != pat {
      IndexFromFirst(s, pat, from + 1);
    }
  }

  /** `s.indexOf(pat)`. */
  function IndexOf(s: string, pat: string): (r: Option<nat>)
    ensures r.Some? ==> r.value + |pat| <= |s|
  {
    IndexFrom(s, pat, 0)
  }

  /** `indexOf` gives the first occurrence, and `None` exactly when there is none. */
  lemma IndexOfFirst(s: string, pat: string)
    ensures IndexOf(s, pat).Some? ==> MatchAt(s, pat, IndexOf(s, pat).value)
    ensures IndexOf(s, pat).Some? ==> forall j: nat :: j < IndexOf(s, pat).value ==> !MatchAt(s, pat, j)
    ensures IndexOf(s, pat).None? <==> !Includes(s, pat)
  {
    IndexFromFirst(s, pat, 0);
  }

  /**
   * `s.split(sep)` for a non-empty separator: the pieces between the
   * occurrences of `sep`, found left to right without overlap.
   */
  function Split(s: string, sep: string): (parts: seq<string>)
    requires |sep| > 0
    decreases |s|
    ensures |parts| >= 1
  {
    var found := IndexOf(s, sep);
    if found.None? then [s]
    else [s[..found.value]] + Split(s[found.value + |sep|..], sep)
  }

  /** `split` gives more than one piece exactly when `sep` occurs, and no piece contains `sep`. */
  lemma {:induction false} SplitPieces(s: string, sep: string)
    requires |sep| > 0
    ensures |Split(s, sep)| > 1 <==> Includes(s, sep)
    ensures forall k :: 0 <= k < |Split(s, sep)| ==> !Includes(Split(s, sep)[k], sep)
    decreases |s|
  {
    var found := IndexOf(s, sep);
    IndexOfFirst(s, sep);
    if found.Some? {
      var i := found.value;
      var head, rest := s[..i], s[i + |sep|..];
      assert !Includes(head, sep) by {
        forall j: nat | j <= |head| ensures !MatchAt(head, sep, j) {
          if j + |sep| <= |head| {
            assert s[j..j + |sep|] == head[j..j + |sep|];
            assert !MatchAt(s, sep, j);
          }
        }
      }
      SplitPieces(rest, sep);
      assert Split(s, sep) == [head] + Split(rest, sep);
    }
  }

  /** `parts.join(sep)`. */
  function Join(parts: seq<string>, sep: string): string
    requires |parts| >= 1
  {
    if |parts| == 1 then parts[0] else parts[0] + sep + Join(parts[1..], sep)
  }

  /** Splitting loses nothing: joining the pieces back with the separator gives the string again. */
  lemma {:induction false} SplitThenJoin(s: string, sep: string)
    requires |sep| > 0
    ensures Join(Split(s, sep), sep) == s
    decreases |s|
  {
    match IndexOf(s, sep)
    case None =>
    case Some(i) =>
      IndexOfFirst(s, sep);
      var rest := s[i + |sep|..];
      SplitThenJoin(rest, sep);
      var parts := Split(s, sep);
      SplitAt(s, sep, i);
      assert parts[0] == s[..i] && parts[1..] == Split(rest, sep);
      assert s == s[..i] + sep + rest by { assert s[i..i + |sep|] == sep; }
  }

  /** `s.replace(pat, rep)` with a string pattern: only the first occurrence is replaced. */
  function ReplaceFirst(s: string, pat: string, rep: string): string {
    match IndexOf(s, pat)
    case None => s
    case Some(i) => s[..i] + rep + s[i + |pat|..]
  }

  function LowerChar(c: char): char {
    if 'A' <= c <= 'Z' then (c as int + 32) as char else c
  }

  /** ASCII lower case, which is all that the `i` flag changes when the pattern is ASCII. */
  function Lower(s: string): (r: string)
    ensures |r| == |s|
  {
    seq(|s|, i requires 0 <= i < |s| => LowerChar(s[i]))
  }

  /** The last character of `p` occurs nowhere else in `p`, so no occurrence of `p` can overlap another's end. */
  predicate LastCharUnique(p: string) {
    |p| > 0 && forall i :: 0 <= i < |p| - 1 ==> p[i] != p[|p| - 1]
  }

  /** Characterises the first occurrence: a match with no match before it is what `IndexOf` returns. */
  lemma IndexOfIs(s: string, pat: string, k: nat)
    requires MatchAt(s, pat, k)
    requires forall j: nat :: j < k ==> !MatchAt(s, pat, j)
    ensures IndexOf(s, pat) == Some(k)
  {
    IndexOfFirst(s, pat);
  }

  /**
   * If `p` does not occur in `a` and its last character is unique, the first
   * occurrence of `p` in `a + p + b` is the one right after `a`.
   */
  lemma FirstOccurrenceAfter(a: string, p: string, b: string)
    requires LastCharUnique(p) && !Includes(a, p)
    ensures IndexOf(a + p + b, p) == Some(|a|)
  {
    var s := a + p + b;
    assert s[|a|..|a| + |p|] == p;
    forall j: nat | j < |a| ensures !MatchAt(s, p, j) {
      if j + |p| <= |a| {
        assert s[j..j + |p|] == a[j..j + |p|];
        assert !MatchAt(a, p, j);
      } else if j + |p| <= |s| {
        var q := j + |p| - 1;
        assert s[j..j + |p|][|p| - 1] == s[q];
        assert s[q] == p[q - |a|];
        assert p[q - |a|] != p[|p| - 1];
      }
    }
    IndexOfIs(s, p, |a|);
  }

  /** A string that lacks one of `p`'s characters cannot contain `p`. */
  lemma NotIncludesMissingChar(s: string, p: string, k: nat)
    requires k < |p|
    requires forall i :: 0 <= i < |s| ==> s[i] != p[k]
    ensures !Includes(s, p)
  {
    forall j: nat | j <= |s| ensures !MatchAt(s, p, j) {
      if j + |p| <= |s| {
        assert s[j..j + |p|][k] == s[j + k];
      }
    }
  }

  /** Prepending characters that cannot start `p` does not create an occurrence of `p`. */
  lemma NotIncludesConcat(a: string, b: string, p: string)
    requires |p| > 0
    requires forall i :: 0 <= i < |a| ==> a[i] != p[0]
    requires !Includes(b, p)
    ensures !Includes(a + b, p)
  {
    var s := a + b;
    forall j: nat | j <= |s| ensures !MatchAt(s, p, j) {
      if j + |p| <= |s| {
        assert s[j..j + |p|][0] == s[j];
        if j < |a| {
          assert s[j] == a[j];
        } else {
          assert s[j..j + |p|] == b[j - |a|..j - |a| + |p|];
          assert !MatchAt(b, p, j - |a|);
        }
      }
    }
  }

  /** When `sep` does not occur, `split` returns the whole string as its only piece. */
  lemma SplitWithout(s: string, sep: string)
    requires |sep| > 0 && !Includes(s, sep)
    ensures Split(s, sep) == [s]
  {
    IndexOfFirst(s, sep);
  }

  /** When the first occurrence of `sep` is at `i`, the first piece is `s[..i]` and the rest is split on. */
  lemma SplitAt(s: string, sep: string, i: nat)
    requires |sep| > 0 && IndexOf(s, sep) == Some(i)
    ensures Split(s, sep) == [s[..i]] + Split(s[i + |sep|..], sep)
  {
    var found := IndexOf(s, sep);
    assert found.value == i;
  }

  /** Splitting on one character gives one piece more than there are occurrences of it. */
  lemma {:induction false} SplitCharCount(s: string, c: char)
    ensures |Split(s, [c])| == multiset(s)[c] + 1
    decreases |s|
  {
    IndexOfFirst(s, [c]);
    match IndexOf(s, [c])
    case None =>
      if c in s {
        var j :| 0 <= j < |s| && s[j] == c;
        assert MatchAt(s, [c], j) by { assert s[j..j + 1] == [c]; }
      }
    case Some(i) =>
      var rest := s[i + 1..];
      SplitCharCount(rest, c);
      SplitAt(s, [c], i);
      forall j | 0 <= j < i ensures s[j] != c {
        assert !MatchAt(s, [c], j);
        assert s[j..j + 1] == [s[j]];
      }
      assert c !in s[..i];
      CharCountAround(s, i, c);
  }

  /** Cutting `s` around position `i` splits its character counts. */
  lemma CharCountAround(s: string, i: nat, c: char)
    requires i < |s| && s[i] == c
    ensures multiset(s)[c] == multiset(s[..i])[c] + 1 + multiset(s[i + 1..])[c]
  {
    assert s == s[..i] + [c] + s[i + 1..];
    assert multiset(s[..i] + [c] + s[i + 1..]) == multiset(s[..i] + [c]) + multiset(s[i + 1..]);
  }
}
