/**
 * Character classes and scanning primitives of java.util.regex.Pattern (the engine behind
 * Kotlin's `Regex` on the JVM) that the two patterns of the Git settings screen use, plus
 * Kotlin's `String.contains`.
 */
module Scan {

  /** `\s` without UNICODE_CHARACTER_CLASS: [ \t\n\x0B\f\r]. */
  predicate IsSpace(c: char)
  {
    c == ' ' || c == '\t' || c == '\n' || c == '\U{0B}' || c == '\U{0C}' || c == '\r'
  }

  /** The line terminators that `.` refuses when neither DOTALL nor UNIX_LINES is set. */
  predicate IsLineTerminator(c: char)
  {
    c == '\n' || c == '\r' || c == '\U{85}' || c == '\U{2028}' || c == '\U{2029}'
  }

  /** What `(\S+)` can capture: a non-empty string with no whitespace in it. */
  predicate IsWord(s: string)
  {
    |s| > 0 && forall k :: 0 <= k < |s| ==> !IsSpace(s[k])
  }

  /** `lit` occurs in `s` starting at index `i`. */
  predicate HasAt(s: string, i: nat, lit: string)
  {
    i + |lit| <= |s| && s[i..i + |lit|] == lit
  }

  /** Kotlin's `s.contains(t)`: `t` occurs somewhere in `s` (the empty string always does). */
  predicate Contains(s: string, t: string)
  {
    exists i: nat | i <= |s| :: HasAt(s, i, t)
  }

  /** `s[i..j]` is all whitespace. */
  ghost predicate Spaces(s: string, i: nat, j: nat)
  {
    i <= j <= |s| && forall k :: i <= k < j ==> IsSpace(s[k])
  }

  /** `s[i..j]` has no whitespace. */
  ghost predicate NonSpaces(s: string, i: nat, j: nat)
  {
    i <= j <= |s| && forall k :: i <= k < j ==> !IsSpace(s[k])
  }

  /** `s[i..j]` does not contain the character `c`. */
  ghost predicate Avoids(s: string, i: nat, j: nat, c: char)
  {
    i <= j <= |s| && forall k :: i <= k < j ==> s[k] != c
  }

  /** Where a greedy `\s*` that starts at `i` stops: the end of the whitespace run at `i`. */
  function SkipSpaces(s: string, i: nat): (j: nat)
    requires i <= |s|
    ensures Spaces(s, i, j)
    ensures j == |s| || !IsSpace(s[j])
    decreases |s| - i
  {
    if i < |s| && IsSpace(s[i]) then SkipSpaces(s, i + 1) else i
  }

  /** Where a greedy `\S*` that starts at `i` stops: the end of the non-whitespace run at `i`. */
  function WordEnd(s: string, i: nat): (j: nat)
    requires i <= |s|
    ensures NonSpaces(s, i, j)
    ensures j == |s| || IsSpace(s[j])
    decreases |s| - i
  {
    if i < |s| && !IsSpace(s[i]) then WordEnd(s, i + 1) else i
  }

  /** Where a greedy `[^c]*` that starts at `i` stops: the first `c` at or after `i`, or the end. */
  function RunEnd(s: string, i: nat, c: char): (j: nat)
    requires i <= |s|
    ensures Avoids(s, i, j, c)
    ensures j == |s| || s[j] == c
    decreases |s| - i
  {
    if i < |s| && s[i] != c then RunEnd(s, i + 1, c) else i
  }

  /** A whitespace run ends exactly where SkipSpaces says: `\s*` has only one way to be followed
      by a non-whitespace character. */
  lemma SkipSpacesUnique(s: string, i: nat, j: nat)
    requires Spaces(s, i, j) && (j == |s| || !IsSpace(s[j]))
    ensures SkipSpaces(s, i) == j
  {
  }

  /** Any whitespace-free stretch starting at `i` lies within the run WordEnd measures. */
  lemma WordEndCovers(s: string, i: nat, j: nat)
    requires NonSpaces(s, i, j)
    ensures j <= WordEnd(s, i)
  {
  }

  /** A run free of `c` that is followed by `c` ends exactly where RunEnd says. */
  lemma RunEndUnique(s: string, i: nat, j: nat, c: char)
    requires Avoids(s, i, j, c) && j < |s| && s[j] == c
    ensures RunEnd(s, i, c) == j
  {
  }

  /** Kotlin's `contains` with a one-character string is membership of that character. */
  lemma {:induction false} ContainsSingle(s: string, c: char)
    ensures Contains(s, [c]) <==> c in s
  {
    if c in s {
      var k :| 0 <= k < |s| && s[k] == c;
      assert s[k..k + 1] == [c];
      assert HasAt(s, k, [c]);
    }
    if Contains(s, [c]) {
      var k: nat :| k <= |s| && HasAt(s, k, [c]);
      assert s[k..k + 1][0] == s[k];
    }
  }

  /** A whitespace-free stretch from i cannot run past a whitespace character at k. */
  lemma NonSpacesStopAt(s: string, i: nat, j: nat, k: nat)
    requires NonSpaces(s, i, j) && i <= k <= |s| && (k == |s| || IsSpace(s[k]))
    ensures j <= k
  {
  }

  /** Reading inside a known slice: character c of s is character c - a of the slice. */
  lemma CharInSlice(s: string, a: nat, b: nat, x: string, c: nat)
    requires a <= b <= |s| && s[a..b] == x && a <= c < b
    ensures s[c] == x[c - a]
  {
  }

  /** An occurrence inside a known slice is an occurrence in s. */
  lemma HasAtInSlice(s: string, a: nat, b: nat, x: string, c: nat, lit: string)
    requires a <= b <= |s| && s[a..b] == x && HasAt(x, c, lit)
    ensures HasAt(s, a + c, lit)
  {
    var y := s[a + c..a + c + |lit|];
    forall k | 0 <= k < |lit| ensures y[k] == lit[k] {
      assert y[k] == s[a..b][c + k];
      assert lit[k] == x[c..c + |lit|][k];
    }
  }

  /** An occurrence of a non-empty literal starts with the literal's first character. */
  lemma HasAtFirst(s: string, i: nat, lit: string)
    requires HasAt(s, i, lit) && |lit| > 0
    ensures s[i] == lit[0]
  {
    assert s[i] == s[i..i + |lit|][0];
  }

  /** A stretch that avoids `c` is a slice without `c` in it. */
  lemma AvoidsSlice(s: string, i: nat, j: nat, c: char)
    requires Avoids(s, i, j, c)
    ensures c !in s[i..j]
  {
    forall k | 0 <= k < j - i ensures s[i..j][k] != c {
      assert s[i..j][k] == s[i + k];
    }
  }
}
