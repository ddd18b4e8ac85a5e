/**
 * The string primitives the engine relies on, restricted to ASCII: Python's
 * `str.strip()`, `str.lower()`, and the fixed case-insensitive regular
 * expressions `\bWORD\b` and `\blate\s*night\b` used as `re.search` tests.
 */
module Ascii {

  /** `str.isspace()` on ASCII: tab, line feed, vertical tab, form feed, carriage return, the separators 0x1C-0x1F and space. */
  predicate IsSpace(c: char) {
    9 <= c as int <= 13 || 28 <= c as int <= 32
  }

  /** A character of the regular-expression class `\w` on ASCII: a letter, a digit or `_`. */
  predicate IsWordChar(c: char) {
    ('a' <= c <= 'z') || ('A' <= c <= 'Z') || ('0' <= c <= '9') || c == '_'
  }

  /** Every character is whitespace (the empty string included). */
  predicate IsBlank(s: string) {
    forall k :: 0 <= k < |s| ==> IsSpace(s[k])
  }

  /** Drops the leading whitespace. */
  function TrimLeft(s: string): string {
    if s != [] && IsSpace(s[0]) then TrimLeft(s[1..]) else s
  }

  /** Drops the trailing whitespace. */
  function TrimRight(s: string): string {
    if s != [] && IsSpace(s[|s| - 1]) then TrimRight(s[..|s| - 1]) else s
  }

  /** `str.strip()`: drops whitespace at both ends. */
  function Strip(s: string): string {
    TrimRight(TrimLeft(s))
  }

  /** The left trim keeps a suffix, drops only whitespace and stops at a non-space. */
  lemma {:induction false} TrimLeftSpec(s: string)
    ensures |TrimLeft(s)| <= |s| && TrimLeft(s) == s[|s| - |TrimLeft(s)|..]
    ensures IsBlank(s[..|s| - |TrimLeft(s)|])
    ensures TrimLeft(s) != [] ==> !IsSpace(TrimLeft(s)[0])
  {
    if s != [] && IsSpace(s[0]) {
      TrimLeftSpec(s[1..]);
      var n := |s| - |TrimLeft(s)|;
      assert forall k :: 1 <= k < n ==> s[..n][k] == s[1..][..n - 1][k - 1];
    }
  }

  /** The right trim keeps a prefix, drops only whitespace and stops at a non-space. */
  lemma {:induction false} TrimRightSpec(s: string)
    ensures |TrimRight(s)| <= |s| && TrimRight(s) == s[..|TrimRight(s)|]
    ensures IsBlank(s[|TrimRight(s)|..])
    ensures TrimRight(s) != [] ==> !IsSpace(TrimRight(s)[|TrimRight(s)| - 1])
  {
    if s != [] && IsSpace(s[|s| - 1]) {
      var p := s[..|s| - 1];
      TrimRightSpec(p);
      var m := |TrimRight(p)|;
      assert forall k :: 0 <= k < |s| - m - 1 ==> s[m..][k] == p[m..][k];
    }
  }

  /** Stripping leaves nothing exactly when the string is blank; otherwise neither end of the result is whitespace. */
  lemma StripBlank(s: string)
    ensures Strip(s) == [] <==> IsBlank(s)
    ensures Strip(s) != [] ==> !IsSpace(Strip(s)[0]) && !IsSpace(Strip(s)[|Strip(s)| - 1])
  {
    var l := TrimLeft(s);
    var r := TrimRight(l);
    TrimLeftSpec(s);
    TrimRightSpec(l);
    var i := |s| - |l|;
    if r == [] {
      forall k | 0 <= k < |s| ensures IsSpace(s[k]) {
        assert s[k] == s[..i][k];
      }
    } else {
      assert r[0] == l[0];
      assert !IsSpace(s[i]);
    }
  }

  /** `str.lower()` on one ASCII character. */
  function LowerChar(c: char): char {
    if 'A' <= c <= 'Z' then (c as int + 32) as char else c
  }

  /** `str.lower()` on ASCII. */
  function Lower(s: string): string {
    seq(|s|, k requires 0 <= k < |s| => LowerChar(s[k]))
  }

  /**
   * The lower-case word `w` occurs case-insensitively at position `i` of `s`
   * with a `\b` on each side: nothing or a non-word character before it and after it.
   */
  predicate WordAt(s: string, w: string, i: int) {
    0 <= i && i + |w| <= |s|
    && Lower(s[i..i + |w|]) == w
    && (i == 0 || !IsWordChar(s[i - 1]))
    && (i + |w| == |s| || !IsWordChar(s[i + |w|]))
  }

  /** `re.search(r"\bW\b", s, re.I)` succeeds, for the lower-case word `w`. */
  predicate ContainsWord(s: string, w: string) {
    exists i | 0 <= i <= |s| :: WordAt(s, w, i)
  }

  /** `late`, then the whitespace run `s[i + 4..j]`, then `night` at `j`, with a `\b` on each side of the whole match. */
  predicate LateNightAt(s: string, i: int, j: int) {
    0 <= i && i + 4 <= j && j + 5 <= |s|
    && Lower(s[i..i + 4]) == "late"
    && IsBlank(s[i + 4..j])
    && Lower(s[j..j + 5]) == "night"
    && (i == 0 || !IsWordChar(s[i - 1]))
    && (j + 5 == |s| || !IsWordChar(s[j + 5]))
  }

  /** `re.search(r"\blate\s*night\b", s, re.I)` succeeds. */
  predicate ContainsLateNight(s: string) {
    exists i, j | 0 <= i <= j <= |s| :: LateNightAt(s, i, j)
  }
}
