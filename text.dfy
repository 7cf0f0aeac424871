/**
  The character classes and string operations of the Kotlin standard library that the
  listener relies on (`isBlank`, `trim`, `lowercase`, `startsWith`, `contains`), written
  out as explicit character predicates.

  The string operations are defined index by index, so that the verifier can evaluate
  them on literal strings; what each one means is stated by a lemma beside it.
 */
module Text {

  // ---------------------------------------------------------------------------
  // Character classes
  // ---------------------------------------------------------------------------

  /** Kotlin's `Char.isWhitespace()` on the JVM: `Character.isWhitespace` or
      `Character.isSpaceChar`. Used by `trim()` and `isBlank()`. */
  predicate IsWhitespace(c: char) {
    c == '\t' || c == '\n' || c == '\U{000B}' || c == '\U{000C}' || c == '\r'
    || ('\U{001C}' <= c <= '\U{001F}')
    || c == ' ' || c == '\U{00A0}' || c == '\U{1680}'
    || ('\U{2000}' <= c <= '\U{200A}')
    || c == '\U{2028}' || c == '\U{2029}' || c == '\U{202F}' || c == '\U{205F}' || c == '\U{3000}'
  }

  /** `\s` of a regular expression compiled without flags: `[ \t\n\x0B\f\r]`. */
  predicate IsRegexSpace(c: char) {
    c == ' ' || c == '\t' || c == '\n' || c == '\U{000B}' || c == '\U{000C}' || c == '\r'
  }

  /** `\d` of a regular expression compiled without flags. */
  predicate IsDigit(c: char) {
    '0' <= c <= '9'
  }

  /** The word characters that decide a `\b` boundary: ASCII letters, digits and `_`,
      and the Cyrillic block. */
  predicate IsWordChar(c: char) {
    ('a' <= c <= 'z') || ('A' <= c <= 'Z') || IsDigit(c) || c == '_'
    || ('\U{0400}' <= c <= '\U{04FF}')
  }

  /** The upper-case letters `lowercase()` maps in this model: ASCII, Latin-1 and the basic
      Cyrillic capitals U+0400–U+042F. Other Cyrillic capitals are not lowered. */
  predicate IsUpper(c: char) {
    ('A' <= c <= 'Z')
    || ('\U{00C0}' <= c <= '\U{00DE}' && c != '\U{00D7}')
    || ('\U{0400}' <= c <= '\U{042F}')
  }

  /** The lower-case form of one character: the letters `IsUpper` names are lowered, every
      other character is kept. */
  function LowerChar(c: char): (d: char)
    ensures !IsUpper(d)
    ensures d == c <==> !IsUpper(c)
  {
    if ('A' <= c <= 'Z') || ('\U{00C0}' <= c <= '\U{00DE}' && c != '\U{00D7}') || ('\U{0410}' <= c <= '\U{042F}') then
      (c as int + 32) as char
    else if '\U{0400}' <= c <= '\U{040F}' then
      (c as int + 80) as char
    else
      c
  }

  // ---------------------------------------------------------------------------
  // String operations
  // ---------------------------------------------------------------------------

  /** `String.lowercase()`, character by character. */
  function Lower(s: string): string {
    seq(|s|, i requires 0 <= i < |s| => LowerChar(s[i]))
  }

  /** `CharSequence.isBlank()`: empty, or whitespace only. */
  predicate IsBlank(s: string) {
    forall i :: 0 <= i < |s| ==> IsWhitespace(s[i])
  }

  /** The index of the first non-whitespace character at or after `i` (or `|s|`). */
  function SkipLeading(s: string, i: nat): (k: nat)
    requires i <= |s|
    ensures i <= k <= |s|
    decreases |s| - i
  {
    if i < |s| && IsWhitespace(s[i]) then SkipLeading(s, i + 1) else i
  }

  /** The end of `s[..j]` once its trailing whitespace is dropped. */
  function SkipTrailing(s: string, j: nat): (k: nat)
    requires j <= |s|
    ensures k <= j
  {
    if j > 0 && IsWhitespace(s[j - 1]) then SkipTrailing(s, j - 1) else j
  }

  /** `String.trim()`: drops whitespace at both ends. */
  function Trim(s: string): string {
    var a := SkipLeading(s, 0);
    var b := SkipTrailing(s, |s|);
    if b <= a then [] else s[a..b]
  }

  /** `String.startsWith(prefix)`. */
  predicate StartsWith(s: string, prefix: string) {
    prefix <= s
  }

  /** `String.contains(other)`: `other` occurs at some position of `s`. */
  predicate Contains(s: string, other: string) {
    exists i :: 0 <= i <= |s| && other <= s[i..]
  }

  // ---------------------------------------------------------------------------
  // Lemmas
  // ---------------------------------------------------------------------------

  lemma {:induction false} SkipLeadingSpec(s: string, i: nat)
    requires i <= |s|
    ensures forall k :: i <= k < SkipLeading(s, i) ==> IsWhitespace(s[k])
    ensures SkipLeading(s, i) < |s| ==> !IsWhitespace(s[SkipLeading(s, i)])
    decreases |s| - i
  {
    if i < |s| && IsWhitespace(s[i]) {
      SkipLeadingSpec(s, i + 1);
    }
  }

  lemma {:induction false} SkipTrailingSpec(s: string, j: nat)
    requires j <= |s|
    ensures forall k :: SkipTrailing(s, j) <= k < j ==> IsWhitespace(s[k])
    ensures SkipTrailing(s, j) > 0 ==> !IsWhitespace(s[SkipTrailing(s, j) - 1])
  {
    if j > 0 && IsWhitespace(s[j - 1]) {
      SkipTrailingSpec(s, j - 1);
    }
  }

  /** A slice of whitespace characters is blank. */
  lemma BlankSlice(s: string, lo: nat, hi: nat)
    requires lo <= hi <= |s|
    requires forall k :: lo <= k < hi ==> IsWhitespace(s[k])
    ensures IsBlank(s[lo..hi])
  {
    forall m | 0 <= m < hi - lo ensures IsWhitespace(s[lo..hi][m]) {
      assert s[lo..hi][m] == s[lo + m];
    }
  }

  /** `trim()` of a text whose leading run meets its trailing run: the text is blank and the
      result empty. */
  lemma TrimAllBlank(s: string, a: nat, b: nat)
    requires a == SkipLeading(s, 0) && b == SkipTrailing(s, |s|) && b <= a
    requires forall k :: 0 <= k < a ==> IsWhitespace(s[k])
    requires forall k :: b <= k < |s| ==> IsWhitespace(s[k])
    ensures Trim(s) == [] && IsBlank(s[..0]) && IsBlank(s[0..]) && IsBlank(s)
  {
    forall k | 0 <= k < |s| ensures IsWhitespace(s[k]) {
      if a <= k { assert b <= k; }
    }
    BlankSlice(s, 0, 0);
    assert s[0..] == s;
  }

  /** `trim()` of a text with a non-blank middle `s[a..b]`: the result is that middle, with
      blank text on each side and no whitespace at its ends. */
  lemma TrimMiddle(s: string, a: nat, b: nat)
    requires a == SkipLeading(s, 0) && b == SkipTrailing(s, |s|) && a < b
    requires forall k :: 0 <= k < a ==> IsWhitespace(s[k])
    requires forall k :: b <= k < |s| ==> IsWhitespace(s[k])
    requires a < |s| ==> !IsWhitespace(s[a])
    requires b > 0 ==> !IsWhitespace(s[b - 1])
    ensures Trim(s) == s[a..b] && !IsWhitespace(s[a]) && !IsWhitespace(s[b - 1])
    ensures IsBlank(s[..a]) && IsBlank(s[b..]) && !IsBlank(s)
  {
    BlankSlice(s, 0, a);
    BlankSlice(s, b, |s|);
    assert s[..a] == s[0..a] && s[b..] == s[b..|s|];
  }

  /** `trim()` cuts `s` into a blank prefix, the result and a blank suffix; the result has no
      whitespace at either end, and is empty exactly when `s` is blank. */
  lemma TrimSplits(s: string)
    ensures exists i :: 0 <= i <= |s| - |Trim(s)| && Trim(s) <= s[i..] && IsBlank(s[..i]) && IsBlank(s[i + |Trim(s)|..])
    ensures Trim(s) == [] || (!IsWhitespace(Trim(s)[0]) && !IsWhitespace(Trim(s)[|Trim(s)| - 1]))
    ensures IsBlank(s) <==> Trim(s) == []
  {
    var a := SkipLeading(s, 0);
    var b := SkipTrailing(s, |s|);
    SkipLeadingSpec(s, 0);
    SkipTrailingSpec(s, |s|);
    if b <= a {
      TrimAllBlank(s, a, b);
      assert 0 + |Trim(s)| == 0;
    } else {
      TrimMiddle(s, a, b);
      var r := Trim(s);
      assert a + |r| == b && r <= s[a..];
      assert r[0] == s[a] && r[|r| - 1] == s[b - 1];
    }
  }

  /** A string with no whitespace at either end is its own `trim()`. */
  lemma TrimmedIsFixed(s: string)
    requires s == [] || (!IsWhitespace(s[0]) && !IsWhitespace(s[|s| - 1]))
    ensures Trim(s) == s
  {
  }

  /** `trim()` is idempotent. */
  lemma TrimIdempotent(s: string)
    ensures Trim(Trim(s)) == Trim(s)
  {
    TrimSplits(s);
    TrimmedIsFixed(Trim(s));
  }

  /** A string is blank exactly when both halves of it are. */
  lemma BlankConcat(a: string, b: string)
    ensures IsBlank(a + b) <==> IsBlank(a) && IsBlank(b)
  {
    if IsBlank(a + b) {
      forall i | 0 <= i < |a| ensures IsWhitespace(a[i]) {
        assert a[i] == (a + b)[i];
      }
      forall i | 0 <= i < |b| ensures IsWhitespace(b[i]) {
        assert b[i] == (a + b)[|a| + i];
      }
    }
  }

  /** A string that does not contain the first character of `other` does not contain `other`. */
  lemma MissingFirstChar(s: string, other: string)
    requires other != [] && forall i :: 0 <= i < |s| ==> s[i] != other[0]
    ensures !Contains(s, other)
  {
    forall i | 0 <= i <= |s| ensures !(other <= s[i..]) {
      if i < |s| {
        assert s[i..][0] == s[i];
      }
    }
  }

  /** Lower-casing leaves a string with no upper-case letter unchanged. */
  lemma LowerKeepsLowerCase(s: string)
    requires forall i :: 0 <= i < |s| ==> !IsUpper(s[i])
    ensures Lower(s) == s
  {
  }

  /** `lowercase()` distributes over concatenation. */
  lemma LowerConcat(a: string, b: string)
    ensures Lower(a + b) == Lower(a) + Lower(b)
  {
  }
  /** `lowercase()` never turns whitespace into a letter or a letter into whitespace. */
  lemma LowerCharKeepsWhitespace(c: char)
    ensures IsWhitespace(LowerChar(c)) <==> IsWhitespace(c)
  {
  }

  /** The leading whitespace of the lower-cased string ends where that of the string does. */
  lemma {:induction false} SkipLeadingLower(s: string, i: nat)
    requires i <= |s|
    ensures SkipLeading(Lower(s), i) == SkipLeading(s, i)
    decreases |s| - i
  {
    if i < |s| {
      assert Lower(s)[i] == LowerChar(s[i]);
      LowerCharKeepsWhitespace(s[i]);
      if IsWhitespace(s[i]) {
        SkipLeadingLower(s, i + 1);
      }
    }
  }

  /** The trailing whitespace of the lower-cased string starts where that of the string does. */
  lemma {:induction false} SkipTrailingLower(s: string, j: nat)
    requires j <= |s|
    ensures SkipTrailing(Lower(s), j) == SkipTrailing(s, j)
    decreases j
  {
    if j > 0 {
      assert Lower(s)[j - 1] == LowerChar(s[j - 1]);
      LowerCharKeepsWhitespace(s[j - 1]);
      if IsWhitespace(s[j - 1]) {
        SkipTrailingLower(s, j - 1);
      }
    }
  }

  /** Lower-casing a slice is slicing the lower-cased string. */
  lemma LowerSlice(s: string, a: nat, b: nat)
    requires a <= b <= |s|
    ensures Lower(s[a..b]) == Lower(s)[a..b]
  {
    forall k | 0 <= k < b - a ensures Lower(s[a..b])[k] == Lower(s)[a..b][k] {
      assert s[a..b][k] == s[a + k];
    }
  }

  /** `trim()` and `lowercase()` commute. */
  lemma TrimLower(s: string)
    ensures Trim(Lower(s)) == Lower(Trim(s))
  {
    var a, b := SkipLeading(s, 0), SkipTrailing(s, |s|);
    SkipLeadingLower(s, 0);
    SkipTrailingLower(s, |s|);
    if a < b {
      LowerSlice(s, a, b);
    }
  }

  /** `lowercase()` is idempotent. */
  lemma LowerIdempotent(s: string)
    ensures Lower(Lower(s)) == Lower(s)
  {
    LowerKeepsLowerCase(Lower(s));
  }
}
