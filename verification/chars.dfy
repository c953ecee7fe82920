/**
  Character classes used by the lexers and by the Python stages.

  The Go lexers index their input string byte by byte and widen each byte to a
  rune, so the classes they use only ever see code points up to U+00FF; on that
  range the predicates below agree with Go's unicode.IsLetter, unicode.IsDigit
  and unicode.IsSpace. IsSpace also covers the white-space code points above
  U+00FF, since the rune-based splitter of lexical/lexar/lexical.go uses it.
*/
module Chars {

  /** The rune the Go lexers store in currentChar once the input is exhausted. */
  const NUL: char := '\0'

  predicate IsAsciiLetter(c: char) {
    ('a' <= c <= 'z') || ('A' <= c <= 'Z')
  }

  /** unicode.IsDigit on the Latin-1 range, and Python's '0'-'9'. */
  predicate IsDigit(c: char) {
    '0' <= c <= '9'
  }

  /** unicode.IsLetter on a byte widened to a rune (the Latin-1 letters). */
  predicate IsLetter(c: char) {
    || IsAsciiLetter(c)
    || c == '\U{AA}' || c == '\U{B5}' || c == '\U{BA}'
    || ('\U{C0}' <= c <= '\U{FF}' && c != '\U{D7}' && c != '\U{F7}')
  }

  /** unicode.IsSpace: the Latin-1 spaces and the White_Space code points above them. */
  predicate IsSpace(c: char) {
    || c == ' ' || c == '\t' || c == '\n' || c == '\U{B}' || c == '\U{C}' || c == '\r'
    || c == '\U{85}' || c == '\U{A0}' || c == '\U{1680}'
    || ('\U{2000}' <= c <= '\U{200A}')
    || c == '\U{2028}' || c == '\U{2029}' || c == '\U{202F}' || c == '\U{205F}' || c == '\U{3000}'
  }

  /** Python's str.isspace on one character (whitespace bidi classes and category Zs). */
  predicate IsPySpace(c: char) {
    || IsSpace(c)
    || ('\U{1C}' <= c <= '\U{1F}')
  }

  /** The ASCII alphanumerics, the class [a-zA-Z0-9] of the expression scanner. */
  predicate IsAsciiAlnum(c: char) {
    IsAsciiLetter(c) || IsDigit(c)
  }

  /**
    The end of the maximal run of characters satisfying p that starts at index
    i: every character in s[i..j] satisfies p and s[j], if it exists, does not.
  */
  function RunEnd(s: string, i: nat, p: char -> bool): (j: nat)
    requires i <= |s|
    ensures i <= j <= |s|
    ensures j < |s| ==> !p(s[j])
    decreases |s| - i
  {
    if i == |s| || !p(s[i]) then i else RunEnd(s, i + 1, p)
  }

  /** Every character of the run satisfies p. */
  lemma {:induction false} RunEndRun(s: string, i: nat, p: char -> bool)
    requires i <= |s|
    ensures forall k | i <= k < RunEnd(s, i, p) :: p(s[k])
    decreases |s| - i
  {
    if i < |s| && p(s[i]) {
      RunEndRun(s, i + 1, p);
    }
  }

  /** A run that starts with a character satisfying p ends where the run from the next index ends. */
  lemma RunEndStep(s: string, i: nat, p: char -> bool)
    requires i < |s| && p(s[i])
    ensures RunEnd(s, i, p) == RunEnd(s, i + 1, p)
  {
  }

  /** Any index that meets RunEnd's two conditions is RunEnd: the maximal run is unique. */
  lemma {:induction false} RunEndUnique(s: string, i: nat, j: nat, p: char -> bool)
    requires i <= j <= |s|
    requires forall k | i <= k < j :: p(s[k])
    requires j < |s| ==> !p(s[j])
    ensures RunEnd(s, i, p) == j
    decreases |s| - i
  {
    if i < j {
      RunEndUnique(s, i + 1, j, p);
    }
  }
}
