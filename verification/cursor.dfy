/**
  The scanning state shared by lexical/lexer.go and go_lexer/main.go, whose
  Lexer records (input, position, currentChar) and advance methods are the
  same. Unlike the position-tracking lexer, both back position up by one after
  a number, so the lookahead may also be the character AT position, which the
  next advance loads a second time.
*/
module Cursor {
  import opened Chars

  datatype Cursor = Cursor(input: string, position: nat, cur: char)

  predicate InBounds(c: Cursor) {
    c.position <= |c.input|
  }

  /** The lookahead is the last character loaded, or NUL. */
  predicate Loaded(c: Cursor) {
    && InBounds(c)
    && (c.cur == NUL || (1 <= c.position && c.input[c.position - 1] == c.cur))
  }

  /**
    After `position--`: the lookahead is the character at position, which
    stopped a digit run, so it is not a digit and the run's last digit
    precedes it.
  */
  predicate Pending(c: Cursor) {
    && 1 <= c.position < |c.input|
    && c.input[c.position] == c.cur
    && !IsDigit(c.cur)
    && IsDigit(c.input[c.position - 1])
  }

  /** The states the two lexers can reach. */
  predicate Valid(c: Cursor) {
    Loaded(c) || Pending(c)
  }

  /** Steps left to a single advance loop: unread characters, plus one for a lookahead. */
  function Remaining(c: Cursor): nat
    requires InBounds(c)
  {
    |c.input| - c.position + (if c.cur == NUL then 0 else 1)
  }

  /**
    The termination measure of GetNextToken: twice the unread characters, plus
    two for a digit lookahead and one for any other; NUL ends the scan.
  */
  function Measure(c: Cursor): nat
    requires InBounds(c)
  {
    if c.cur == NUL then 0 else 2 * (|c.input| - c.position) + (if IsDigit(c.cur) then 2 else 1)
  }

  function NewCursor(input: string): (c: Cursor)
    ensures Loaded(c) && c.input == input
    ensures input == [] ==> c.cur == NUL && c.position == 0
    ensures input != [] ==> c.position == 1 && c.cur == input[0]
  {
    Advance(Cursor(input, 0, NUL))
  }

  /** advance: load input[position] and step past it; at end of input only the lookahead changes, to NUL. */
  function Advance(c: Cursor): (r: Cursor)
    requires InBounds(c)
    ensures Loaded(r) && r.input == c.input
    ensures c.position < |c.input| ==> r.position == c.position + 1 && r.cur == c.input[c.position]
    ensures c.position == |c.input| ==> r == c.(cur := NUL)
    ensures c.cur != NUL ==> Remaining(r) < Remaining(c)
  {
    if c.position < |c.input| then
      Cursor(c.input, c.position + 1, c.input[c.position])
    else
      c.(cur := NUL)
  }

  /**
    The cursor has scanned up to index j: the lookahead is input[j] just
    loaded, or NUL when j is the end of the input.
  */
  predicate ScannedTo(r: Cursor, j: nat) {
    && j <= |r.input|
    && (j < |r.input| ==> r.position == j + 1 && r.cur == r.input[j])
    && (j == |r.input| ==> r.position == j && r.cur == NUL)
  }

  /**
    The loops `for p(currentChar) { advance() }`. When the lookahead satisfies
    p the loop stops at the end of the p-run from index position, whether the
    lookahead was loaded from position - 1 or is pending at position.
  */
  function AdvanceWhile(c: Cursor, p: char -> bool): (r: Cursor)
    requires InBounds(c) && !p(NUL)
    ensures Loaded(r) || r == c
    ensures r.input == c.input && InBounds(r) && !p(r.cur)
    ensures !p(c.cur) ==> r == c
    ensures p(c.cur) ==> Loaded(r) && ScannedTo(r, RunEnd(c.input, c.position, p))
    decreases Remaining(c)
  {
    if p(c.cur) then
      AdvanceWhile(Advance(c), p)
    else
      c
  }

  /** position--, as both lexers do after a number. */
  function Back(c: Cursor): (r: Cursor)
    requires 1 <= c.position
    ensures r.input == c.input && r.cur == c.cur && r.position + 1 == c.position
  {
    c.(position := c.position - 1)
  }
}
