/**
  The position-tracking lexer of runner/src/go_lexer/main.go.

  The Go lexer is a record of mutable fields stepped by methods; here it is an
  immutable Lexer value and every method is a pure function from one Lexer to
  the next. currentChar is `cur`; the rune 0 that Go stores at end of input is
  Chars.NUL. A NUL byte inside the input therefore ends scanning as in Go.
  Each element of `input` stands for one byte of the Go string.
*/
module RunnerLexer {
  import opened Chars
  import Decimal

  datatype TokenType =
    | Keyword | Identifier | Number | Float | String
    | Operator | BoolOperator | Separator | EOF | Unknown

  /** The string value of each Go TokenType constant. */
  function TypeName(t: TokenType): string {
    match t
    case Keyword => "KEYWORD"
    case Identifier => "IDENTIFIER"
    case Number => "NUMBER"
    case Float => "FLOAT"
    case String => "STRING"
    case Operator => "OPERATOR"
    case BoolOperator => "BOOL_OPERATOR"
    case Separator => "SEPARATOR"
    case EOF => "EOF"
    case Unknown => "UNKNOWN"
  }

  datatype Token = Token(kind: TokenType, value: string, line: int, column: int)

  datatype Lexer = Lexer(input: string, position: nat, line: int, column: int, cur: char)

  /** One call of GetNextToken or of a sub-scanner: the token and the lexer after it. */
  datatype Step = Step(token: Token, next: Lexer)

  /** The keyword table built in handleIdentifier. */
  const Keywords: set<string> := {"if", "else", "for", "func", "int", "float", "string"}

  predicate IsKeyword(w: string) {
    w in Keywords
  }

  /** The single-character symbols of the switch in GetNextToken, split into separators and operators. */
  const Separators: set<char> := {';', ',', '(', ')', '{', '}'}
  const Operators: set<char> := {'+', '-', '*', '/', '=', '<', '>'}

  /** isLetter of this file: a Unicode letter or '_'. */
  predicate IsWordStart(c: char) {
    IsLetter(c) || c == '_'
  }

  predicate IsWordChar(c: char) {
    IsWordStart(c) || IsDigit(c)
  }

  predicate IsStringChar(c: char) {
    c != '"' && c != NUL
  }

  predicate IsCommentChar(c: char) {
    c != '\n' && c != NUL
  }

  // ---------------------------------------------------------------------------
  // Reference definitions of line and column

  /** The line reached after consuming the first n characters of s: one more than the newlines among them. */
  function LineAt(s: string, n: nat): (line: nat)
    requires n <= |s|
    ensures line >= 1
    decreases n
  {
    if n == 0 then 1 else LineAt(s, n - 1) + (if s[n - 1] == '\n' then 1 else 0)
  }

  /** The column reached after consuming the first n characters of s: one more than the characters since the last newline. */
  function ColumnAt(s: string, n: nat): (column: nat)
    requires n <= |s|
    ensures 1 <= column <= n + 1
    decreases n
  {
    if n == 0 then 1 else if s[n - 1] == '\n' then 1 else ColumnAt(s, n - 1) + 1
  }

  /** The index just after the last newline among the first n characters of s, or 0 when there is none. */
  function LineStart(s: string, n: nat): (k: nat)
    requires n <= |s|
    ensures k <= n
    decreases n
  {
    if n == 0 then 0 else if s[n - 1] == '\n' then n else LineStart(s, n - 1)
  }

  /**
    LineAt counts the newlines of the consumed prefix, and ColumnAt counts the
    characters after the last of them, which LineStart locates.
  */
  lemma {:induction false} LineColumnSpec(s: string, n: nat)
    requires n <= |s|
    ensures LineAt(s, n) == 1 + multiset(s[..n])['\n']
    ensures ColumnAt(s, n) == 1 + n - LineStart(s, n)
    ensures var k := LineStart(s, n);
      && (k == 0 || s[k - 1] == '\n')
      && forall m | k <= m < n :: s[m] != '\n'
    decreases n
  {
    if n > 0 {
      LineColumnSpec(s, n - 1);
      assert s[..n] == s[..n - 1] + [s[n - 1]];
    }
  }

  /**
    The fields agree with the consumed prefix: position within the input, line
    and column as the reference definitions compute them from input[..position].
  */
  predicate Positioned(l: Lexer) {
    && l.position <= |l.input|
    && l.line == LineAt(l.input, l.position)
    && l.column == ColumnAt(l.input, l.position)
  }

  /**
    The lexer invariant: positioned, and the lookahead is the last character
    consumed, or NUL once the input is exhausted.
  */
  predicate Valid(l: Lexer) {
    && Positioned(l)
    && ((l.cur == NUL && l.position == |l.input|) || (1 <= l.position && l.input[l.position - 1] == l.cur))
  }

  /** What remains to be scanned: the unread characters, plus one for a pending lookahead. */
  function Measure(l: Lexer): nat
    requires l.position <= |l.input|
  {
    |l.input| - l.position + (if l.cur == NUL then 0 else 1)
  }

  // ---------------------------------------------------------------------------
  // Cursor primitives

  function NewLexer(input: string): (l: Lexer)
    ensures Valid(l) && l.input == input
    ensures input == [] ==> l.cur == NUL && l.line == 1 && l.column == 1
    ensures input != [] ==> l.position == 1 && l.cur == input[0]
  {
    Advance(Lexer(input, 0, 1, 1, NUL))
  }

  /**
    advance: load the next byte and step position, line and column; at end of
    input only the lookahead changes, to NUL.
  */
  function Advance(l: Lexer): (r: Lexer)
    requires Positioned(l)
    ensures Valid(r) && r.input == l.input
    ensures l.position < |l.input| ==> r.position == l.position + 1 && r.cur == l.input[l.position]
    ensures l.position == |l.input| ==> r == l.(cur := NUL)
    ensures l.cur != NUL ==> Measure(r) < Measure(l)
  {
    if l.position < |l.input| then
      var c := l.input[l.position];
      var column := l.column + 1;
      if c == '\n' then
        Lexer(l.input, l.position + 1, l.line + 1, 1, c)
      else
        Lexer(l.input, l.position + 1, l.line, column, c)
    else
      l.(cur := NUL)
  }

  /** peekChar: the character after the lookahead, which is exactly what the next advance loads. */
  function Peek(l: Lexer): (c: char)
    requires Valid(l)
    ensures c == Advance(l).cur
    ensures l.position < |l.input| ==> c == l.input[l.position]
  {
    if l.position < |l.input| then l.input[l.position] else NUL
  }

  /** The loops `for p(currentChar) { advance() }` of the sub-scanners. */
  function AdvanceWhile(l: Lexer, p: char -> bool): (r: Lexer)
    requires Valid(l) && !p(NUL)
    ensures Valid(r) && r.input == l.input && !p(r.cur)
    ensures !p(l.cur) ==> r == l
    ensures p(l.cur) ==>
      var j := RunEnd(l.input, l.position, p);
      && (j < |l.input| ==> r.position == j + 1 && r.cur == l.input[j])
      && (j == |l.input| ==> r.position == j && r.cur == NUL)
    ensures p(l.cur) ==> Measure(r) < Measure(l)
    decreases Measure(l)
  {
    if p(l.cur) then
      AdvanceWhile(Advance(l), p)
    else
      l
  }

  /**
    The lexer has scanned up to index j: the lookahead is input[j], or NUL
    when j is the end of the input.
  */
  predicate ScannedTo(r: Lexer, j: nat) {
    && j <= |r.input|
    && (j < |r.input| ==> r.position == j + 1 && r.cur == r.input[j])
    && (j == |r.input| ==> r.position == j && r.cur == NUL)
  }

  /** Scanning from a lookahead that satisfies p ends where the p-run from the lookahead's index ends. */
  lemma ScanFromLookahead(l: Lexer, p: char -> bool)
    requires Valid(l) && !p(NUL) && p(l.cur)
    ensures var r := AdvanceWhile(l, p);
      var j := RunEnd(l.input, l.position - 1, p);
      && l.position - 1 < j
      && (j < |l.input| ==> r.position == j + 1 && r.cur == l.input[j])
      && (j == |l.input| ==> r.position == j && r.cur == NUL)
  {
    RunEndStep(l.input, l.position - 1, p);
  }

  /**
    Consuming the lookahead at index k and then scanning while p lands where the
    maximal p-run starting at k + 1 ends.
  */
  lemma SkipThenScan(l: Lexer, p: char -> bool, k: nat)
    requires Valid(l) && !p(NUL) && l.cur != NUL && l.position == k + 1
    ensures ScannedTo(AdvanceWhile(Advance(l), p), RunEnd(l.input, k + 1, p))
  {
    var a := Advance(l);
    if k + 1 < |l.input| && p(l.input[k + 1]) {
      RunEndStep(l.input, k + 1, p);
    }
  }

  // ---------------------------------------------------------------------------
  // Sub-scanners

  /** handleIdentifier: the maximal run of letters, digits and '_' from the lookahead. */
  function HandleIdentifier(l: Lexer): (s: Step)
    requires Valid(l) && IsWordStart(l.cur)
    ensures Valid(s.next) && s.next.input == l.input && Measure(s.next) < Measure(l)
    ensures s.token.kind == Keyword <==> IsKeyword(s.token.value)
    ensures s.token.kind == Keyword || s.token.kind == Identifier
    ensures s.token.line == s.next.line && s.token.column == s.next.column
  {
    var start := l.position - 1;
    var r := AdvanceWhile(l, IsWordChar);
    ScanFromLookahead(l, IsWordChar);
    var value := l.input[start..r.position - 1];
    var kind := if IsKeyword(value) then Keyword else Identifier;
    Step(Token(kind, value, r.line, r.column), r)
  }

  /**
    The identifier lexeme is the maximal run of word characters from the
    lookahead, when a character follows the run; a run reaching the end of
    input loses its last character to the slice input[start : position-1].
  */
  lemma IdentifierLexeme(l: Lexer, j: nat)
    requires Valid(l) && IsWordStart(l.cur)
    requires j == RunEnd(l.input, l.position - 1, IsWordChar)
    ensures j < |l.input| ==>
      HandleIdentifier(l).token.value == l.input[l.position - 1..j] && HandleIdentifier(l).next.position == j + 1
    ensures j == |l.input| ==>
      HandleIdentifier(l).token.value == l.input[l.position - 1..j - 1] && HandleIdentifier(l).next.cur == NUL
  {
    ScanFromLookahead(l, IsWordChar);
  }

  /** The loop of handleNumber: digits, and one '.' while none has been seen. */
  function NumberLoop(l: Lexer, isFloat: bool): (res: (Lexer, bool))
    requires Valid(l)
    ensures Valid(res.0) && res.0.input == l.input && Measure(res.0) <= Measure(l)
    ensures isFloat ==> res.1
    decreases Measure(l)
  {
    if IsDigit(l.cur) || (l.cur == '.' && !isFloat) then
      NumberLoop(Advance(l), isFloat || l.cur == '.')
    else
      (l, isFloat)
  }

  /** Once a '.' has been seen the loop only consumes digits. */
  lemma {:induction false} NumberLoopAfterDot(l: Lexer)
    requires Valid(l)
    ensures NumberLoop(l, true) == (AdvanceWhile(l, IsDigit), true)
    decreases Measure(l)
  {
    if IsDigit(l.cur) {
      NumberLoopAfterDot(Advance(l));
    }
  }

  /** The single loop of handleNumber is a digit run, then optionally one '.' and a second digit run. */
  lemma {:induction false} NumberLoopPhases(l: Lexer)
    requires Valid(l)
    ensures var m := AdvanceWhile(l, IsDigit);
      NumberLoop(l, false) == (if m.cur == '.' then (AdvanceWhile(Advance(m), IsDigit), true) else (m, false))
    decreases Measure(l)
  {
    if IsDigit(l.cur) {
      NumberLoopPhases(Advance(l));
    } else if l.cur == '.' {
      NumberLoopAfterDot(Advance(l));
    }
  }

  /** handleNumber: the digits and at most one '.' from the lookahead on. */
  function HandleNumber(l: Lexer): (s: Step)
    requires Valid(l) && IsDigit(l.cur)
    ensures Valid(s.next) && s.next.input == l.input && Measure(s.next) < Measure(l)
    ensures s.token.kind == Number || s.token.kind == Float
    ensures s.token.line == s.next.line && s.token.column == s.next.column
  {
    var start := l.position - 1;
    var res := NumberLoop(l, false);
    var r := res.0;
    NumberScan(l);
    var value := l.input[start..r.position - 1];
    if res.1 then
      Step(Token(Float, value, r.line, r.column), r)
    else
      Step(Token(Number, value, r.line, r.column), r)
  }

  lemma {:induction false} NumberScan(l: Lexer)
    requires Valid(l) && IsDigit(l.cur)
    ensures var res := NumberLoop(l, false);
      var r := res.0;
      var i := l.position - 1;
      var j1 := RunEnd(l.input, i, IsDigit);
      var dot := j1 < |l.input| && l.input[j1] == '.';
      && r.position >= l.position && Measure(r) < Measure(l)
      && (res.1 <==> dot)
      && (!dot ==> ScannedTo(r, j1))
      && (dot ==> ScannedTo(r, RunEnd(l.input, j1 + 1, IsDigit)))
  {
    var i := l.position - 1;
    var j1 := RunEnd(l.input, i, IsDigit);
    if j1 < |l.input| && l.input[j1] == '.' {
      NumberScanDot(l);
    } else {
      NumberScanNoDot(l);
    }
  }

  lemma {:induction false} NumberScanDot(l: Lexer)
    requires Valid(l) && IsDigit(l.cur)
    requires var j1 := RunEnd(l.input, l.position - 1, IsDigit);
      j1 < |l.input| && l.input[j1] == '.'
    ensures NumberLoop(l, false).1
    ensures NumberLoop(l, false).0.position >= l.position && Measure(NumberLoop(l, false).0) < Measure(l)
    ensures ScannedTo(NumberLoop(l, false).0, RunEnd(l.input, RunEnd(l.input, l.position - 1, IsDigit) + 1, IsDigit))
  {
    NumberDotLoop(l);
    NumberDotEnd(l, RunEnd(l.input, l.position - 1, IsDigit));
    NumberDotMoves(l);
  }

  /** With a '.' after the first digit run, the loop consumes it and a second digit run and reports a float. */
  lemma {:induction false} NumberDotLoop(l: Lexer)
    requires Valid(l) && IsDigit(l.cur)
    requires var j1 := RunEnd(l.input, l.position - 1, IsDigit);
      j1 < |l.input| && l.input[j1] == '.'
    ensures NumberLoop(l, false) == (AdvanceWhile(Advance(AdvanceWhile(l, IsDigit)), IsDigit), true)
  {
    ScanFromLookahead(l, IsDigit);
    NumberLoopPhases(l);
  }

  /** The second digit run starts right after the '.' at index j1. */
  lemma {:induction false} NumberDotEnd(l: Lexer, j1: nat)
    requires Valid(l) && IsDigit(l.cur)
    requires j1 == RunEnd(l.input, l.position - 1, IsDigit) && j1 < |l.input| && l.input[j1] == '.'
    ensures ScannedTo(AdvanceWhile(Advance(AdvanceWhile(l, IsDigit)), IsDigit), RunEnd(l.input, j1 + 1, IsDigit))
  {
    ScanFromLookahead(l, IsDigit);
    SkipThenScan(AdvanceWhile(l, IsDigit), IsDigit, j1);
  }

  /** Consuming the '.' and the second run moves the scan forward. */
  lemma {:induction false} NumberDotMoves(l: Lexer)
    requires Valid(l) && IsDigit(l.cur)
    requires var j1 := RunEnd(l.input, l.position - 1, IsDigit);
      j1 < |l.input| && l.input[j1] == '.'
    ensures var r := AdvanceWhile(Advance(AdvanceWhile(l, IsDigit)), IsDigit);
      r.position >= l.position && Measure(r) < Measure(l)
  {
    ScanFromLookahead(l, IsDigit);
  }

  lemma {:induction false} NumberScanNoDot(l: Lexer)
    requires Valid(l) && IsDigit(l.cur)
    requires var j1 := RunEnd(l.input, l.position - 1, IsDigit);
      !(j1 < |l.input| && l.input[j1] == '.')
    ensures var m := AdvanceWhile(l, IsDigit);
      && NumberLoop(l, false) == (m, false)
      && m.position >= l.position && Measure(m) < Measure(l)
      && ScannedTo(m, RunEnd(l.input, l.position - 1, IsDigit))
  {
    NumberLoopPhases(l);
    ScanFromLookahead(l, IsDigit);
  }

  /**
    A number is a digit run from the lookahead, then, if a '.' follows, that
    '.' and a second digit run; it is FLOAT exactly when the '.' was consumed,
    even with no digit after it, and a second '.' ends the token. When the
    token reaches the end of input its last character is lost to the slice.
  */
  lemma NumberLexeme(l: Lexer)
    requires Valid(l) && IsDigit(l.cur)
    ensures var s := HandleNumber(l);
      var i := l.position - 1;
      var j1 := RunEnd(l.input, i, IsDigit);
      var dot := j1 < |l.input| && l.input[j1] == '.';
      var j := if dot then RunEnd(l.input, j1 + 1, IsDigit) else j1;
      && (s.token.kind == Float <==> dot)
      && (j < |l.input| ==> s.token.value == l.input[i..j] && s.next.position == j + 1)
      && (j == |l.input| ==> s.token.value == l.input[i..j - 1] && s.next.cur == NUL)
  {
    NumberScan(l);
  }

  /**
    handleString: skip the opening quote, take everything up to the next quote
    (no escapes), then skip the closing quote.
  */
  function HandleString(l: Lexer): (s: Step)
    requires Valid(l) && l.cur == '"'
    ensures Valid(s.next) && s.next.input == l.input && Measure(s.next) < Measure(l)
    ensures s.token.kind == String
    ensures s.token.line == s.next.line && s.token.column == s.next.column
  {
    var a := Advance(l);
    var start := a.position - 1;
    var b := AdvanceWhile(a, IsStringChar);
    StringScan(l);
    var value := l.input[start..b.position - 1];
    var r := Advance(b);
    Step(Token(String, value, r.line, r.column), r)
  }

  lemma StringScan(l: Lexer)
    requires Valid(l) && l.cur == '"'
    ensures var a := Advance(l);
      var b := AdvanceWhile(a, IsStringChar);
      var o := l.position - 1;
      var j := RunEnd(l.input, o + 1, IsStringChar);
      && a.position >= 1 && b.position >= a.position
      && (o + 1 == |l.input| ==> a.position == o + 1 && b == a && a.cur == NUL)
      && (o + 1 < |l.input| ==> a.position == o + 2)
      && (j < |l.input| ==> b.position == j + 1 && b.cur == l.input[j])
      && (j == |l.input| ==> b.position == j && b.cur == NUL)
  {
    SkipThenScan(l, IsStringChar, l.position - 1);
  }

  /**
    A closed string literal: its value is the text between its opening quote
    and the next quote, and both quotes are consumed.
  */
  lemma StringLexeme(l: Lexer, j: nat)
    requires Valid(l) && l.cur == '"'
    requires j == RunEnd(l.input, l.position, IsStringChar) && j < |l.input|
    ensures HandleString(l).token.value == l.input[l.position..j]
    ensures HandleString(l).next.position == (if j + 1 < |l.input| then j + 2 else j + 1)
  {
    StringScan(l);
  }

  /**
    A string with no closing quote runs to the end of input, less the last
    character lost to the slice, and leaves the lexer at end of input.
  */
  lemma UnterminatedString(l: Lexer)
    requires Valid(l) && l.cur == '"'
    requires RunEnd(l.input, l.position, IsStringChar) == |l.input|
    ensures HandleString(l).next.cur == NUL
    ensures HandleString(l).token.value == if l.position == |l.input| then [] else l.input[l.position..|l.input| - 1]
  {
    StringScan(l);
  }

  /** skipLineComment: up to, not past, the next newline. */
  function SkipLineComment(l: Lexer): (r: Lexer)
    requires Valid(l)
    ensures Valid(r) && r.input == l.input && (r.cur == '\n' || r.cur == NUL)
    ensures IsCommentChar(l.cur) ==>
      var j := RunEnd(l.input, l.position, IsCommentChar);
      && (j < |l.input| ==> r.position == j + 1 && r.cur == l.input[j])
      && (j == |l.input| ==> r.position == j && r.cur == NUL)
    ensures IsCommentChar(l.cur) ==> Measure(r) < Measure(l)
  {
    AdvanceWhile(l, IsCommentChar)
  }

  /** The loop of skipBlockComment: stop after the first "*\/" or at NUL. */
  function SkipBlockComment(l: Lexer): (r: Lexer)
    requires Valid(l)
    ensures Valid(r) && r.input == l.input
    ensures l.cur != NUL ==> Measure(r) < Measure(l)
    ensures l.cur == NUL ==> r == l
    decreases Measure(l)
  {
    if l.cur == NUL then l
    else if l.cur == '*' && Peek(l) == '/' then Advance(Advance(l))
    else SkipBlockComment(Advance(l))
  }

  /**
    The index just after the first "*\/" starting at or after k, the index of
    the first NUL byte if one comes before it, or |s| if there is neither.
  */
  function CommentEnd(s: string, k: nat): (e: nat)
    requires k <= |s|
    ensures k <= e <= |s|
    decreases |s| - k
  {
    if k >= |s| || s[k] == NUL then k
    else if k + 1 < |s| && s[k] == '*' && s[k + 1] == '/' then k + 2
    else CommentEnd(s, k + 1)
  }

  /**
    A block comment starting at the lookahead (index position - 1) ends right
    after the first "*\/" at or after the lookahead, at the first NUL byte
    (which, as in Go, reads as the end of input), or at end of input: comments
    do not nest.
  */
  lemma {:induction false} BlockCommentEnd(l: Lexer)
    requires Valid(l) && l.cur != NUL
    ensures var r := SkipBlockComment(l);
      var e := CommentEnd(l.input, l.position - 1);
      && (e < |l.input| ==> r.position == e + 1 && r.cur == l.input[e])
      && (e == |l.input| ==> r.position == e && r.cur == NUL)
    decreases Measure(l)
  {
    var k := l.position - 1;
    if l.cur == '*' && Peek(l) == '/' {
      assert CommentEnd(l.input, k) == k + 2;
    } else {
      var a := Advance(l);
      if a.cur != NUL {
        BlockCommentEnd(a);
      }
    }
  }

  // ---------------------------------------------------------------------------
  // The driver

  /** The token of one of the single-character symbols, after consuming it. */
  function SymbolToken(l: Lexer): (s: Step)
    requires Valid(l) && (l.cur in Separators || l.cur in Operators)
    ensures Valid(s.next) && s.next == Advance(l)
    ensures s.token.value == [l.cur]
    ensures s.token.kind == Separator <==> l.cur in Separators
    ensures s.token.kind == Operator <==> l.cur in Operators
  {
    var op := [l.cur];
    var a := Advance(l);
    if l.cur in Separators then
      Step(Token(Separator, op, a.line, a.column), a)
    else
      Step(Token(Operator, op, a.line, a.column), a)
  }

  /** GetNextToken: skip spaces and comments, then dispatch on the lookahead. */
  function GetNextToken(l: Lexer): (s: Step)
    requires Valid(l)
    ensures Valid(s.next) && s.next.input == l.input
    ensures s.token.kind == EOF ==> s.next.cur == NUL && s.token.value == []
    ensures s.token.kind != EOF ==> Measure(s.next) < Measure(l)
    ensures l.cur == NUL ==> s == Step(Token(EOF, [], l.line, l.column), l)
    ensures s.token.line == s.next.line && s.token.column == s.next.column
    decreases Measure(l)
  {
    if l.cur == NUL then
      Step(Token(EOF, [], l.line, l.column), l)
    else if IsSpace(l.cur) then
      GetNextToken(Advance(l))
    else if l.cur == '/' && Peek(l) == '/' then
      GetNextToken(SkipLineComment(l))
    else if l.cur == '/' && Peek(l) == '*' then
      GetNextToken(SkipBlockComment(l))
    else if IsWordStart(l.cur) then
      HandleIdentifier(l)
    else if IsDigit(l.cur) then
      HandleNumber(l)
    else if l.cur == '"' then
      HandleString(l)
    else if l.cur in Separators || l.cur in Operators then
      SymbolToken(l)
    else
      var a := Advance(l);
      Step(Token(Unknown, [a.cur], a.line, a.column), a)
  }

  /** Repeated GetNextToken until EOF, as the loop of main does. */
  function Tokenize(l: Lexer): (ts: seq<Token>)
    requires Valid(l)
    ensures |ts| >= 1 && ts[|ts| - 1].kind == EOF
    ensures forall k | 0 <= k < |ts| - 1 :: ts[k].kind != EOF
    decreases Measure(l), 1
  {
    TokenizeFrom(l, GetNextToken(l))
  }

  /** The rest of Tokenize once the step s from l is known: stop at EOF, go on from s.next otherwise. */
  function TokenizeFrom(l: Lexer, s: Step): (ts: seq<Token>)
    requires Valid(l) && Valid(s.next)
    requires s.token.kind != EOF ==> Measure(s.next) < Measure(l)
    ensures |ts| >= 1 && ts[|ts| - 1].kind == EOF
    ensures forall k | 0 <= k < |ts| - 1 :: ts[k].kind != EOF
    decreases Measure(l), 0
  {
    if s.token.kind == EOF then
      [s.token]
    else
      Prepend(s.token, Tokenize(s.next))
  }

  /** A token other than EOF in front of a run that ends at its only EOF keeps that shape. */
  function Prepend(t: Token, rest: seq<Token>): (ts: seq<Token>)
    requires t.kind != EOF && |rest| >= 1 && rest[|rest| - 1].kind == EOF
    requires forall k | 0 <= k < |rest| - 1 :: rest[k].kind != EOF
    ensures ts == [t] + rest
    ensures |ts| >= 1 && ts[|ts| - 1].kind == EOF
    ensures forall k | 0 <= k < |ts| - 1 :: ts[k].kind != EOF
  {
    var ts := [t] + rest;
    assert forall k | 1 <= k < |ts| :: ts[k] == rest[k - 1];
    ts
  }

  function Lex(input: string): seq<Token> {
    Tokenize(NewLexer(input))
  }

  // ---------------------------------------------------------------------------
  // Properties of the driver

  /** The six separators and the seven operators are disjoint sets of symbols. */
  lemma SymbolPartition(c: char)
    ensures !(c in Separators && c in Operators)
    ensures c in Separators <==> c in {';', ',', '(', ')', '{', '}'}
  {
  }

  /** White space at the lookahead is skipped: the next token is the one read after it. */
  lemma SpaceSkipped(l: Lexer)
    requires Valid(l) && IsSpace(l.cur)
    ensures GetNextToken(l) == GetNextToken(Advance(l))
  {
  }

  /** A letter or '_' at the lookahead starts an identifier or keyword, read by handleIdentifier. */
  lemma IdentifierDispatch(l: Lexer)
    requires Valid(l) && IsWordStart(l.cur)
    ensures GetNextToken(l) == HandleIdentifier(l)
  {
  }

  /** A digit at the lookahead starts a NUMBER or FLOAT, read by handleNumber. */
  lemma NumberDispatch(l: Lexer)
    requires Valid(l) && IsDigit(l.cur)
    ensures GetNextToken(l) == HandleNumber(l)
  {
  }

  /** A double quote at the lookahead starts a string literal, read by handleString. */
  lemma StringDispatch(l: Lexer)
    requires Valid(l) && l.cur == '"'
    ensures GetNextToken(l) == HandleString(l)
  {
  }

  /**
    A separator or operator that does not open a comment becomes a one-character
    token of its class, and exactly that character is consumed.
  */
  lemma SymbolDispatch(l: Lexer)
    requires Valid(l) && (l.cur in Separators || l.cur in Operators)
    requires !(l.cur == '/' && (Peek(l) == '/' || Peek(l) == '*'))
    ensures var s := GetNextToken(l);
      && s.next == Advance(l)
      && s.token.value == [l.cur]
      && (s.token.kind == Separator <==> l.cur in Separators)
      && (s.token.kind == Operator <==> l.cur in Operators)
  {
    assert !IsSpace(l.cur) && !IsWordStart(l.cur) && !IsDigit(l.cur) && l.cur != '"';
  }

  /** A '/' not followed by '/' or '*' is the division operator. */
  lemma SlashIsOperator(l: Lexer)
    requires Valid(l) && l.cur == '/' && Peek(l) != '/' && Peek(l) != '*'
    ensures GetNextToken(l).token.kind == Operator && GetNextToken(l).token.value == "/"
  {
    SymbolDispatch(l);
  }

  /** "//" starts a comment that emits no token: the scan resumes at the newline that ends it. */
  lemma LineCommentElided(l: Lexer)
    requires Valid(l) && l.cur == '/' && Peek(l) == '/'
    ensures var r := SkipLineComment(l);
      && (r.cur == '\n' || r.cur == NUL)
      && GetNextToken(l) == GetNextToken(r)
  {
  }

  /** A slash followed by a star starts a comment that emits no token: the scan resumes after the comment. */
  lemma BlockCommentElided(l: Lexer)
    requires Valid(l) && l.cur == '/' && Peek(l) == '*'
    ensures GetNextToken(l) == GetNextToken(SkipBlockComment(l))
  {
  }

  /**
    A character that starts no token is consumed and reported as UNKNOWN; the
    token's value is the character after it, read once the lexer has advanced.
  */
  lemma UnknownToken(l: Lexer)
    requires Valid(l) && l.cur != NUL && !IsSpace(l.cur) && l.cur != '/'
    requires !IsWordStart(l.cur) && !IsDigit(l.cur) && l.cur != '"'
    requires l.cur !in Separators && l.cur !in Operators
    ensures var s := GetNextToken(l);
      && s.token.kind == Unknown
      && s.token.value == [Peek(l)]
      && s.next == Advance(l)
  {
  }

  /** Once EOF has been returned, every further call returns EOF again from the same state. */
  lemma EOFIsTerminal(l: Lexer)
    requires Valid(l) && GetNextToken(l).token.kind == EOF
    ensures var n := GetNextToken(l).next;
      GetNextToken(n) == Step(Token(EOF, [], n.line, n.column), n)
  {
  }

  /** Input made only of white space lexes to the EOF token alone, on the line after the last newline. */
  lemma {:induction false} BlankTokenize(l: Lexer)
    requires Valid(l)
    requires forall k | l.position <= k < |l.input| :: IsSpace(l.input[k])
    requires IsSpace(l.cur) || (l.cur == NUL && l.position == |l.input|)
    ensures Tokenize(l) == [Token(EOF, [], LineAt(l.input, |l.input|), ColumnAt(l.input, |l.input|))]
    decreases Measure(l)
  {
    if l.cur != NUL {
      BlankTokenize(Advance(l));
    }
  }

  lemma BlankLex(input: string)
    requires forall k | 0 <= k < |input| :: IsSpace(input[k])
    ensures Lex(input) == [Token(EOF, [], LineAt(input, |input|), ColumnAt(input, |input|))]
  {
    BlankTokenize(NewLexer(input));
  }

  /** The line main writes for a token (runner/src/go_lexer/main.go:223), without its newline. */
  function FormatLine(t: Token): string
    requires t.line >= 0 && t.column >= 0
  {
    "Type: " + TypeName(t.kind) + ", Value: " + t.value
      + ", Line: " + Decimal.NatToString(t.line) + ", Column: " + Decimal.NatToString(t.column)
  }
}
