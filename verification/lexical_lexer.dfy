/**
  The minimal lexer of lexical/lexer.go: keywords "if" and "else",
  identifiers, integers, the four arithmetic operators, and an EOF token with
  an empty value. Every other character is skipped without a token.
*/
module LexicalLexer {
  import opened Chars
  import opened Cursor

  datatype TokenType = Keyword | Identifier | Number | Operator | EOF

  datatype Token = Token(kind: TokenType, value: string)

  datatype Step = Step(token: Token, next: Cursor)

  /** The keyword table of handleIdentifier. */
  const Keywords: set<string> := {"if", "else"}

  /** The characters GetNextToken returns as operators. */
  const Operators: set<char> := {'+', '*', '-', '/'}

  /** isLetter || isDigit: the characters of an identifier. */
  predicate IsWordChar(c: char) {
    IsLetter(c) || IsDigit(c)
  }

  function NewLexer(input: string): (l: Cursor)
    ensures Valid(l) && l.input == input
  {
    NewCursor(input)
  }

  /** handleIdentifier: the letters and digits from the lookahead on, sliced as input[start : position-1]. */
  function HandleIdentifier(l: Cursor): (s: Step)
    requires Valid(l) && IsLetter(l.cur)
    ensures Valid(s.next) && s.next.input == l.input && Measure(s.next) < Measure(l)
    ensures s.token.kind == Keyword <==> s.token.value in Keywords
    ensures s.token.kind == Keyword || s.token.kind == Identifier
  {
    var start := l.position - 1;
    var r := AdvanceWhile(l, IsWordChar);
    var value := l.input[start..r.position - 1];
    if value in Keywords then Step(Token(Keyword, value), r) else Step(Token(Identifier, value), r)
  }

  /** The loop of handleNumber: advance over digits, leaving early once the lookahead is white space. */
  function NumberLoop(l: Cursor): (r: Cursor)
    requires InBounds(l)
    ensures InBounds(r) && r.input == l.input
    decreases Remaining(l)
  {
    if IsDigit(l.cur) then
      var a := Advance(l);
      if IsSpace(a.cur) then a else NumberLoop(a)
    else
      l
  }

  /** The early exit on white space changes nothing: the loop stops at the end of the digit run either way. */
  lemma {:induction false} NumberLoopIsDigitRun(l: Cursor)
    requires InBounds(l)
    ensures NumberLoop(l) == AdvanceWhile(l, IsDigit)
    decreases Remaining(l)
  {
    if IsDigit(l.cur) {
      var a := Advance(l);
      if !IsSpace(a.cur) {
        NumberLoopIsDigitRun(a);
      }
    }
  }

  /**
    handleNumber: the digit run, then `position--`, so that the lookahead that
    ended the run is loaded again by the next advance.
  */
  function HandleNumber(l: Cursor): (s: Step)
    requires Valid(l) && IsDigit(l.cur)
    ensures Valid(s.next) && s.next.input == l.input && Measure(s.next) < Measure(l)
    ensures s.token.kind == Number
  {
    var start := l.position - 1;
    RunEndRun(l.input, l.position, IsDigit);
    NumberLoopIsDigitRun(l);
    var m := NumberLoop(l);
    var r := Back(m);
    Step(Token(Number, l.input[start..r.position]), r)
  }

  /** GetNextToken: skip white space and unrecognised characters, then dispatch on the lookahead. */
  function GetNextToken(l: Cursor): (s: Step)
    requires Valid(l)
    ensures Valid(s.next) && s.next.input == l.input
    ensures s.token.kind == EOF ==> s.next.cur == NUL
    ensures s.token.kind == EOF ==> s.token.value == [] && (l.cur == NUL ==> s.next == l)
    ensures s.token.kind != EOF ==> Measure(s.next) < Measure(l)
    ensures s.token.kind == Operator ==> |s.token.value| == 1 && s.token.value[0] in Operators
    decreases Measure(l)
  {
    if l.cur == NUL then
      Step(Token(EOF, []), l)
    else if IsSpace(l.cur) then
      GetNextToken(Advance(l))
    else if IsLetter(l.cur) then
      HandleIdentifier(l)
    else if IsDigit(l.cur) then
      HandleNumber(l)
    else if l.cur in Operators then
      Step(Token(Operator, [l.cur]), Advance(l))
    else
      GetNextToken(Advance(l))
  }

  /** Repeated GetNextToken up to and including the first EOF, as compareTokens collects them. */
  function Tokenize(l: Cursor): (ts: seq<Token>)
    requires Valid(l)
    ensures |ts| >= 1 && ts[|ts| - 1] == Token(EOF, [])
    ensures forall k | 0 <= k < |ts| - 1 :: ts[k].kind != EOF
    decreases Measure(l)
  {
    var s := GetNextToken(l);
    if s.token.kind == EOF then
      [s.token]
    else
      var rest := Tokenize(s.next);
      var ts := [s.token] + rest;
      assert forall k | 1 <= k < |ts| :: ts[k] == rest[k - 1];
      ts
  }

  function Lex(input: string): seq<Token> {
    Tokenize(NewLexer(input))
  }

  /**
    An identifier is sliced from index position - 1. From a freshly loaded
    lookahead that is the maximal run of letters and digits at the lookahead,
    provided a character follows it; from a lookahead pending after a number
    the slice also takes the character before it.
  */
  lemma IdentifierLexeme(l: Cursor)
    requires Valid(l) && IsLetter(l.cur)
    ensures var s := HandleIdentifier(l);
      var j := RunEnd(l.input, l.position, IsWordChar);
      && (j < |l.input| ==> s.token.value == l.input[l.position - 1..j] && ScannedTo(s.next, j))
      && (Loaded(l) ==> j == RunEnd(l.input, l.position - 1, IsWordChar))
  {
    if Loaded(l) {
      RunEndStep(l.input, l.position - 1, IsWordChar);
    }
  }

  /**
    A number read from a loaded lookahead is the maximal digit run from it when
    a character follows the run; afterwards the character that ended the run is
    pending at position, to be loaded again.
  */
  lemma NumberLexeme(l: Cursor)
    requires Loaded(l) && IsDigit(l.cur)
    ensures var s := HandleNumber(l);
      var i := l.position - 1;
      var j := RunEnd(l.input, i, IsDigit);
      && i < j
      && (j < |l.input| ==> s.token.value == l.input[i..j] && s.next == Cursor(l.input, j, l.input[j]))
  {
    RunEndStep(l.input, l.position - 1, IsDigit);
    NumberLoopIsDigitRun(l);
  }

  /** A letter at the lookahead starts an identifier or keyword, read by handleIdentifier. */
  lemma IdentifierDispatch(l: Cursor)
    requires Valid(l) && IsLetter(l.cur)
    ensures GetNextToken(l) == HandleIdentifier(l)
  {
  }

  /** A digit at the lookahead starts a number, read by handleNumber. */
  lemma NumberDispatch(l: Cursor)
    requires Valid(l) && IsDigit(l.cur)
    ensures GetNextToken(l) == HandleNumber(l)
  {
  }

  /** Each operator character is returned as a one-character OPERATOR token, consuming only itself. */
  lemma OperatorToken(l: Cursor)
    requires Valid(l) && l.cur in Operators
    ensures GetNextToken(l) == Step(Token(Operator, [l.cur]), Advance(l))
  {
  }

  /** White space at the lookahead is skipped: the next token is the one read after it. */
  lemma SpaceSkipped(l: Cursor)
    requires Valid(l) && IsSpace(l.cur)
    ensures GetNextToken(l) == GetNextToken(Advance(l))
  {
  }

  /** A character that is neither white space, a letter, a digit nor an operator is skipped without a token. */
  lemma OtherSkipped(l: Cursor)
    requires Valid(l) && l.cur != NUL && !IsSpace(l.cur) && !IsWordChar(l.cur) && l.cur !in Operators
    ensures GetNextToken(l) == GetNextToken(Advance(l))
  {
  }

  /** '=' is one of the skipped characters. */
  lemma EqualsSkipped(l: Cursor)
    requires Valid(l) && l.cur == '='
    ensures GetNextToken(l) == GetNextToken(Advance(l))
  {
  }

  /** Once EOF has been returned every further call returns it again from the same state. */
  lemma EOFIsTerminal(l: Cursor)
    requires Valid(l) && GetNextToken(l).token.kind == EOF
    ensures var n := GetNextToken(l).next;
      GetNextToken(n) == Step(Token(EOF, []), n)
  {
  }
}
