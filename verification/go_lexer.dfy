/**
  The lexer of go_lexer/main.go: the minimal lexer with '=' added to the
  operators, a number loop without the early exit on white space, and ";" as
  the value of the EOF token.
*/
module GoLexer {
  import opened Chars
  import opened Cursor

  datatype TokenType = Keyword | Identifier | Number | Operator | EOF

  /** The string value of each Go TokenType constant. */
  function TypeName(t: TokenType): string {
    match t
    case Keyword => "KEYWORD"
    case Identifier => "IDENTIFIER"
    case Number => "NUMBER"
    case Operator => "OPERATOR"
    case EOF => "EOF"
  }

  datatype Token = Token(kind: TokenType, value: string)

  datatype Step = Step(token: Token, next: Cursor)

  /** The keyword table of handleIdentifier. */
  const Keywords: set<string> := {"if", "else"}

  /** The characters GetNextToken returns as operators. */
  const Operators: set<char> := {'=', '+', '*', '-', '/'}

  /** The value of the EOF token. */
  const EOFValue: string := ";"

  /** isLetter || isDigit: the characters of an identifier. */
  predicate IsWordChar(c: char) {
    IsLetter(c) || IsDigit(c)
  }

  function NewLexer(input: string): (l: Cursor)
    ensures Valid(l) && l.input == input
  {
    NewCursor(input)
  }

  /** handleIdentifier: the letters and digits from the lookahead on, sliced as input[start : position-1]. */
  function HandleIdentifier(l: Cursor): (s: Step)
    requires Valid(l) && IsLetter(l.cur)
    ensures Valid(s.next) && s.next.input == l.input && Measure(s.next) < Measure(l)
    ensures s.token.kind == Keyword <==> s.token.value in Keywords
    ensures s.token.kind == Keyword || s.token.kind == Identifier
  {
    var start := l.position - 1;
    var r := AdvanceWhile(l, IsWordChar);
    var value := l.input[start..r.position - 1];
    if value in Keywords then Step(Token(Keyword, value), r) else Step(Token(Identifier, value), r)
  }

  /** handleNumber: the digit run, then `position--`, leaving the character that ended the run pending. */
  function HandleNumber(l: Cursor): (s: Step)
    requires Valid(l) && IsDigit(l.cur)
    ensures Valid(s.next) && s.next.input == l.input && Measure(s.next) < Measure(l)
    ensures s.token.kind == Number
  {
    var start := l.position - 1;
    RunEndRun(l.input, l.position, IsDigit);
    var r := Back(AdvanceWhile(l, IsDigit));
    Step(Token(Number, l.input[start..r.position]), r)
  }

  /** GetNextToken: skip white space and unrecognised characters, then dispatch on the lookahead. */
  function GetNextToken(l: Cursor): (s: Step)
    requires Valid(l)
    ensures Valid(s.next) && s.next.input == l.input
    ensures s.token.kind == EOF ==> s.next.cur == NUL && s.token.value == EOFValue && (l.cur == NUL ==> s.next == l)
    ensures s.token.kind != EOF ==> Measure(s.next) < Measure(l)
    ensures s.token.kind == Operator ==> |s.token.value| == 1 && s.token.value[0] in Operators
    decreases Measure(l)
  {
    if l.cur == NUL then
      Step(Token(EOF, EOFValue), l)
    else if IsSpace(l.cur) then
      GetNextToken(Advance(l))
    else if IsLetter(l.cur) then
      HandleIdentifier(l)
    else if IsDigit(l.cur) then
      HandleNumber(l)
    else if l.cur in Operators then
      Step(Token(Operator, [l.cur]), Advance(l))
    else
      GetNextToken(Advance(l))
  }

  /** Repeated GetNextToken up to and including the first EOF, as the loop of main writes them. */
  function Tokenize(l: Cursor): (ts: seq<Token>)
    requires Valid(l)
    ensures |ts| >= 1 && ts[|ts| - 1] == Token(EOF, EOFValue)
    ensures forall k | 0 <= k < |ts| - 1 :: ts[k].kind != EOF
    decreases Measure(l)
  {
    var s := GetNextToken(l);
    if s.token.kind == EOF then
      [s.token]
    else
      var rest := Tokenize(s.next);
      var ts := [s.token] + rest;
      assert forall k | 1 <= k < |ts| :: ts[k] == rest[k - 1];
      ts
  }

  function Lex(input: string): seq<Token> {
    Tokenize(NewLexer(input))
  }

  /**
    An identifier is sliced from index position - 1: from a freshly loaded
    lookahead that is the maximal run of letters and digits at the lookahead,
    provided a character follows the run.
  */
  lemma IdentifierLexeme(l: Cursor)
    requires Valid(l) && IsLetter(l.cur)
    ensures var s := HandleIdentifier(l);
      var j := RunEnd(l.input, l.position, IsWordChar);
      && (j < |l.input| ==> s.token.value == l.input[l.position - 1..j] && ScannedTo(s.next, j))
      && (Loaded(l) ==> j == RunEnd(l.input, l.position - 1, IsWordChar))
  {
    if Loaded(l) {
      RunEndStep(l.input, l.position - 1, IsWordChar);
    }
  }

  /**
    A number is the maximal digit run from the lookahead when a character
    follows it, and that character is left pending at position, so the next
    advance loads it again.
  */
  lemma NumberLexeme(l: Cursor)
    requires Loaded(l) && IsDigit(l.cur)
    ensures var s := HandleNumber(l);
      var i := l.position - 1;
      var j := RunEnd(l.input, i, IsDigit);
      && i < j
      && (j < |l.input| ==> s.token.value == l.input[i..j] && s.next == Cursor(l.input, j, l.input[j]))
  {
    RunEndStep(l.input, l.position - 1, IsDigit);
  }

  /** A letter at the lookahead starts an identifier or keyword, read by handleIdentifier. */
  lemma IdentifierDispatch(l: Cursor)
    requires Valid(l) && IsLetter(l.cur)
    ensures GetNextToken(l) == HandleIdentifier(l)
  {
  }

  /** A digit at the lookahead starts a number, read by handleNumber. */
  lemma NumberDispatch(l: Cursor)
    requires Valid(l) && IsDigit(l.cur)
    ensures GetNextToken(l) == HandleNumber(l)
  {
  }

  /** Each operator character is returned as a one-character OPERATOR token, consuming only itself. */
  lemma OperatorToken(l: Cursor)
    requires Valid(l) && l.cur in Operators
    ensures GetNextToken(l) == Step(Token(Operator, [l.cur]), Advance(l))
  {
  }

  /** White space at the lookahead is skipped: the next token is the one read after it. */
  lemma SpaceSkipped(l: Cursor)
    requires Valid(l) && IsSpace(l.cur)
    ensures GetNextToken(l) == GetNextToken(Advance(l))
  {
  }

  /** A character that is neither white space, a letter, a digit nor an operator is skipped without a token. */
  lemma OtherSkipped(l: Cursor)
    requires Valid(l) && l.cur != NUL && !IsSpace(l.cur) && !IsWordChar(l.cur) && l.cur !in Operators
    ensures GetNextToken(l) == GetNextToken(Advance(l))
  {
  }

  /** Once EOF has been returned every further call returns it again from the same state. */
  lemma EOFIsTerminal(l: Cursor)
    requires Valid(l) && GetNextToken(l).token.kind == EOF
    ensures var n := GetNextToken(l).next;
      GetNextToken(n) == Step(Token(EOF, EOFValue), n)
  {
  }

  // ---------------------------------------------------------------------------
  // The values main writes

  predicate SafeChar(c: char) {
    IsWordChar(c) || c in Operators || c == ';'
  }

  /** A value that is not empty and holds only letters, digits, operators and ';'. */
  predicate SafeValue(v: string) {
    |v| >= 1 && forall k | 0 <= k < |v| :: SafeChar(v[k])
  }

  /** The input ends with a character that ends every run, as the ' ' main appends to each line does. */
  predicate EndsRuns(input: string) {
    |input| >= 1 && !IsWordChar(input[|input| - 1])
  }

  lemma IdentifierSafe(l: Cursor)
    requires Valid(l) && IsLetter(l.cur) && EndsRuns(l.input)
    ensures SafeValue(HandleIdentifier(l).token.value)
  {
    IdentifierLexeme(l);
    RunEndRun(l.input, l.position - 1, IsWordChar);
    var j := RunEnd(l.input, l.position, IsWordChar);
    assert j < |l.input|;
    var v := HandleIdentifier(l).token.value;
    forall k | 0 <= k < |v|
      ensures SafeChar(v[k])
    {
      assert v[k] == l.input[l.position - 1 + k];
    }
  }

  lemma NumberSafe(l: Cursor)
    requires Valid(l) && IsDigit(l.cur) && EndsRuns(l.input)
    ensures SafeValue(HandleNumber(l).token.value)
  {
    NumberLexeme(l);
    RunEndRun(l.input, l.position - 1, IsDigit);
    var i := l.position - 1;
    var j := RunEnd(l.input, i, IsDigit);
    assert j < |l.input|;
    var v := HandleNumber(l).token.value;
    forall k | 0 <= k < |v|
      ensures SafeChar(v[k])
    {
      assert v[k] == l.input[i + k];
    }
  }

  /** On input that ends every run, each token's value is non-empty and free of spaces, ',' and ':'. */
  lemma {:induction false} TokenSafe(l: Cursor)
    requires Valid(l) && EndsRuns(l.input)
    ensures SafeValue(GetNextToken(l).token.value)
    decreases Measure(l)
  {
    if l.cur == NUL {
    } else if IsSpace(l.cur) {
      TokenSafe(Advance(l));
    } else if IsLetter(l.cur) {
      IdentifierSafe(l);
    } else if IsDigit(l.cur) {
      NumberSafe(l);
    } else if l.cur !in Operators {
      TokenSafe(Advance(l));
    }
  }

  lemma {:induction false} TokenizeSafe(l: Cursor)
    requires Valid(l) && EndsRuns(l.input)
    ensures forall k | 0 <= k < |Tokenize(l)| :: SafeValue(Tokenize(l)[k].value)
    decreases Measure(l)
  {
    TokenSafe(l);
    var s := GetNextToken(l);
    if s.token.kind != EOF {
      TokenizeSafe(s.next);
    }
  }

  /** The line main writes for a token (go_lexer/main.go:150), without its newline. */
  function FormatLine(t: Token): string {
    "Type: " + TypeName(t.kind) + ", Value: " + t.value
  }
}
