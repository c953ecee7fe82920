/** Concrete runs of the position-tracking lexer of runner/src/go_lexer/main.go. */
module RunnerLexerExamples {
  import opened Chars
  import opened RunnerLexer

  const FloatInput: string := "1.2.3\n"

  lemma FloatLoop()
    ensures NumberLoop(Lexer(FloatInput, 1, 1, 2, '1'), false) == (Lexer(FloatInput, 4, 1, 5, '.'), true)
  {
    assert Advance(Lexer(FloatInput, 1, 1, 2, '1')) == Lexer(FloatInput, 2, 1, 3, '.');
    assert Advance(Lexer(FloatInput, 2, 1, 3, '.')) == Lexer(FloatInput, 3, 1, 4, '2');
    assert Advance(Lexer(FloatInput, 3, 1, 4, '2')) == Lexer(FloatInput, 4, 1, 5, '.');
  }

  lemma FloatStep0()
    ensures NewLexer(FloatInput) == Lexer(FloatInput, 1, 1, 2, '1')
    ensures GetNextToken(Lexer(FloatInput, 1, 1, 2, '1'))
      == Step(Token(Float, "1.2", 1, 5), Lexer(FloatInput, 4, 1, 5, '.'))
  {
    FloatLoop();
    assert FloatInput[0..3] == "1.2";
  }

  lemma FloatStep1()
    ensures GetNextToken(Lexer(FloatInput, 4, 1, 5, '.'))
      == Step(Token(Unknown, "3", 1, 6), Lexer(FloatInput, 5, 1, 6, '3'))
  {
    UnknownToken(Lexer(FloatInput, 4, 1, 5, '.'));
  }

  lemma FloatStep2()
    ensures GetNextToken(Lexer(FloatInput, 5, 1, 6, '3'))
      == Step(Token(Number, "3", 2, 1), Lexer(FloatInput, 6, 2, 1, '\n'))
  {
    assert NumberLoop(Lexer(FloatInput, 5, 1, 6, '3'), false) == (Lexer(FloatInput, 6, 2, 1, '\n'), false);
  }

  lemma FloatStep3()
    ensures Tokenize(Lexer(FloatInput, 6, 2, 1, '\n')) == [Token(EOF, "", 2, 1)]
  {
    assert GetNextToken(Lexer(FloatInput, 6, 2, 1, '\n')) == Step(Token(EOF, "", 2, 1), Lexer(FloatInput, 6, 2, 1, NUL));
  }

  /**
    "1.2.3\n": the second '.' ends the float and is reported as UNKNOWN with
    the character after it, and that character is then lexed again as a number.
  */
  lemma FloatThenUnknown()
    ensures Lex(FloatInput) == [
      Token(Float, "1.2", 1, 5),
      Token(Unknown, "3", 1, 6),
      Token(Number, "3", 2, 1),
      Token(EOF, "", 2, 1)]
  {
    FloatStep0();
    FloatStep1();
    FloatStep2();
    FloatStep3();
  }

  const KeywordInput: string := "if x\n"

  lemma KeywordScan0()
    ensures AdvanceWhile(Lexer(KeywordInput, 1, 1, 2, 'i'), IsWordChar) == Lexer(KeywordInput, 3, 1, 4, ' ')
  {
    assert Advance(Lexer(KeywordInput, 1, 1, 2, 'i')) == Lexer(KeywordInput, 2, 1, 3, 'f');
    assert Advance(Lexer(KeywordInput, 2, 1, 3, 'f')) == Lexer(KeywordInput, 3, 1, 4, ' ');
  }

  lemma KeywordStep0()
    ensures NewLexer(KeywordInput) == Lexer(KeywordInput, 1, 1, 2, 'i')
    ensures GetNextToken(Lexer(KeywordInput, 1, 1, 2, 'i'))
      == Step(Token(Keyword, "if", 1, 4), Lexer(KeywordInput, 3, 1, 4, ' '))
  {
    KeywordScan0();
    assert KeywordInput[0..2] == "if";
  }

  lemma KeywordScan1()
    ensures Advance(Lexer(KeywordInput, 3, 1, 4, ' ')) == Lexer(KeywordInput, 4, 1, 5, 'x')
    ensures AdvanceWhile(Lexer(KeywordInput, 4, 1, 5, 'x'), IsWordChar) == Lexer(KeywordInput, 5, 2, 1, '\n')
  {
    assert Advance(Lexer(KeywordInput, 4, 1, 5, 'x')) == Lexer(KeywordInput, 5, 2, 1, '\n');
  }

  lemma KeywordStep1()
    ensures GetNextToken(Lexer(KeywordInput, 3, 1, 4, ' '))
      == Step(Token(Identifier, "x", 2, 1), Lexer(KeywordInput, 5, 2, 1, '\n'))
  {
    KeywordScan1();
    assert KeywordInput[3..4] == "x" && !IsKeyword("x");
  }

  lemma KeywordStep2()
    ensures Tokenize(Lexer(KeywordInput, 5, 2, 1, '\n')) == [Token(EOF, "", 2, 1)]
  {
    assert GetNextToken(Lexer(KeywordInput, 5, 2, 1, '\n')) == Step(Token(EOF, "", 2, 1), Lexer(KeywordInput, 5, 2, 1, NUL));
  }

  /** "if x\n": a keyword, then an identifier whose position is read after the newline that ends it. */
  lemma KeywordThenIdentifier()
    ensures Lex(KeywordInput) == [Token(Keyword, "if", 1, 4), Token(Identifier, "x", 2, 1), Token(EOF, "", 2, 1)]
  {
    KeywordStep0();
    KeywordStep1();
    KeywordStep2();
  }

  const CommentInput: string := "/*/x\n"

  lemma CommentStep0()
    ensures NewLexer(CommentInput) == Lexer(CommentInput, 1, 1, 2, '/')
    ensures SkipBlockComment(Lexer(CommentInput, 1, 1, 2, '/')) == Lexer(CommentInput, 4, 1, 5, 'x')
  {
    assert SkipBlockComment(Lexer(CommentInput, 2, 1, 3, '*')) == Lexer(CommentInput, 4, 1, 5, 'x');
  }

  lemma CommentStep1()
    ensures GetNextToken(Lexer(CommentInput, 1, 1, 2, '/'))
      == Step(Token(Identifier, "x", 2, 1), Lexer(CommentInput, 5, 2, 1, '\n'))
  {
    CommentStep0();
    CommentScan();
    assert CommentInput[3..4] == "x" && !IsKeyword("x");
  }

  lemma CommentScan()
    ensures AdvanceWhile(Lexer(CommentInput, 4, 1, 5, 'x'), IsWordChar) == Lexer(CommentInput, 5, 2, 1, '\n')
  {
    assert Advance(Lexer(CommentInput, 4, 1, 5, 'x')) == Lexer(CommentInput, 5, 2, 1, '\n');
  }

  lemma CommentStep2()
    ensures Tokenize(Lexer(CommentInput, 5, 2, 1, '\n')) == [Token(EOF, "", 2, 1)]
  {
    assert GetNextToken(Lexer(CommentInput, 5, 2, 1, '\n')) == Step(Token(EOF, "", 2, 1), Lexer(CommentInput, 5, 2, 1, NUL));
  }

  /** A slash, a star, a slash: the star that opens the block comment also closes it, so "x" is the first token. */
  lemma CommentClosesOnOpeningStar()
    ensures Lex(CommentInput) == [Token(Identifier, "x", 2, 1), Token(EOF, "", 2, 1)]
  {
    CommentStep0();
    CommentStep1();
    CommentStep2();
  }

  const StringInput: string := "\"a b\"\n"

  lemma StringScanExample()
    ensures Advance(Lexer(StringInput, 1, 1, 2, '"')) == Lexer(StringInput, 2, 1, 3, 'a')
    ensures AdvanceWhile(Lexer(StringInput, 2, 1, 3, 'a'), IsStringChar) == Lexer(StringInput, 5, 1, 6, '"')
    ensures Advance(Lexer(StringInput, 5, 1, 6, '"')) == Lexer(StringInput, 6, 2, 1, '\n')
  {
    assert Advance(Lexer(StringInput, 2, 1, 3, 'a')) == Lexer(StringInput, 3, 1, 4, ' ');
    assert Advance(Lexer(StringInput, 3, 1, 4, ' ')) == Lexer(StringInput, 4, 1, 5, 'b');
    assert Advance(Lexer(StringInput, 4, 1, 5, 'b')) == Lexer(StringInput, 5, 1, 6, '"');
  }

  lemma StringStep0()
    ensures NewLexer(StringInput) == Lexer(StringInput, 1, 1, 2, '"')
    ensures GetNextToken(Lexer(StringInput, 1, 1, 2, '"'))
      == Step(Token(String, "a b", 2, 1), Lexer(StringInput, 6, 2, 1, '\n'))
  {
    StringScanExample();
    assert StringInput[1..4] == "a b";
  }

  lemma StringStep1()
    ensures Tokenize(Lexer(StringInput, 6, 2, 1, '\n')) == [Token(EOF, "", 2, 1)]
  {
    assert GetNextToken(Lexer(StringInput, 6, 2, 1, '\n')) == Step(Token(EOF, "", 2, 1), Lexer(StringInput, 6, 2, 1, NUL));
  }

  /** A closed string literal: its value is the text between the quotes, spaces included. */
  lemma StringLiteral()
    ensures Lex(StringInput) == [Token(String, "a b", 2, 1), Token(EOF, "", 2, 1)]
  {
    StringStep0();
    StringStep1();
  }

  /**
    "ab" with no trailing newline: the run reaches the end of input, where
    advance leaves position unchanged, so the slice drops the last character.
  */
  lemma EndOfInputDropsLastCharacter()
    ensures Lex("ab") == [Token(Identifier, "a", 1, 3), Token(EOF, "", 1, 3)]
  {
    var s := "ab";
    assert NewLexer(s) == Lexer(s, 1, 1, 2, 'a');
    assert AdvanceWhile(Lexer(s, 1, 1, 2, 'a'), IsWordChar) == Lexer(s, 2, 1, 3, NUL);
    assert GetNextToken(Lexer(s, 1, 1, 2, 'a')) == Step(Token(Identifier, "a", 1, 3), Lexer(s, 2, 1, 3, NUL));
  }
}
