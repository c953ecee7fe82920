/** The cases of lexical/lexer_test.go, and two consequences of `position--` in handleNumber. */
module LexicalLexerExamples {
  import opened Chars
  import opened Cursor
  import opened LexicalLexer

  lemma KeywordsStep0Scan(s: string)
    requires s == "if else "
    ensures HandleIdentifier(Cursor(s, 1, 'i')) == Step(Token(Keyword, "if"), Cursor(s, 3, ' '))
  {
    RunEndUnique(s, 1, 2, IsWordChar);
    IdentifierLexeme(Cursor(s, 1, 'i'));
    assert s[0..2] == "if";
  }

  lemma KeywordsStep0(s: string)
    requires s == "if else "
    ensures GetNextToken(Cursor(s, 1, 'i')) == Step(Token(Keyword, "if"), Cursor(s, 3, ' '))
  {
    KeywordsStep0Scan(s);
  }

  lemma KeywordsStep1Scan(s: string)
    requires s == "if else "
    ensures HandleIdentifier(Cursor(s, 4, 'e')) == Step(Token(Keyword, "else"), Cursor(s, 8, ' '))
  {
    RunEndUnique(s, 4, 7, IsWordChar);
    IdentifierLexeme(Cursor(s, 4, 'e'));
    assert s[3..7] == "else";
  }

  lemma KeywordsStep1(s: string)
    requires s == "if else "
    ensures GetNextToken(Cursor(s, 3, ' ')) == Step(Token(Keyword, "else"), Cursor(s, 8, ' '))
  {
    KeywordsStep1Scan(s);
  }

  lemma KeywordsStep2(s: string)
    requires s == "if else "
    ensures GetNextToken(Cursor(s, 8, ' ')) == Step(Token(EOF, ""), Cursor(s, 8, NUL))
  {
  }

  /** Test "Keywords". */
  lemma KeywordsCase()
    ensures Lex("if else ") == [Token(Keyword, "if"), Token(Keyword, "else"), Token(EOF, "")]
  {
    KeywordsStep0("if else ");
    KeywordsStep1("if else ");
    KeywordsStep2("if else ");
  }

  lemma IdentifiersAndNumbersStep0Scan(s: string)
    requires s == "var1 123 "
    ensures HandleIdentifier(Cursor(s, 1, 'v')) == Step(Token(Identifier, "var1"), Cursor(s, 5, ' '))
  {
    RunEndUnique(s, 1, 4, IsWordChar);
    IdentifierLexeme(Cursor(s, 1, 'v'));
    assert s[0..4] == "var1";
  }

  lemma IdentifiersAndNumbersStep0(s: string)
    requires s == "var1 123 "
    ensures GetNextToken(Cursor(s, 1, 'v')) == Step(Token(Identifier, "var1"), Cursor(s, 5, ' '))
  {
    IdentifiersAndNumbersStep0Scan(s);
  }

  lemma IdentifiersAndNumbersStep1(s: string)
    requires s == "var1 123 "
    ensures GetNextToken(Cursor(s, 5, ' ')) == Step(Token(Number, "123"), Cursor(s, 8, ' '))
  {
    assert Advance(Cursor(s, 5, ' ')) == Cursor(s, 6, '1');
    RunEndUnique(s, 5, 8, IsDigit);
    NumberLexeme(Cursor(s, 6, '1'));
    assert s[5..8] == "123";
  }

  lemma IdentifiersAndNumbersStep2(s: string)
    requires s == "var1 123 "
    ensures GetNextToken(Cursor(s, 8, ' ')) == Step(Token(EOF, ""), Cursor(s, 9, NUL))
  {
  }

  /** Test "Identifiers and Numbers". */
  lemma IdentifiersAndNumbersCase()
    ensures Lex("var1 123 ") == [Token(Identifier, "var1"), Token(Number, "123"), Token(EOF, "")]
  {
    IdentifiersAndNumbersStep0("var1 123 ");
    IdentifiersAndNumbersStep1("var1 123 ");
    IdentifiersAndNumbersStep2("var1 123 ");
  }

  lemma OperatorsSteps(s: string)
    requires s == "+ * - /"
    ensures GetNextToken(Cursor(s, 1, '+')) == Step(Token(Operator, "+"), Cursor(s, 2, ' '))
    ensures GetNextToken(Cursor(s, 2, ' ')) == Step(Token(Operator, "*"), Cursor(s, 4, ' '))
    ensures GetNextToken(Cursor(s, 4, ' ')) == Step(Token(Operator, "-"), Cursor(s, 6, ' '))
  {
  }

  lemma OperatorsTail(s: string)
    requires s == "+ * - /"
    ensures GetNextToken(Cursor(s, 6, ' ')) == Step(Token(Operator, "/"), Cursor(s, 7, NUL))
    ensures GetNextToken(Cursor(s, 7, NUL)) == Step(Token(EOF, ""), Cursor(s, 7, NUL))
  {
  }

  /** Test "Operators". */
  lemma OperatorsCase()
    ensures Lex("+ * - /") == [
      Token(Operator, "+"), Token(Operator, "*"), Token(Operator, "-"), Token(Operator, "/"), Token(EOF, "")]
  {
    OperatorsSteps("+ * - /");
    OperatorsTail("+ * - /");
  }

  /** Test "Empty Input". */
  lemma EmptyInputCase()
    ensures Lex("") == [Token(EOF, "")]
  {
  }

  lemma OperatorAfterNumberStep0(s: string)
    requires s == "1+2 "
    ensures GetNextToken(Cursor(s, 1, '1')) == Step(Token(Number, "1"), Cursor(s, 1, '+'))
  {
    RunEndUnique(s, 1, 1, IsDigit);
    RunEndUnique(s, 0, 1, IsDigit);
    NumberLexeme(Cursor(s, 1, '1'));
    assert s[0..1] == "1";
  }

  /** The pending '+' is loaded again by the next advance and read as an operator. */
  lemma OperatorAfterNumberStep1(s: string)
    requires s == "1+2 "
    ensures GetNextToken(Cursor(s, 1, '+')) == Step(Token(Operator, "+"), Cursor(s, 2, '+'))
  {
  }

  lemma OperatorAfterNumberStep2(s: string)
    requires s == "1+2 "
    ensures GetNextToken(Cursor(s, 2, '+')) == Step(Token(Operator, "+"), Cursor(s, 3, '2'))
  {
  }

  lemma OperatorAfterNumberStep3(s: string)
    requires s == "1+2 "
    ensures GetNextToken(Cursor(s, 3, '2')) == Step(Token(Number, "2"), Cursor(s, 3, ' '))
  {
    RunEndUnique(s, 2, 3, IsDigit);
    NumberLexeme(Cursor(s, 3, '2'));
  }

  lemma OperatorAfterNumberStep4(s: string)
    requires s == "1+2 "
    ensures GetNextToken(Cursor(s, 3, ' ')) == Step(Token(EOF, ""), Cursor(s, 4, NUL))
  {
  }

  /** The operator that ends a number is read twice. */
  lemma OperatorAfterNumberTwice()
    ensures Lex("1+2 ") == [
      Token(Number, "1"), Token(Operator, "+"), Token(Operator, "+"), Token(Number, "2"), Token(EOF, "")]
  {
    OperatorAfterNumberStep0("1+2 ");
    OperatorAfterNumberStep1("1+2 ");
    OperatorAfterNumberStep2("1+2 ");
    OperatorAfterNumberStep3("1+2 ");
    OperatorAfterNumberStep4("1+2 ");
  }

  lemma IdentifierAfterNumberStep0(s: string)
    requires s == "12ab "
    ensures GetNextToken(Cursor(s, 1, '1')) == Step(Token(Number, "12"), Cursor(s, 2, 'a'))
  {
    RunEndUnique(s, 2, 2, IsDigit);
    RunEndUnique(s, 1, 2, IsDigit);
    RunEndUnique(s, 0, 2, IsDigit);
    NumberLexeme(Cursor(s, 1, '1'));
    assert s[0..2] == "12";
  }

  lemma IdentifierAfterNumberStep1Scan(s: string)
    requires s == "12ab "
    ensures HandleIdentifier(Cursor(s, 2, 'a')) == Step(Token(Identifier, "2ab"), Cursor(s, 5, ' '))
    ensures GetNextToken(Cursor(s, 5, ' ')) == Step(Token(EOF, ""), Cursor(s, 5, NUL))
  {
    RunEndUnique(s, 2, 4, IsWordChar);
    IdentifierLexeme(Cursor(s, 2, 'a'));
    assert s[1..4] == "2ab";
  }

  lemma IdentifierAfterNumberStep1(s: string)
    requires s == "12ab "
    ensures GetNextToken(Cursor(s, 2, 'a')) == Step(Token(Identifier, "2ab"), Cursor(s, 5, ' '))
  {
    IdentifierAfterNumberStep1Scan(s);
  }

  /** A letter that ends a number starts an identifier that takes the number's last digit. */
  lemma IdentifierAfterNumber()
    ensures Lex("12ab ") == [Token(Number, "12"), Token(Identifier, "2ab"), Token(EOF, "")]
  {
    IdentifierAfterNumberStep0("12ab ");
    IdentifierAfterNumberStep1("12ab ");
  }
}
