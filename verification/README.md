# A Dafny model of the Nisarg2061/Compiler front end

The repository is a toy compiler front end written in Go and Python. This
project models its text-processing core as pure Dafny functions and proves
properties of them:

- **three cursor lexers** in Go:
  - `runner/src/go_lexer/main.go`, with line and column tracking, keywords,
    integer and float literals, strings, comments, separators and an UNKNOWN
    fallback (module `RunnerLexer`);
  - the two older variants `lexical/lexer.go` (`LexicalLexer`) and
    `go_lexer/main.go` (`GoLexer`), which share the `advance` of module
    `Cursor`;
- **the split-then-classify lexer** `lexical/lexar/lexical.go` (`SplitLexer`);
- **the two three-address-code generators** `3ac/3ac.py` (`Tac`) and
  `runner/src/3ac/3ac.py` (`RunnerTac`), on top of the shared operator-precedence
  machine `Shunting`;
- **the two semantic analysers** `python_parser/semantic_analyzer.py`
  (`Semantic`) and `runner/src/python_parser/semantic_analyzer.py`
  (`RunnerSemantic`), including the readers that parse the lexers'
  `Type: X, Value: v` lines.

Helper modules:

- `Chars` holds the character classes and `RunEnd`, the reference definition
  of a maximal run.
- `PyStr` models the Python `split`, `strip`, `upper` and `startswith` the
  generators and readers rely on.
- `TokenLines` holds the field reader shared by both analysers.
- `Decimal` holds the decimal rendering of `%d` and `f"{n}"`.
- `Wrappers` holds `Option` and `Result`.

Files whose name ends in `_examples` prove concrete runs by evaluation.

## Design notes

- The lexers are modelled as written, with no precondition that the input
  ends in a newline or a space. `advance` leaves `position` unchanged at end
  of input, so the slice `input[start : position-1]` drops the last character
  of a token that reaches the end of input. The lexeme lemmas state both cases
  and `RunnerLexerExamples.EndOfInputDropsLastCharacter` shows one.
- The `position--` after a number in the older lexers leaves the character
  that ended the number pending, so the next `advance` loads it again.
  `Cursor.Valid` covers this pending state, and
  `LexicalLexerExamples.OperatorAfterNumberTwice` shows that `"1+2 "` yields
  `+` twice.
- Go's `unicode.IsLetter` and `unicode.IsSpace` are exact on the Latin-1
  range. A Go string indexed by byte never yields a rune above 0xFF.
- A malformed expression makes the Python generators pop an empty list, which
  raises IndexError. Here that is the error value `IndexError`, not a
  precondition. `Shunting.ConvertWellFormed` proves that a well-formed
  expression never raises it. `main` catches only ValueError, so `Run` ends
  with `Err(IndexError)`.
- `apply_operator` is split into two halves:
  - the stack half, `Shunting.ApplyOperator`, pops the stacks and logs the
    quadruple it makes;
  - the table half, `Tac.FileLog` and `RunnerTac.FileLog`, files the logged
    quadruples in order.

  The tables are never read while one expression is converted, so the split
  does not change behaviour.
- Printing becomes a list of events.

## Model

| member | source | states |
|---|---|---|
| Chars.RunEndRun | runner/src/go_lexer/main.go:78-80 | every character from i up to RunEnd satisfies the class, so the run a scanning loop consumes is a run of that class |
| Chars.RunEndUnique | runner/src/go_lexer/main.go:78-80 | RunEnd is the only index that ends a run of the class started at i and is followed by a character outside it or by the end of input: the maximal run |
| Cursor.NewCursor | lexical/lexer.go:28-32 | the primed lexer holds the first character at position 1, or NUL at position 0 on empty input |
| Cursor.Advance | lexical/lexer.go:34-41 | while input remains, it loads input[position] and moves position by exactly one; at the end it sets NUL and leaves position unchanged, and the remaining input shrinks whenever a character was current |
| Cursor.AdvanceWhile | lexical/lexer.go:53-55 | a scanning loop stops on the first character outside the class, at RunEnd of the input from the lookahead, with position one past it, or with NUL at the end |
| GoLexer.NewLexer | go_lexer/main.go:32-45 | the primed lexer satisfies the cursor invariant over the given input |
| GoLexer.HandleIdentifier | go_lexer/main.go:55-74 | the token is KEYWORD exactly when its value is "if" or "else", and IDENTIFIER otherwise; input is consumed |
| GoLexer.IdentifierLexeme | go_lexer/main.go:55-60 | when a character follows the run, the value is the maximal letter-or-digit run from the lookahead, and the lexer stops just past it |
| GoLexer.HandleNumber | go_lexer/main.go:105-114 | a number token is NUMBER and consumes input despite the position-- |
| GoLexer.NumberLexeme | go_lexer/main.go:105-114 | when a character follows, the value is the maximal digit run from the lookahead, and the character that ended it is left pending at position, to be loaded again |
| GoLexer.GetNextToken | go_lexer/main.go:77-102 | EOF carries the value ";" and is returned only once the current character is NUL; an operator token is one character among = + * - /; any other token consumes input |
| GoLexer.IdentifierDispatch | go_lexer/main.go:84-86 | a letter at the lookahead is read by handleIdentifier: the call returns exactly its token and state |
| GoLexer.NumberDispatch | go_lexer/main.go:88-90 | a digit at the lookahead is read by handleNumber: the call returns exactly its token and state |
| GoLexer.OperatorToken | go_lexer/main.go:92-96 | each of = + * - / at the lookahead is returned as a one-character OPERATOR token, and only that character is consumed |
| GoLexer.SpaceSkipped | go_lexer/main.go:79-82 | white space at the lookahead produces no token: the call returns what it returns from the next character |
| GoLexer.OtherSkipped | go_lexer/main.go:98 | a character that is not white space, a letter, a digit or an operator is skipped and produces no token |
| GoLexer.EOFIsTerminal | go_lexer/main.go:77-101 | once EOF is returned, every further call returns EOF ";" from the same state |
| GoLexer.Tokenize | go_lexer/main.go:77-102 | the token stream ends with exactly one EOF ";" and has no earlier EOF |
| GoLexer.TokenizeSafe | go_lexer/main.go:55-114 | on input ending with a non-alphanumeric character, as main produces, every token value is non-empty and made of letters, digits, operators and ';' |
| LexicalLexer.NewLexer | lexical/lexer.go:28-32 | the primed lexer satisfies the cursor invariant over the given input |
| LexicalLexer.HandleIdentifier | lexical/lexer.go:51-70 | the token is KEYWORD exactly when its value is "if" or "else", and IDENTIFIER otherwise |
| LexicalLexer.IdentifierLexeme | lexical/lexer.go:51-56 | when a character follows the run, the value is the maximal letter-or-digit run from the lookahead |
| LexicalLexer.NumberLoopIsDigitRun | lexical/lexer.go:103-108 | the extra break on white space in the digit loop never changes where the loop stops: it is the plain digit run |
| LexicalLexer.HandleNumber | lexical/lexer.go:101-113 | a number token is NUMBER and consumes input |
| LexicalLexer.NumberLexeme | lexical/lexer.go:101-113 | when a character follows, the value is the maximal digit run from the lookahead, and the character after it is left pending |
| LexicalLexer.GetNextToken | lexical/lexer.go:73-98 | EOF carries the empty value and is returned only at NUL; only + * - / yield OPERATOR tokens; any other token consumes input |
| LexicalLexer.IdentifierDispatch | lexical/lexer.go:80-82 | a letter at the lookahead is read by handleIdentifier: the call returns exactly its token and state |
| LexicalLexer.NumberDispatch | lexical/lexer.go:84-86 | a digit at the lookahead is read by handleNumber: the call returns exactly its token and state |
| LexicalLexer.OperatorToken | lexical/lexer.go:88-92 | each of + * - / at the lookahead is returned as a one-character OPERATOR token, and only that character is consumed |
| LexicalLexer.SpaceSkipped | lexical/lexer.go:75-78 | white space at the lookahead produces no token: the call returns what it returns from the next character |
| LexicalLexer.OtherSkipped | lexical/lexer.go:94 | a character that is not white space, a letter, a digit or one of + * - / is skipped with no token |
| LexicalLexer.EqualsSkipped | lexical/lexer.go:88-94 | '=' is not an operator in this lexer: it is skipped with no token |
| LexicalLexer.EOFIsTerminal | lexical/lexer.go:73-97 | once EOF is returned, every further call returns EOF "" again |
| LexicalLexer.Tokenize | lexical/lexer.go:73-98 | the token stream ends with exactly one EOF "" and has no earlier EOF |
| LexicalLexerExamples.KeywordsCase | lexical/lexer_test.go:32-40 | "if else " lexes to KEYWORD if, KEYWORD else, EOF "" |
| LexicalLexerExamples.IdentifiersAndNumbersCase | lexical/lexer_test.go:41-49 | "var1 123 " lexes to IDENTIFIER var1, NUMBER 123, EOF "" |
| LexicalLexerExamples.OperatorsCase | lexical/lexer_test.go:50-60 | "+ * - /" lexes to the four operators in order, then EOF "" |
| LexicalLexerExamples.EmptyInputCase | lexical/lexer_test.go:61-67 | the empty input lexes to EOF "" alone |
| LexicalLexerExamples.OperatorAfterNumberTwice | lexical/lexer.go:109-110 | "1+2 " yields '+' twice, because the position-- reloads the character that ended the number |
| LexicalLexerExamples.IdentifierAfterNumber | lexical/lexer.go:51-56 | after "12", an identifier read from the pending 'a' of "12ab " also takes the digit before it: NUMBER 12, then IDENTIFIER 2ab |
| RunnerLexer.LineColumnSpec | runner/src/go_lexer/main.go:41-58 | the line is one more than the number of newlines consumed, and the column counts the characters since the last of them, starting at 1 |
| RunnerLexer.NewLexer | runner/src/go_lexer/main.go:41-45 | the primed lexer is positioned at line 1, column 1 on empty input, and otherwise holds the first character at position 1 |
| RunnerLexer.Advance | runner/src/go_lexer/main.go:47-59 | while input remains, it loads input[position] and moves position by exactly one, keeping line and column those of the consumed prefix; at the end it sets NUL and changes nothing else |
| RunnerLexer.Peek | runner/src/go_lexer/main.go:61-66 | peekChar returns the character the next advance would load, or NUL at the end, without changing the lexer |
| RunnerLexer.AdvanceWhile | runner/src/go_lexer/main.go:78-80 | a scanning loop stops at RunEnd of the class from position, one past it or at NUL on end of input, and consumes input whenever the lookahead is in the class |
| RunnerLexer.HandleIdentifier | runner/src/go_lexer/main.go:76-96 | the token is KEYWORD exactly when its value is one of if, else, for, func, int, float, string, and IDENTIFIER otherwise; it carries the lexer's line and column after the scan |
| RunnerLexer.IdentifierLexeme | runner/src/go_lexer/main.go:76-81 | the value is the maximal run of letters, digits and '_' from the lookahead; when the run reaches the end of input it loses its last character |
| RunnerLexer.NumberLoopPhases | runner/src/go_lexer/main.go:102-107 | the single number loop is a digit run, then, if a '.' follows, that '.' and a second digit run |
| RunnerLexer.HandleNumber | runner/src/go_lexer/main.go:98-114 | the token is NUMBER or FLOAT, consumes input and carries the position after the scan |
| RunnerLexer.NumberLexeme | runner/src/go_lexer/main.go:98-114 | the token is FLOAT exactly when a '.' follows the first digit run, even with no digit after it; the value spans both runs and a second '.' ends it; at end of input the last character is lost |
| RunnerLexer.HandleString | runner/src/go_lexer/main.go:116-128 | a string token is STRING and consumes input |
| RunnerLexer.StringLexeme | runner/src/go_lexer/main.go:116-128 | for a closed literal, the value is exactly the characters between the quotes, with no escapes, and both quotes are consumed |
| RunnerLexer.UnterminatedString | runner/src/go_lexer/main.go:120-125 | an unclosed literal runs to the end of input and loses its last character to the slice |
| RunnerLexer.SkipLineComment | runner/src/go_lexer/main.go:130-134 | a line comment is skipped up to the next newline, not past it, or to the end of input |
| RunnerLexer.BlockCommentEnd | runner/src/go_lexer/main.go:136-145 | a block comment ends just after the first "*" "/" pair at or after the lookahead, at a NUL byte before it, or at end of input: comments do not nest |
| RunnerLexer.SymbolToken | runner/src/go_lexer/main.go:176-184 | a symbol becomes a one-character token, SEPARATOR exactly for ; , ( ) { } and OPERATOR exactly for + - * / = < > |
| RunnerLexer.SymbolPartition | runner/src/go_lexer/main.go:177-180 | the separators and the operators are disjoint, and the separators are exactly ; , ( ) { } |
| RunnerLexer.SymbolDispatch | runner/src/go_lexer/main.go:154-184 | a symbol that does not open a comment is returned as its one-character token, and only that character is consumed |
| RunnerLexer.SlashIsOperator | runner/src/go_lexer/main.go:154-162 | a '/' not followed by '/' or '*' is the division operator |
| RunnerLexer.LineCommentElided | runner/src/go_lexer/main.go:154-157 | "//" emits no token: the next token is the one read from the newline that ends the comment |
| RunnerLexer.BlockCommentElided | runner/src/go_lexer/main.go:158-160 | a block comment emits no token: the next token is the one read after the comment |
| RunnerLexer.UnknownToken | runner/src/go_lexer/main.go:186-189 | an unrecognised character is consumed and reported as UNKNOWN, with the character after it as the value |
| RunnerLexer.GetNextToken | runner/src/go_lexer/main.go:147-193 | EOF has the empty value and leaves NUL current; at NUL the call returns EOF with the current position and changes nothing; every other token consumes input |
| RunnerLexer.SpaceSkipped | runner/src/go_lexer/main.go:148-152 | white space at the lookahead produces no token: the call returns what it returns from the next character |
| RunnerLexer.IdentifierDispatch | runner/src/go_lexer/main.go:164-166 | a letter or '_' at the lookahead is read by handleIdentifier: the call returns exactly its token and state |
| RunnerLexer.NumberDispatch | runner/src/go_lexer/main.go:168-170 | a digit at the lookahead is read by handleNumber: the call returns exactly its token and state |
| RunnerLexer.StringDispatch | runner/src/go_lexer/main.go:172-174 | a double quote at the lookahead is read by handleString: the call returns exactly its token and state |
| RunnerLexer.EOFIsTerminal | runner/src/go_lexer/main.go:148-192 | once EOF is returned, every further call returns the same EOF from the same state |
| RunnerLexer.Tokenize | runner/src/go_lexer/main.go:221-227 | the stream main writes ends with exactly one EOF token and has no earlier EOF |
| RunnerLexer.BlankLex | runner/src/go_lexer/main.go:147-153 | input made only of white space lexes to EOF alone, positioned after all of it |
| RunnerLexerExamples.FloatThenUnknown | runner/src/go_lexer/main.go:186-189 | "1.2.3\n" lexes to FLOAT 1.2, UNKNOWN 3, NUMBER 3, EOF: the second '.' is reported with the character after it, which is then lexed again |
| RunnerLexerExamples.KeywordThenIdentifier | runner/src/go_lexer/main.go:92-95 | "if x\n" lexes to KEYWORD if, IDENTIFIER x, EOF; the identifier's position is read after the newline that ends it |
| RunnerLexerExamples.CommentClosesOnOpeningStar | runner/src/go_lexer/main.go:136-145 | in "/*/x\n" the star that opens the comment also closes it, so x is the first token |
| RunnerLexerExamples.StringLiteral | runner/src/go_lexer/main.go:116-128 | a quoted "a b" lexes to STRING with the text between the quotes, spaces included |
| RunnerLexerExamples.EndOfInputDropsLastCharacter | runner/src/go_lexer/main.go:81 | "ab" with no trailing newline lexes to IDENTIFIER "a": the slice loses the last character |
| SplitLexer.RemoveSpace | lexical/lexar/lexical.go:40-46 | the reference text: the input without its white-space characters |
| SplitLexer.Flush | lexical/lexar/lexical.go:41-44 | a pending token is appended only when it is non-empty, keeping every token well separated and the concatenation growing by the pending text |
| SplitLexer.EmitDelimiter | lexical/lexar/lexical.go:49-58 | a delimiter is emitted alone, after the pending token, and extends the concatenation by itself |
| SplitLexer.Feed | lexical/lexar/lexical.go:39-63 | one character of separateTokens keeps the emitted tokens well separated and adds the character to the text unless it is white space |
| SplitLexer.SeparateTokens | lexical/lexar/lexical.go:34-69 | the tokens are exactly the reference cutting Pieces: white space separates, each delimiter stands alone, and each maximal run of other characters is one token; so every token is non-empty and free of white space, and they concatenate to the input without white space |
| SplitLexer.IsConstant | lexical/lexar/lexical.go:99-106 | true exactly when every character is a digit, so true on the empty string |
| SplitLexer.Classify | lexical/lexar/lexical.go:78-90 | each token gets exactly one category, first match winning: keyword, then constant, then ';', then operator, otherwise identifier |
| SplitLexer.File | lexical/lexar/lexical.go:79-89 | each token is appended to exactly one of the five lists |
| SplitLexer.LexicalAnalysis | lexical/lexar/lexical.go:71-90 | each list holds exactly the tokens of its category, in input order, and the lists together hold every token once |
| SplitLexer.NotEqualUnreachable | lexical/lexar/lexical.go:85 | no token separateTokens emits is "!=", so that operator case never fires |
| SplitLexer.BangIsIdentifier | lexical/lexar/lexical.go:85-89 | a lone '!' passes no test and is filed as an identifier |
| SplitLexer.ConstantsAreDigits | lexical/lexar/lexical.go:81-82 | a constant separateTokens emits is a non-empty run of digits |
| PyStr.Split | 3ac/3ac.py:47 | split yields at least one part, and the string itself alone exactly when the separator is absent |
| PyStr.SplitJoin | 3ac/3ac.py:47 | the parts split yields join back with the separator to the string, and none of them contains the separator |
| PyStr.JoinSplit | python_parser/semantic_analyzer.py:68 | for a two-character separator such as ", " or ": ", parts that do not contain it are given back by splitting their join |
| PyStr.SplitCharCount | 3ac/3ac.py:47 | splitting at a character gives one more part than there are occurrences of it, so the two-way unpacking works exactly with one '=' |
| PyStr.Strip | 3ac/3ac.py:48-49 | the stripped text is a slice of the input with only Python white space before and after it, and it starts and ends with a non-white-space character |
| Decimal.ParseNatToString | 3ac/3ac.py:15 | the decimal rendering of a number reads back as that number |
| Shunting.Sides | 3ac/3ac.py:47-49 | the split raises ValueError exactly when the line does not hold exactly one '=' |
| Shunting.SidesOf | 3ac/3ac.py:47-49 | a line with one '=' yields the stripped text on either side of it |
| Shunting.Precedence | 3ac/3ac.py:17-23 | precedence is 2 exactly for * and /, 1 exactly for + and -, and 0 for everything else, '(' included |
| Shunting.NewTemp | 3ac/3ac.py:12-15 | new_temp raises temp_count by exactly one and returns a name different from the previous one |
| Shunting.TempInjective | 3ac/3ac.py:12-15 | different counts give different temporaries, so temporaries never repeat |
| Shunting.ExprTokens | 3ac/3ac.py:51 | every token the scan yields is a run of ASCII letters and digits or a single character of ( ) + - * / |
| Shunting.ExprTokensOperand | 3ac/3ac.py:51 | a run of letters and digits not followed by another is one token |
| Shunting.ExprTokensKeep | 3ac/3ac.py:51 | the tokens, put back together, are the expression without the characters the pattern skips |
| Shunting.ApplyOperator | 3ac/3ac.py:25-42 | pops one operator and two values, right then left, pushes a fresh temporary and logs (op, left, right, temporary); with too few entries it raises IndexError |
| Shunting.ReduceToParen | 3ac/3ac.py:61-62 | the loop on ')' stops at an empty operator stack or at a '(' on top |
| Shunting.ReduceForOperator | 3ac/3ac.py:66-68 | after the loop for an incoming operator, the top is '(' or binds less tightly than the incoming operator, or the stack is empty |
| Shunting.ReduceAll | 3ac/3ac.py:72-73 | the final loop empties the operator stack |
| Shunting.ShiftAllAppend | 3ac/3ac.py:55-69 | running the token loop over two lists in turn is running it over their concatenation |
| Shunting.Convert | 3ac/3ac.py:55-76 | a successful conversion numbers its temporaries count+1, count+2, ... in the order they were made, and temp_count ends at count plus their number |
| Shunting.Expressions | 3ac/3ac.py:115-120 | main keeps the stripped non-empty lines, each already stripped, in order |
| Shunting.ShiftAllShape | 3ac/3ac.py:55-69 | on a well-formed prefix the stacks keep their shape: only '(' and binary operators stacked, one value more than operators after an operand, and nothing raises |
| Shunting.RunWellFormed | 3ac/3ac.py:55-73 | a well-formed expression leaves an empty operator stack, one value and one quadruple per binary operator |
| Shunting.ConvertWellFormed | 3ac/3ac.py:44-76 | a well-formed expression converts without IndexError, with one quadruple per binary operator, and the result is the newest temporary when there is an operator |
| ShuntingExamples.LeftAssociative | 3ac/3ac.py:64-69 | a - b - c gives (-, a, b, T1) then (-, T1, c, T2): equal precedence applies the stacked operator first |
| ShuntingExamples.ProductFirst | 3ac/3ac.py:64-73 | a + b * c emits the product before the sum that uses it |
| ShuntingExamples.UnmatchedParen | 3ac/3ac.py:60-63 | an unmatched ')' pops the empty operator stack and raises IndexError |
| Tac.Init | 3ac/3ac.py:4-10 | a fresh generator has empty, aligned tables and temp_count 0 |
| Tac.Record | 3ac/3ac.py:33-40 | one row is appended to each table in step, and temp_map gets the one entry |
| Tac.FileLog | 3ac/3ac.py:33-40 | filing a log appends its quadruples in order, keeps the tables aligned, and leaves every key no quadruple names as it was |
| Tac.FileLogDescribes | 3ac/3ac.py:40 | with distinct temporaries, temp_map describes each one as "left op right" |
| Tac.Assign | 3ac/3ac.py:76-84 | the assignment appends ('=', result, '', var) and sets temp_map[var] = result |
| Tac.Emit | 3ac/3ac.py:51-84 | a successful conversion only appends rows, keeps the tables aligned and never lowers temp_count; the only error is IndexError |
| Tac.ToTac | 3ac/3ac.py:44-84 | ValueError is raised exactly when the line lacks exactly one '=', and then nothing changes; success keeps the tables aligned |
| Tac.ToTacLine | 3ac/3ac.py:47-51 | a line lhs = rhs with one '=' emits the tokens of the stripped rhs into the stripped lhs |
| Tac.ConvertDistinct | 3ac/3ac.py:12-15 | one conversion never hands out the same temporary twice |
| Tac.EmitWellFormed | 3ac/3ac.py:44-84 | for a well-formed expression with n binary operators, n + 1 quadruples are appended, the last being ('=', result, '', var) with the newest temporary as result when n > 0, and temp_count grows by n |
| Tac.EmitNumbers | 3ac/3ac.py:30-33 | the operator rows one call appends carry T(c+1), T(c+2), ... in order |
| Tac.EmitTarget | 3ac/3ac.py:76-84 | after a successful to_3ac, the last row assigns to var, and temp_map sends var to that row's value |
| Tac.EmitDescribes | 3ac/3ac.py:40 | after a successful to_3ac, every temporary it made is described in temp_map, unless var is named like one |
| Tac.Run | 3ac/3ac.py:123-127 | main's loop skips lines that raise ValueError, stops with IndexError, and otherwise keeps the tables aligned and only grows them |
| Tac.RunSkipsMalformed | 3ac/3ac.py:123-127 | lines without exactly one '=' leave the generator as it was |
| TacExamples.ProductLine | 3ac/3ac.py:44-84 | x=a+b*c on a fresh generator gives the rows (*, b, c, T1), (+, a, T1, T2), (=, T2, "", x), temp_count 2 and temp_map {T1: "b * c", T2: "a + T1", x: T2} |
| RunnerTac.Init | runner/src/3ac/3ac.py:4-10 | a fresh generator satisfies the invariant: aligned tables and an empty temp_indices |
| RunnerTac.Record | runner/src/3ac/3ac.py:35-51 | one row is appended to each table in step, and the temporary goes to temp_indices |
| RunnerTac.FileLog | runner/src/3ac/3ac.py:35-51 | filing a log appends its quadruples in order and its temporaries to temp_indices, keeping the tables aligned |
| RunnerTac.Assign | runner/src/3ac/3ac.py:86-99 | the assignment appends ('=', result, '', var) without touching temp_indices and sets temp_map[var] = result |
| RunnerTac.Emit | runner/src/3ac/3ac.py:63-99 | a successful conversion only appends rows, keeps the tables aligned and never lowers temp_count; the only error is IndexError |
| RunnerTac.ToTac | runner/src/3ac/3ac.py:53-99 | ValueError is raised exactly when the line lacks exactly one '='; success keeps the tables aligned and only grows them |
| RunnerTac.ToTacLine | runner/src/3ac/3ac.py:55-63 | a right-hand side starting with int, float or string leaves the generator unchanged; any other is emitted into the stripped lhs |
| RunnerTac.EmitListed | runner/src/3ac/3ac.py:12-15 | through a successful to_3ac, temp_indices keeps listing T1 ... T(temp_count) in creation order |
| RunnerTac.ToTacValid | runner/src/3ac/3ac.py:53-99 | to_3ac keeps the invariant: aligned tables, indirect_triples[i] == i, and temp_indices[k] == T(k+1) with one entry per temporary |
| RunnerTac.EmitWellFormed | runner/src/3ac/3ac.py:53-99 | for a well-formed expression with n binary operators, n + 1 quadruples are appended, the last assigning to var, and temp_count grows by n |
| RunnerTac.Run | runner/src/3ac/3ac.py:141-145 | main's loop skips lines that raise ValueError, stops with IndexError, and otherwise keeps the tables aligned |
| RunnerTac.RunValid | runner/src/3ac/3ac.py:141-145 | main's loop keeps the generator invariant |
| RunnerTac.IndexOf | runner/src/3ac/3ac.py:118-119 | list.index finds the first position holding the value, or reports that there is none |
| RunnerTac.IndirectTemp | runner/src/3ac/3ac.py:118-119 | in a valid generator, temporary T(j) is shown as slot j - 1 in the indirect-triples table, and any other operand by its name |
| TokenLines.Field | python_parser/semantic_analyzer.py:71-72 | field.split(": ")[1].strip() raises IndexError exactly when the field holds no ": ", and otherwise gives trimmed text |
| TokenLines.FieldOf | python_parser/semantic_analyzer.py:71-72 | the field "name: text" gives back text when the name holds no ':', and text holds no ": " and is trimmed |
| TokenLines.TwoFields | runner/src/python_parser/semantic_analyzer.py:116-121 | a line "n1: v1, n2: v2" plus further fields splits so that its first two fields give back v1 and v2, when the values are plain: neither ", " nor ": " inside and no white space at either end |
| Semantic.TypeNamed | python_parser/semantic_analyzer.py:5-10 | the Enum lookup succeeds exactly on the five member names, and returns the member of that name |
| Semantic.ReadLine | python_parser/semantic_analyzer.py:68-79 | a line reads as a token only if it has exactly two fields; its type is the Enum member named by the upper-cased first field's text and its value is the second field's text; any other field count is malformed; an unknown type is reported by the whole first field, since the lookup comes before the value is read; a first field without ": ", or a known type with a value field without ": ", is malformed (the IndexError handler) |
| Semantic.ReadFields | python_parser/semantic_analyzer.py:69-75 | a two-field line whose fields read as a name and a value gives the token of the upper-cased name, or the KeyError report of its first field when the Enum has no such member |
| Semantic.ReadTokens | python_parser/semantic_analyzer.py:66-81 | every line yields a token or a reported error |
| Semantic.ReadGoType | python_parser/semantic_analyzer.py:71 | each type name the Go lexer writes is looked up, after upper(), as the Python member of the same name |
| Semantic.ReadGoLine | python_parser/semantic_analyzer.py:68-73 | a line go_lexer/main.go writes for a token with a plain, non-empty value without a line break reads back as the same type and value |
| Semantic.ReadGoLines | python_parser/semantic_analyzer.py:64-81 | the lines written for Go tokens with plain values read back to those tokens, in order, with no error |
| Semantic.ReadGoLex | python_parser/semantic_analyzer.py:56-81 | the whole pipeline: on input that ends with a non-alphanumeric character, the tokens.txt go_lexer/main.go writes reads back token for token |
| Semantic.HandleIdentifier | python_parser/semantic_analyzer.py:37-42 | the first sighting records the name as 'Declared'; a later one warns and leaves the table unchanged |
| Semantic.Visit | python_parser/semantic_analyzer.py:25-35 | only identifier tokens change the table |
| Semantic.VisitFacts | python_parser/semantic_analyzer.py:25-42 | one token adds its identifier to the keys or warns about it, and keeps every entry 'Declared' |
| Semantic.AnalyzeFacts | python_parser/semantic_analyzer.py:25-42 | after analyze, the keys are exactly the identifier values, all 'Declared', and the warnings number the identifier occurrences minus the distinct identifiers |
| RunnerSemantic.TypeNamed | runner/src/python_parser/semantic_analyzer.py:6-12 | the Enum lookup succeeds exactly on the six member names, and returns the member of that name |
| RunnerSemantic.ReadLine | runner/src/python_parser/semantic_analyzer.py:114-136 | a line needs at least two fields, and fewer are malformed; its type is the Enum member named by the upper-cased first field's text and its value is the second field's text; both fields are read before the lookup, so a field without ": " makes the line malformed even with an unknown type, and an unknown type is reported by its upper-cased name only when both fields read |
| RunnerSemantic.ReadFields | runner/src/python_parser/semantic_analyzer.py:118-131 | a line whose first two fields read as a name and a value gives the token of the upper-cased name, or the KeyError report of that upper-cased name when the Enum has no such member |
| RunnerSemantic.ReadTokens | runner/src/python_parser/semantic_analyzer.py:112-138 | every line yields a token or a reported error |
| RunnerSemantic.FromRunner | runner/src/python_parser/semantic_analyzer.py:6-12 | the runner lexer's kinds have a Python member of the same name, except FLOAT, STRING, BOOL_OPERATOR and UNKNOWN |
| RunnerSemantic.ReadRunnerLine | runner/src/python_parser/semantic_analyzer.py:114-136 | a line runner/src/go_lexer/main.go writes for a plain value (neither ", " nor ": " inside, no white space at either end, no line break) reads back as the same type and value when the Enum has that type, and is dropped with a KeyError otherwise |
| RunnerSemantic.CommaSeparatorReadsBack | runner/src/go_lexer/main.go:177-181 | the SEPARATOR "," line the runner lexer writes for a comma reads back as the separator "," |
| RunnerSemantic.OlderReaderRejects | python_parser/semantic_analyzer.py:68-79 | the two-field reader drops every four-field line the runner lexer writes as malformed, for any value without a line break |
| RunnerSemantic.DeclareVariable | runner/src/python_parser/semantic_analyzer.py:69-75 | int and float overwrite the entry for the name; any other type leaves the table alone and raises KeyError when the name has no entry |
| RunnerSemantic.HandleIdentifier | runner/src/python_parser/semantic_analyzer.py:45-50 | a use is reported as undeclared exactly when the name has no entry, and the table is never modified |
| RunnerSemantic.DeclarationConsumes | runner/src/python_parser/semantic_analyzer.py:31-36 | an int or float keyword followed by an identifier declares it, and the identifier is not visited as a use |
| RunnerSemantic.BareKeyword | runner/src/python_parser/semantic_analyzer.py:33 | an int or float keyword not followed by an identifier declares nothing |
| RunnerSemantic.ScanTable | runner/src/python_parser/semantic_analyzer.py:27-43 | the table analyze builds is the declarations of every keyword-identifier pair, in order: skipping the declared identifier never skips a pair |
| RunnerSemantic.AnalyzeTable | runner/src/python_parser/semantic_analyzer.py:27-43 | after analyze, a name has an entry exactly when some int or float keyword is directly followed by it, and every entry is "int" or "float" |
| RunnerSemantic.AnalyzeLastDeclaration | runner/src/python_parser/semantic_analyzer.py:69-74 | redeclaring overwrites: a name has the type of the last keyword that declared it |
| RunnerSemantic.CheckAssignment | runner/src/python_parser/semantic_analyzer.py:77-89 | it flags an undeclared name, a float into int, and a str into anything but string, and otherwise reports nothing |
| RunnerSemantic.OperatorCompatible | runner/src/python_parser/semantic_analyzer.py:91-102 | an operation is valid exactly between two floats, or between two strings under '+'; int with int and undeclared operands are errors |
| RunnerSemantic.ChecksOnTyped | runner/src/python_parser/semantic_analyzer.py:77-102 | on a table analyze built, an operation is valid exactly between two floats, and assigning a str is always flagged |

## Left out

- File and console I/O. This covers every `main`: reading `sample.txt`,
  `code.txt` and `tokens.txt`, writing `tokens.txt`, and printing. Lines and
  inputs are parameters. Printed messages become event lists or `Result`
  errors.
- The wording of printed messages. Events carry the names and values
  printed, not the text.
- `print_tables` in both generators. The exception is the indirect operand
  of `runner/src/3ac/3ac.py:118-119`, modelled as `RunnerTac.IndirectOperand`.
  Printing only.
- The insertion order of `temp_map`. It is modelled as a map, and the order
  only matters for printing.
- `handle_number` in both analysers. It relies on Python `float()`, which is
  floating point. `RunnerSemantic` keeps only the event it always prints
  first. `Semantic` ignores number tokens, which never change its table.
- `runner/main.go` (an HTTP server that runs the programs as subprocesses)
  and `website/src/script.js` (browser UI). Neither is part of this model.
- `lexical/main.go`, which only drives the lexer. It is not part of this
  model.
- Python's `re` engine. The single pattern the generators use is modelled
  as a hand-written scanner (`Shunting.ExprTokens`).
- Python's `upper()` beyond ASCII. It is modelled on ASCII letters, which
  are all the type names hold.
- Unicode letter and space classes beyond Latin-1. The Go lexers index
  bytes, so they never see a rune above 0xFF.
- `lexical/lexar/lexical.go` ranges over runes and its `unicode.IsDigit`
  accepts non-ASCII decimal digits. `SplitLexer` uses ASCII digits; its
  white space is Go's full `unicode.IsSpace`, so only the digit class is
  narrower than the source's.
- `Tac.Run` and `RunnerTac.Run` return `Err(IndexError)` when an expression
  raises IndexError, without the partly updated tables. main does not catch
  that error, so the program ends before `print_tables` runs; the ValueError
  messages of earlier lines have already been printed, and they are not
  modelled either.
- `GoLexer.IdentifierLexeme`, `LexicalLexer.IdentifierLexeme`,
  `GoLexer.NumberLexeme`, `LexicalLexer.NumberLexeme`: the value is stated
  only when a character follows the run. At end of input the slice drops a
  character, and the runner lexer's lemmas state that case.
- `RunnerSemantic.ReadRunnerLine`, `RunnerSemantic.OlderReaderRejects`,
  `Semantic.ReadGoLine`: the value holds no '\n' or '\r'. A STRING value of
  the runner lexer can hold a newline (a literal over several lines, or an
  unclosed one running to the end of input). main then writes its line over
  several physical lines, and `readlines()` hands the reader each piece
  separately. Splitting the written text into lines is not modelled.
- `RunnerLexer.UnknownToken`: values are modelled character for character,
  with each input byte read as the character of the same code. Go slices
  identifiers, numbers and strings as raw bytes, but writes an UNKNOWN value
  with `string(rune)`, which encodes a byte of 0x80 or more as two UTF-8
  bytes. The model does not tell the two encodings apart.
- `Semantic.ReadGoLex`: the round trip is stated over characters, taking the
  bytes go_lexer writes as the characters Python reads. Python decodes
  tokens.txt as UTF-8, so the two agree only on ASCII input. A byte of 0x80
  or more either decodes together with its neighbours or raises
  UnicodeDecodeError.
- `RunnerSemantic.DeclareVariable`: the KeyError branch cannot be reached
  from analyze, which passes only "int" or "float". It is modelled, but no
  analyze lemma uses it.
