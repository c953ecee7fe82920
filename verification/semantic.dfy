/**
  The semantic analyser of python_parser/semantic_analyzer.py: the reader of
  read_tokens_from_file, which turns "Type: X, Value: v" lines back into
  tokens, and analyze, which records every identifier in symbol_table the
  first time it appears and warns on every later appearance.

  Printing becomes a list of events. handle_number, which tries float(), and
  the file handling of main are not part of this model.
*/
module Semantic {
  import opened Wrappers
  import opened Chars
  import opened PyStr
  import opened TokenLines
  import GoLexer

  datatype TokenType = Keyword | Identifier | Number | Operator | EOF

  /** TokenType[name]: the Enum member with that name. */
  function TypeNamed(name: string): (r: Option<TokenType>)
    ensures r.Some? ==> TypeName(r.value) == name
    ensures (exists t: TokenType :: TypeName(t) == name) ==> r.Some?
  {
    if name == "KEYWORD" then Some(Keyword)
    else if name == "IDENTIFIER" then Some(Identifier)
    else if name == "NUMBER" then Some(Number)
    else if name == "OPERATOR" then Some(Operator)
    else if name == "EOF" then Some(EOF)
    else None
  }

  function TypeName(t: TokenType): string {
    match t
    case Keyword => "KEYWORD"
    case Identifier => "IDENTIFIER"
    case Number => "NUMBER"
    case Operator => "OPERATOR"
    case EOF => "EOF"
  }

  datatype Token = Token(kind: TokenType, value: string)

  /**
    Why a line is dropped: a wrong number of fields or a field without ": "
    (reported as malformed), or a type that is no TokenType (KeyError, which
    reports the whole first field).
  */
  datatype ReadError = Malformed | InvalidType(field: string)

  /**
    One line of read_tokens_from_file: exactly two fields, and the type is
    looked up before the value field is read, so an unknown type is reported
    even when the value field is malformed.
  */
  function ReadLine(line: string): (r: Result<Token, ReadError>)
    ensures r.Ok? ==> |Split(Strip(line), ", ")| == 2
    ensures r.Ok? ==> Some(r.value.value) == Field(Split(Strip(line), ", ")[1])
    ensures r.Ok? ==> var name := Field(Split(Strip(line), ", ")[0]);
      name.Some? && TypeNamed(Upper(name.value)) == Some(r.value.kind)
    ensures |Split(Strip(line), ", ")| != 2 ==> r == Err(Malformed)
    ensures var parts := Split(Strip(line), ", ");
      |parts| == 2 && Field(parts[0]).Some? && TypeNamed(Upper(Field(parts[0]).value)).None?
      ==> r == Err(InvalidType(parts[0]))
    ensures var parts := Split(Strip(line), ", ");
      |parts| == 2
      && (Field(parts[0]).None? || (TypeNamed(Upper(Field(parts[0]).value)).Some? && Field(parts[1]).None?))
      ==> r == Err(Malformed)
  {
    var parts := Split(Strip(line), ", ");
    if |parts| != 2 then Err(Malformed)
    else
      match Field(parts[0])
      case None => Err(Malformed)
      case Some(name) =>
        match TypeNamed(Upper(name))
        case None => Err(InvalidType(parts[0]))
        case Some(kind) =>
          match Field(parts[1])
          case None => Err(Malformed)
          case Some(value) => Ok(Token(kind, value))
  }

  /** The tokens read from the lines, in order, and the errors reported for the lines dropped. */
  datatype Reading = Reading(tokens: seq<Token>, errors: seq<ReadError>)

  /** read_tokens_from_file once the file is open: every line yields a token or an error. */
  function ReadTokens(lines: seq<string>): (r: Reading)
    ensures |r.tokens| + |r.errors| == |lines|
    decreases |lines|
  {
    if lines == [] then Reading([], [])
    else
      var rest := ReadTokens(lines[1..]);
      match ReadLine(lines[0])
      case Ok(t) => Reading([t] + rest.tokens, rest.errors)
      case Err(e) => Reading(rest.tokens, [e] + rest.errors)
  }

  /** A line that reads as a token puts that token in front of the ones read from the lines after it. */
  lemma ReadTokensCons(line: string, lines: seq<string>, t: Token)
    requires ReadLine(line) == Ok(t)
    ensures ReadTokens([line] + lines) == Reading([t] + ReadTokens(lines).tokens, ReadTokens(lines).errors)
  {
    assert ([line] + lines)[0] == line && ([line] + lines)[1..] == lines;
  }

  // ---------------------------------------------------------------------------
  // Round trip with the lexer of go_lexer/main.go

  /** The Python TokenType for each Go token type: the same name. */
  function FromGo(t: GoLexer.TokenType): (r: TokenType)
    ensures TypeName(r) == GoLexer.TypeName(t)
  {
    match t
    case Keyword => Keyword
    case Identifier => Identifier
    case Number => Number
    case Operator => Operator
    case EOF => EOF
  }

  /** The lines main of go_lexer/main.go writes, each with its newline. */
  function GoLines(ts: seq<GoLexer.Token>): (lines: seq<string>)
    ensures |lines| == |ts|
    decreases |ts|
  {
    if ts == [] then [] else [GoLexer.FormatLine(ts[0]) + "\n"] + GoLines(ts[1..])
  }

  /**
    A Go token value that survives the round trip: plain, and not empty, since
    the value ends the line and strip() would eat the space before an empty one.
  */
  predicate Readable(v: string) {
    v != [] && Plain(v) && OneLine(v)
  }

  lemma SafeReadable(v: string)
    requires GoLexer.SafeValue(v)
    ensures Readable(v)
  {
    FreeNotContains(v, ", ");
    FreeNotContains(v, ": ");
  }

  lemma TypeNamePlain(t: GoLexer.TokenType)
    ensures Free(GoLexer.TypeName(t), ',') && Free(GoLexer.TypeName(t), ':')
    ensures Plain(GoLexer.TypeName(t)) && UpperCase(GoLexer.TypeName(t))
  {
    assert UpperWord(GoLexer.TypeName(t));
    UpperWordPlain(GoLexer.TypeName(t));
  }

  /**
    A line whose two fields name a type and a value reads as that token when
    the upper-cased name is a TokenType, and is reported by its whole first
    field otherwise.
  */
  lemma ReadFields(line: string, stripped: string, name: string, value: string)
    requires Strip(line) == stripped
    requires var parts := Split(stripped, ", ");
      |parts| == 2 && Field(parts[0]) == Some(name) && Field(parts[1]) == Some(value)
    ensures ReadLine(line) == match TypeNamed(Upper(name))
      case Some(kind) => Ok(Token(kind, value))
      case None => Err(InvalidType(Split(stripped, ", ")[0]))
  {
  }

  /** The type written for a Go token reads back as the Python type of the same name. */
  lemma ReadGoType(t: GoLexer.TokenType)
    ensures TypeNamed(Upper(GoLexer.TypeName(t))) == Some(FromGo(t))
  {
    UpperKeeps(GoLexer.TypeName(t));
  }

  /** The line of go_lexer/main.go as two "name: text" fields. */
  lemma GoLineShape(n: string, v: string)
    ensures "Type: " + n + ", Value: " + v == ("Type" + ": " + n) + ", " + ("Value" + ": " + v) + []
  {
    assert "Type: " == "Type" + ": ";
    assert ", Value: " == ", " + ("Value" + ": ");
  }

  /** A line for a token with a non-empty value starts with 'T' and ends with the value's last character. */
  lemma GoLineEnds(t: GoLexer.Token)
    requires t.value != []
    ensures var line := GoLexer.FormatLine(t);
      line != [] && line[0] == 'T' && line[|line| - 1] == t.value[|t.value| - 1]
  {
  }

  /** readlines() keeps the newline main writes; strip() removes it and nothing else. */
  lemma GoLineStrip(t: GoLexer.Token)
    requires Readable(t.value)
    ensures Strip(GoLexer.FormatLine(t) + "\n") == GoLexer.FormatLine(t)
  {
    GoLineEnds(t);
    StripLine(GoLexer.FormatLine(t));
  }

  /** The line splits into a type field and a value field that give back the type name and the value. */
  lemma GoLineFields(t: GoLexer.Token)
    requires Readable(t.value)
    ensures var parts := Split(GoLexer.FormatLine(t), ", ");
      && |parts| == 2
      && Field(parts[0]) == Some(GoLexer.TypeName(t.kind))
      && Field(parts[1]) == Some(t.value)
  {
    var name := GoLexer.TypeName(t.kind);
    var fields := ("Type" + ": " + name) + ", " + ("Value" + ": " + t.value) + [];
    assert GoLexer.FormatLine(t) == fields by {
      GoLineShape(name, t.value);
    }
    TypeNamePlain(t.kind);
    TwoFields("Type", name, "Value", t.value, []);
  }

  /**
    A line written for a Go token with a plain value reads back as the token
    of the same type and value.
  */
  lemma ReadGoLine(t: GoLexer.Token)
    requires Readable(t.value)
    ensures ReadLine(GoLexer.FormatLine(t) + "\n") == Ok(Token(FromGo(t.kind), t.value))
  {
    GoLineStrip(t);
    GoLineFields(t);
    ReadGoType(t.kind);
    ReadFields(GoLexer.FormatLine(t) + "\n", GoLexer.FormatLine(t), GoLexer.TypeName(t.kind), t.value);
  }

  /** The Python tokens that stand for a list of Go tokens: same types by name, same values. */
  function FromGoTokens(ts: seq<GoLexer.Token>): (r: seq<Token>)
    ensures |r| == |ts|
    ensures forall k | 0 <= k < |ts| :: r[k] == Token(FromGo(ts[k].kind), ts[k].value)
    decreases |ts|
  {
    if ts == [] then []
    else
      var rest := FromGoTokens(ts[1..]);
      var r := [Token(FromGo(ts[0].kind), ts[0].value)] + rest;
      assert forall k | 1 <= k < |ts| :: r[k] == rest[k - 1] && ts[k] == ts[1..][k - 1];
      r
  }

  /** Reading back lines written for Go tokens with plain values gives those tokens and no error. */
  lemma {:induction false} ReadGoLines(ts: seq<GoLexer.Token>)
    requires forall k | 0 <= k < |ts| :: Readable(ts[k].value)
    ensures ReadTokens(GoLines(ts)) == Reading(FromGoTokens(ts), [])
    decreases |ts|
  {
    if ts != [] {
      assert GoLines(ts) == [GoLexer.FormatLine(ts[0]) + "\n"] + GoLines(ts[1..]);
      ReadGoLines(ts[1..]);
      ReadGoLine(ts[0]);
      ReadTokensCons(GoLexer.FormatLine(ts[0]) + "\n", GoLines(ts[1..]), Token(FromGo(ts[0].kind), ts[0].value));
    }
  }

  /**
    The whole pipeline: on input that ends every run (main appends a space to
    each line) the tokens.txt the Go lexer writes reads back token for token.
  */
  lemma ReadGoLex(input: string)
    requires GoLexer.EndsRuns(input)
    ensures ReadTokens(GoLines(GoLexer.Lex(input))) == Reading(FromGoTokens(GoLexer.Lex(input)), [])
  {
    var ts := GoLexer.Lex(input);
    GoLexer.TokenizeSafe(GoLexer.NewLexer(input));
    forall k | 0 <= k < |ts|
      ensures Readable(ts[k].value)
    {
      SafeReadable(ts[k].value);
    }
    ReadGoLines(ts);
  }

  // ---------------------------------------------------------------------------
  // analyze

  /** What analyze prints, one event per message. */
  datatype Event = AlreadyDeclared(name: string) | OperatorSeen(value: string)

  datatype State = State(table: map<string, string>, events: seq<Event>)

  /** handle_identifier: the first sighting records the name as 'Declared', later ones warn. */
  function HandleIdentifier(st: State, name: string): (r: State)
    ensures name in st.table ==> r == State(st.table, st.events + [AlreadyDeclared(name)])
    ensures name !in st.table ==> r == State(st.table[name := "Declared"], st.events)
  {
    if name in st.table then State(st.table, st.events + [AlreadyDeclared(name)])
    else State(st.table[name := "Declared"], st.events)
  }

  /** One token of analyze's loop; keywords, numbers and EOF leave the state alone. */
  function Visit(st: State, t: Token): (r: State)
    ensures t.kind != Identifier ==> r.table == st.table
  {
    match t.kind
    case Identifier => HandleIdentifier(st, t.value)
    case Operator => State(st.table, st.events + [OperatorSeen(t.value)])
    case _ => st
  }

  function AnalyzeFrom(st: State, ts: seq<Token>): State
    decreases |ts|
  {
    if ts == [] then st else AnalyzeFrom(Visit(st, ts[0]), ts[1..])
  }

  function Analyze(ts: seq<Token>): State {
    AnalyzeFrom(State(map[], []), ts)
  }

  /** The identifier values of a token list. */
  function Names(ts: seq<Token>): (s: set<string>)
    ensures forall k | 0 <= k < |ts| :: ts[k].kind == Identifier ==> ts[k].value in s
    decreases |ts|
  {
    if ts == [] then {}
    else (if ts[0].kind == Identifier then {ts[0].value} else {}) + Names(ts[1..])
  }

  /** The number of identifier tokens. */
  function Occurrences(ts: seq<Token>): nat
    decreases |ts|
  {
    if ts == [] then 0 else (if ts[0].kind == Identifier then 1 else 0) + Occurrences(ts[1..])
  }

  function Warnings(es: seq<Event>): nat
    decreases |es|
  {
    if es == [] then 0 else (if es[0].AlreadyDeclared? then 1 else 0) + Warnings(es[1..])
  }

  lemma {:induction false} WarningsAppend(a: seq<Event>, b: seq<Event>)
    ensures Warnings(a + b) == Warnings(a) + Warnings(b)
    decreases |a|
  {
    if a == [] {
      assert a + b == b;
    } else {
      assert (a + b)[1..] == a[1..] + b;
      WarningsAppend(a[1..], b);
    }
  }

  /** Every value analyze puts in symbol_table is 'Declared'. */
  predicate AllDeclared(table: map<string, string>) {
    forall k | k in table :: table[k] == "Declared"
  }

  /** The identifier contributed by one token: its value if it is an identifier. */
  function NameOf(t: Token): set<string> {
    if t.kind == Identifier then {t.value} else {}
  }

  /** One token either adds its identifier to the keys or warns about it; nothing else changes either count. */
  lemma VisitFacts(st: State, t: Token)
    ensures var r := Visit(st, t);
      && r.table.Keys == st.table.Keys + NameOf(t)
      && (AllDeclared(st.table) ==> AllDeclared(r.table))
      && |r.table.Keys| + Warnings(r.events) == |st.table.Keys| + Warnings(st.events) + (if t.kind == Identifier then 1 else 0)
  {
    var r := Visit(st, t);
    if t.kind == Identifier {
      if t.value in st.table {
        WarningsAppend(st.events, [AlreadyDeclared(t.value)]);
        assert Warnings([AlreadyDeclared(t.value)]) == 1;
      } else {
        assert r.table.Keys == st.table.Keys + {t.value};
      }
    } else if t.kind == Operator {
      WarningsAppend(st.events, [OperatorSeen(t.value)]);
      assert Warnings([OperatorSeen(t.value)]) == 0;
    }
  }

  /** The keys after analyze are the keys before plus every identifier seen, all mapped to 'Declared'. */
  lemma {:induction false} AnalyzeFromKeys(st: State, ts: seq<Token>)
    ensures var r := AnalyzeFrom(st, ts);
      && r.table.Keys == st.table.Keys + Names(ts)
      && (AllDeclared(st.table) ==> AllDeclared(r.table))
    decreases |ts|
  {
    if ts != [] {
      VisitFacts(st, ts[0]);
      AnalyzeFromKeys(Visit(st, ts[0]), ts[1..]);
      assert Names(ts) == NameOf(ts[0]) + Names(ts[1..]);
    }
  }

  /** Each identifier either adds a key or warns, so keys plus warnings grow by the number of identifier tokens. */
  lemma {:induction false} AnalyzeFromCount(st: State, ts: seq<Token>)
    ensures var r := AnalyzeFrom(st, ts);
      |r.table.Keys| + Warnings(r.events) == |st.table.Keys| + Warnings(st.events) + Occurrences(ts)
    decreases |ts|
  {
    if ts != [] {
      VisitFacts(st, ts[0]);
      AnalyzeFromCount(Visit(st, ts[0]), ts[1..]);
    }
  }

  /**
    After analyze the keys of symbol_table are exactly the identifier values,
    all mapped to 'Declared', and the "already declared" warnings number the
    identifier occurrences less the distinct identifiers.
  */
  lemma AnalyzeFacts(ts: seq<Token>)
    ensures var r := Analyze(ts);
      && r.table.Keys == Names(ts)
      && AllDeclared(r.table)
      && Warnings(r.events) == Occurrences(ts) - |Names(ts)|
  {
    AnalyzeFromKeys(State(map[], []), ts);
    AnalyzeFromCount(State(map[], []), ts);
  }
}
