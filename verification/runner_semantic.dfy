/**
  The semantic analyser of runner/src/python_parser/semantic_analyzer.py: the
  reader of read_tokens_from_file, which takes the first two fields of the
  "Type: X, Value: v, Line: n, Column: c" lines the runner lexer writes, and
  analyze, which declares a name after an int or float keyword and checks
  every other identifier against symbol_table.

  Printing becomes a list of events. handle_number, which tries float(), is
  reduced to the event it always prints first; the file handling of main is
  not part of this model.
*/
module RunnerSemantic {
  import opened Wrappers
  import opened Chars
  import opened PyStr
  import opened TokenLines
  import RunnerLexer
  import Decimal
  import Semantic

  datatype TokenType = Keyword | Identifier | Number | Operator | EOF | Separator

  function TypeName(t: TokenType): string {
    match t
    case Keyword => "KEYWORD"
    case Identifier => "IDENTIFIER"
    case Number => "NUMBER"
    case Operator => "OPERATOR"
    case EOF => "EOF"
    case Separator => "SEPARATOR"
  }

  /** TokenType[name]: the Enum member with that name. */
  function TypeNamed(name: string): (r: Option<TokenType>)
    ensures r.Some? ==> TypeName(r.value) == name
    ensures (exists t: TokenType :: TypeName(t) == name) ==> r.Some?
  {
    if name == "KEYWORD" then Some(Keyword)
    else if name == "IDENTIFIER" then Some(Identifier)
    else if name == "NUMBER" then Some(Number)
    else if name == "OPERATOR" then Some(Operator)
    else if name == "EOF" then Some(EOF)
    else if name == "SEPARATOR" then Some(Separator)
    else None
  }

  datatype Token = Token(kind: TokenType, value: string)

  /**
    Why a line is dropped: fewer than two fields or a field without ": "
    (malformed), or an upper-cased type that is no TokenType (KeyError, which
    reports that name).
  */
  datatype ReadError = Malformed | InvalidType(name: string)

  /**
    One line of read_tokens_from_file: at least two fields, and both are read
    before the type is looked up, so a field without ": " makes the line
    malformed even when the type is unknown.
  */
  function ReadLine(line: string): (r: Result<Token, ReadError>)
    ensures r.Ok? ==> |Split(Strip(line), ", ")| >= 2
    ensures |Split(Strip(line), ", ")| < 2 ==> r == Err(Malformed)
    ensures r.Ok? ==> Some(r.value.value) == Field(Split(Strip(line), ", ")[1])
    ensures r.Ok? ==> var name := Field(Split(Strip(line), ", ")[0]);
      name.Some? && TypeNamed(Upper(name.value)) == Some(r.value.kind)
    ensures var parts := Split(Strip(line), ", ");
      |parts| >= 2 && (Field(parts[0]).None? || Field(parts[1]).None?) ==> r == Err(Malformed)
    ensures var parts := Split(Strip(line), ", ");
      |parts| >= 2 && Field(parts[0]).Some? && Field(parts[1]).Some? && TypeNamed(Upper(Field(parts[0]).value)).None?
      ==> r == Err(InvalidType(Upper(Field(parts[0]).value)))
  {
    var parts := Split(Strip(line), ", ");
    if |parts| < 2 then Err(Malformed)
    else
      match Field(parts[0])
      case None => Err(Malformed)
      case Some(name) =>
        match Field(parts[1])
        case None => Err(Malformed)
        case Some(value) =>
          match TypeNamed(Upper(name))
          case None => Err(InvalidType(Upper(name)))
          case Some(kind) => Ok(Token(kind, value))
  }

  /** The tokens read from the lines, in order, and the errors reported for the lines dropped. */
  datatype Reading = Reading(tokens: seq<Token>, errors: seq<ReadError>)

  function ReadTokens(lines: seq<string>): (r: Reading)
    ensures |r.tokens| + |r.errors| == |lines|
    decreases |lines|
  {
    if lines == [] then Reading([], [])
    else
      var rest := ReadTokens(lines[1..]);
      match ReadLine(lines[0])
      case Ok(t) => Reading([t] + rest.tokens, rest.errors)
      case Err(e) => Reading(rest.tokens, [e] + rest.errors)
  }

  /** A line whose first two fields name a type and a value reads as that token. */
  lemma ReadFields(line: string, stripped: string, name: string, value: string)
    requires Strip(line) == stripped
    requires var parts := Split(stripped, ", ");
      |parts| >= 2 && Field(parts[0]) == Some(name) && Field(parts[1]) == Some(value)
    ensures ReadLine(line) == match TypeNamed(Upper(name))
      case Some(kind) => Ok(Token(kind, value))
      case None => Err(InvalidType(Upper(name)))
  {
  }

  // ---------------------------------------------------------------------------
  // Round trip with the lexer of runner/src/go_lexer/main.go

  /** The Python TokenType of the same name, for the six kinds the Enum has. */
  function FromRunner(t: RunnerLexer.TokenType): (r: Option<TokenType>)
    ensures r.Some? ==> TypeName(r.value) == RunnerLexer.TypeName(t)
    ensures r.None? <==> t in {RunnerLexer.Float, RunnerLexer.String, RunnerLexer.BoolOperator, RunnerLexer.Unknown}
  {
    match t
    case Keyword => Some(Keyword)
    case Identifier => Some(Identifier)
    case Number => Some(Number)
    case Operator => Some(Operator)
    case EOF => Some(EOF)
    case Separator => Some(Separator)
    case _ => None
  }

  lemma TypeNamePlain(t: RunnerLexer.TokenType)
    ensures var n := RunnerLexer.TypeName(t);
      Free(n, ',') && Free(n, ':') && Plain(n) && UpperCase(n)
  {
    assert UpperWord(RunnerLexer.TypeName(t));
    UpperWordPlain(RunnerLexer.TypeName(t));
  }

  /** The type name written for a runner token is looked up as itself. */
  lemma ReadRunnerType(t: RunnerLexer.TokenType)
    ensures TypeNamed(RunnerLexer.TypeName(t)) == FromRunner(t)
  {
  }

  /** The line of runner/src/go_lexer/main.go as two "name: text" fields and the rest. */
  lemma RunnerLineShape(t: RunnerLexer.Token)
    requires t.line >= 0 && t.column >= 0
    ensures RunnerLexer.FormatLine(t)
      == ("Type" + ": " + RunnerLexer.TypeName(t.kind)) + ", " + ("Value" + ": " + t.value) + Position(t)
  {
    assert "Type: " == "Type" + ": ";
    assert ", Value: " == ", " + ("Value" + ": ");
  }

  /** The fields after the value: ", Line: n, Column: c". */
  function Position(t: RunnerLexer.Token): (s: string)
    requires t.line >= 0 && t.column >= 0
    ensures |s| >= 2 && s[..2] == ", "
    ensures s != [] && IsDigit(s[|s| - 1])
  {
    var c := Decimal.NatToString(t.column);
    var s := ", Line: " + Decimal.NatToString(t.line) + ", Column: " + c;
    assert s[|s| - 1] == c[|c| - 1];
    s
  }

  /** readlines() keeps the newline main writes; strip() removes it and nothing else. */
  lemma RunnerLineStrip(t: RunnerLexer.Token)
    requires t.line >= 0 && t.column >= 0
    ensures Strip(RunnerLexer.FormatLine(t) + "\n") == RunnerLexer.FormatLine(t)
  {
    var line := RunnerLexer.FormatLine(t);
    RunnerLineShape(t);
    var p := Position(t);
    assert line[|line| - 1] == p[|p| - 1];
    assert line[0] == 'T';
    StripLine(line);
  }

  /** The first two fields of the line give back the type name and the value. */
  lemma RunnerLineFields(t: RunnerLexer.Token)
    requires t.line >= 0 && t.column >= 0 && Plain(t.value)
    ensures var parts := Split(RunnerLexer.FormatLine(t), ", ");
      && |parts| >= 2
      && Field(parts[0]) == Some(RunnerLexer.TypeName(t.kind))
      && Field(parts[1]) == Some(t.value)
      && |parts| >= 3
  {
    RunnerLineShape(t);
    TypeNamePlain(t.kind);
    TwoFields("Type", RunnerLexer.TypeName(t.kind), "Value", t.value, Position(t));
  }

  /**
    A line the runner lexer writes for a token with a plain value and no line
    break reads back as the token of the same type and value when the Enum
    has that type; a FLOAT, STRING, BOOL_OPERATOR or UNKNOWN line is dropped
    with a KeyError.
  */
  lemma ReadRunnerLine(t: RunnerLexer.Token)
    requires t.line >= 0 && t.column >= 0 && Plain(t.value) && OneLine(t.value)
    ensures var r := ReadLine(RunnerLexer.FormatLine(t) + "\n");
      match FromRunner(t.kind)
      case Some(kind) => r == Ok(Token(kind, t.value))
      case None => r == Err(InvalidType(RunnerLexer.TypeName(t.kind)))
  {
    var name := RunnerLexer.TypeName(t.kind);
    RunnerLineStrip(t);
    RunnerLineFields(t);
    TypeNamePlain(t.kind);
    UpperKeeps(name);
    ReadFields(RunnerLexer.FormatLine(t) + "\n", RunnerLexer.FormatLine(t), name, t.value);
    ReadRunnerType(t.kind);
  }

  /**
    The SEPARATOR "," that the runner lexer writes for a comma holds a ',' but
    no ", ", so its line reads back too.
  */
  lemma CommaSeparatorReadsBack(t: RunnerLexer.Token)
    requires t.kind == RunnerLexer.Separator && t.value == "," && t.line >= 0 && t.column >= 0
    ensures ReadLine(RunnerLexer.FormatLine(t) + "\n") == Ok(Token(Separator, ","))
  {
    ReadRunnerLine(t);
  }

  /** Whatever the value, the line splits at ", " into at least three parts: it has four fields. */
  lemma RunnerLineParts(t: RunnerLexer.Token)
    requires t.line >= 0 && t.column >= 0
    ensures |Split(RunnerLexer.FormatLine(t), ", ")| >= 3
  {
    RunnerLineShape(t);
    var name := RunnerLexer.TypeName(t.kind);
    TypeNamePlain(t.kind);
    FieldNoSeparator("Type", name);
    var v := "Value" + ": " + t.value;
    assert RunnerLexer.FormatLine(t) == ("Type" + ": " + name) + ", " + (v + Position(t));
    SplitAtLeastThree("Type" + ": " + name, v, Position(t));
  }

  /**
    The runner lexer writes four fields, so whatever the value the line has
    more than the two the reader of python_parser/semantic_analyzer.py accepts.
  */
  lemma RunnerLineLong(t: RunnerLexer.Token)
    requires t.line >= 0 && t.column >= 0
    ensures |Split(Strip(RunnerLexer.FormatLine(t) + "\n"), ", ")| >= 3
  {
    RunnerLineStrip(t);
    RunnerLineParts(t);
  }

  /**
    The reader of python_parser/semantic_analyzer.py, which demands exactly
    two fields, drops every one-line token line the runner lexer writes as
    malformed.
  */
  lemma OlderReaderRejects(t: RunnerLexer.Token)
    requires t.line >= 0 && t.column >= 0 && OneLine(t.value)
    ensures Semantic.ReadLine(RunnerLexer.FormatLine(t) + "\n") == Err(Semantic.Malformed)
  {
    RunnerLineLong(t);
  }

  // ---------------------------------------------------------------------------
  // analyze

  /** What analyze prints, one event per message. */
  datatype Event =
    | Declared(name: string, typ: string)
    | Used(name: string)
    | Undeclared(name: string)
    | OperatorSeen(value: string)
    | NumberSeen(value: string)

  datatype State = State(table: map<string, string>, events: seq<Event>)

  /** The keywords that declare the identifier after them. */
  predicate IsDeclKeyword(t: Token) {
    t.kind == Keyword && (t.value == "int" || t.value == "float")
  }

  /**
    declare_variable: "float" and "int" overwrite the entry; any other type
    leaves the table alone, and the message that reads the entry back raises
    KeyError (None) when the name has none.
  */
  function DeclareVariable(table: map<string, string>, name: string, value: string): (r: Option<map<string, string>>)
    ensures value == "int" || value == "float" ==> r == Some(table[name := value])
    ensures value != "int" && value != "float" ==> (r.Some? <==> name in table) && (r.Some? ==> r.value == table)
  {
    if value == "float" then Some(table[name := "float"])
    else if value == "int" then Some(table[name := "int"])
    else if name in table then Some(table)
    else None
  }

  /** handle_identifier: a use, reported as undeclared exactly when the name has no entry; the table is untouched. */
  function HandleIdentifier(st: State, name: string): (r: State)
    ensures r.table == st.table
    ensures name in st.table ==> r.events == st.events + [Used(name)]
    ensures name !in st.table ==> r.events == st.events + [Used(name), Undeclared(name)]
  {
    if name in st.table then State(st.table, st.events + [Used(name)])
    else State(st.table, st.events + [Used(name), Undeclared(name)])
  }

  /** The body of analyze's loop from index i on. */
  function Scan(ts: seq<Token>, i: nat, st: State): State
    requires i <= |ts|
    decreases |ts| - i
  {
    if i == |ts| then st
    else
      var t := ts[i];
      if IsDeclKeyword(t) then
        if i + 1 < |ts| && ts[i + 1].kind == Identifier then
          var name := ts[i + 1].value;
          var table := DeclareVariable(st.table, name, t.value).value;
          Scan(ts, i + 2, State(table, st.events + [Declared(name, t.value)]))
        else Scan(ts, i + 1, st)
      else if t.kind == Identifier then Scan(ts, i + 1, HandleIdentifier(st, t.value))
      else if t.kind == Operator then Scan(ts, i + 1, State(st.table, st.events + [OperatorSeen(t.value)]))
      else if t.kind == Number then Scan(ts, i + 1, State(st.table, st.events + [NumberSeen(t.value)]))
      else Scan(ts, i + 1, st)
  }

  function Analyze(ts: seq<Token>): State {
    Scan(ts, 0, State(map[], []))
  }

  /** An int or float keyword at i followed by an identifier declares it, and the identifier is not visited as a use. */
  lemma DeclarationConsumes(ts: seq<Token>, i: nat, st: State)
    requires i + 1 < |ts| && IsDeclKeyword(ts[i]) && ts[i + 1].kind == Identifier
    ensures var name := ts[i + 1].value;
      Scan(ts, i, st) == Scan(ts, i + 2, State(st.table[name := ts[i].value], st.events + [Declared(name, ts[i].value)]))
  {
  }

  /** An int or float keyword not followed by an identifier declares nothing. */
  lemma BareKeyword(ts: seq<Token>, i: nat, st: State)
    requires i < |ts| && IsDeclKeyword(ts[i]) && !(i + 1 < |ts| && ts[i + 1].kind == Identifier)
    ensures Scan(ts, i, st) == Scan(ts, i + 1, st)
  {
  }

  // ---------------------------------------------------------------------------
  // The symbol table analyze builds

  /** A declaring pair starts at p: an int or float keyword, then an identifier. */
  predicate DeclAt(ts: seq<Token>, p: int) {
    0 <= p && p + 1 < |ts| && IsDeclKeyword(ts[p]) && ts[p + 1].kind == Identifier
  }

  /** The declarations of every pair starting at i or later, applied in order, each overwriting the last. */
  function Decls(ts: seq<Token>, i: nat, table: map<string, string>): map<string, string>
    decreases |ts| - i
  {
    if i + 1 >= |ts| then table
    else Decls(ts, i + 1, if DeclAt(ts, i) then table[ts[i + 1].value := ts[i].value] else table)
  }

  /** The scan's table is the declarations of the pairs it reaches: skipping an identifier never skips a pair. */
  lemma {:induction false} ScanTable(ts: seq<Token>, i: nat, st: State)
    requires i <= |ts|
    ensures Scan(ts, i, st).table == Decls(ts, i, st.table)
    decreases |ts| - i
  {
    if i < |ts| {
      var t := ts[i];
      if IsDeclKeyword(t) && i + 1 < |ts| && ts[i + 1].kind == Identifier {
        var name := ts[i + 1].value;
        var st1 := State(st.table[name := t.value], st.events + [Declared(name, t.value)]);
        ScanTable(ts, i + 2, st1);
        assert !DeclAt(ts, i + 1);
        assert Decls(ts, i, st.table) == Decls(ts, i + 1, st1.table);
      } else if IsDeclKeyword(t) {
        ScanTable(ts, i + 1, st);
      } else if t.kind == Identifier {
        ScanTable(ts, i + 1, HandleIdentifier(st, t.value));
      } else if t.kind == Operator {
        ScanTable(ts, i + 1, State(st.table, st.events + [OperatorSeen(t.value)]));
      } else if t.kind == Number {
        ScanTable(ts, i + 1, State(st.table, st.events + [NumberSeen(t.value)]));
      } else {
        ScanTable(ts, i + 1, st);
      }
    }
  }

  /** Every entry is "int" or "float". */
  predicate Typed(table: map<string, string>) {
    forall k | k in table :: table[k] == "int" || table[k] == "float"
  }

  /**
    A name has an entry after the pairs from i on exactly when it had one
    before or some pair from i on declares it; entries stay typed.
  */
  lemma {:induction false} DeclsKeys(ts: seq<Token>, i: nat, table: map<string, string>)
    ensures forall k :: k in Decls(ts, i, table) <==>
      k in table || exists p | i <= p :: DeclAt(ts, p) && ts[p + 1].value == k
    ensures Typed(table) ==> Typed(Decls(ts, i, table))
    decreases |ts| - i
  {
    if i + 1 < |ts| {
      var next := if DeclAt(ts, i) then table[ts[i + 1].value := ts[i].value] else table;
      DeclsKeys(ts, i + 1, next);
      forall k
        ensures k in Decls(ts, i, table) <==> k in table || exists p | i <= p :: DeclAt(ts, p) && ts[p + 1].value == k
      {
        if k in Decls(ts, i, table) && k !in table {
          if k in next {
            assert DeclAt(ts, i) && ts[i + 1].value == k;
          }
        }
      }
    } else {
      forall p: int | i <= p
        ensures !DeclAt(ts, p)
      {
      }
    }
  }

  /**
    After analyze, a name has an entry exactly when an int or float keyword
    directly before it declares it somewhere in the token list, and every
    entry is "int" or "float".
  */
  lemma AnalyzeTable(ts: seq<Token>)
    ensures forall k :: k in Analyze(ts).table <==> exists p :: DeclAt(ts, p) && ts[p + 1].value == k
    ensures Typed(Analyze(ts).table)
  {
    ScanTable(ts, 0, State(map[], []));
    DeclsKeys(ts, 0, map[]);
  }

  /** A later declaration of the same name wins: the entry is the type of the last pair that declares it. */
  lemma {:induction false} DeclsLast(ts: seq<Token>, i: nat, table: map<string, string>, p: nat)
    requires i <= p && DeclAt(ts, p)
    requires forall q | p < q :: !(DeclAt(ts, q) && ts[q + 1].value == ts[p + 1].value)
    ensures ts[p + 1].value in Decls(ts, i, table) && Decls(ts, i, table)[ts[p + 1].value] == ts[p].value
    decreases |ts| - i
  {
    var next := if DeclAt(ts, i) then table[ts[i + 1].value := ts[i].value] else table;
    if i < p {
      DeclsLast(ts, i + 1, next, p);
    } else {
      DeclsUntouched(ts, i + 1, next, ts[p + 1].value);
    }
  }

  /** Pairs that do not declare name leave its entry as it was. */
  lemma {:induction false} DeclsUntouched(ts: seq<Token>, i: nat, table: map<string, string>, name: string)
    requires forall q | i <= q :: !(DeclAt(ts, q) && ts[q + 1].value == name)
    requires name in table
    ensures name in Decls(ts, i, table) && Decls(ts, i, table)[name] == table[name]
    decreases |ts| - i
  {
    if i + 1 < |ts| {
      var next := if DeclAt(ts, i) then table[ts[i + 1].value := ts[i].value] else table;
      DeclsUntouched(ts, i + 1, next, name);
    }
  }

  /** Redeclaring overwrites: after analyze a name has the type of the last int or float keyword that declared it. */
  lemma AnalyzeLastDeclaration(ts: seq<Token>, p: nat)
    requires DeclAt(ts, p)
    requires forall q | p < q :: !(DeclAt(ts, q) && ts[q + 1].value == ts[p + 1].value)
    ensures ts[p + 1].value in Analyze(ts).table && Analyze(ts).table[ts[p + 1].value] == ts[p].value
  {
    ScanTable(ts, 0, State(map[], []));
    DeclsLast(ts, 0, map[], p);
  }

  // ---------------------------------------------------------------------------
  // The checks analyze never calls

  /** The Python value handed to check_assignment: a float, a str, or anything else (an int, say). */
  datatype Value = FloatValue | StrValue | OtherValue

  datatype AssignError = NotDeclared | FloatIntoInt | StrInto(typ: string)

  /** check_assignment: None when it prints nothing. */
  function CheckAssignment(table: map<string, string>, name: string, value: Value): (r: Option<AssignError>)
    ensures name !in table <==> r == Some(NotDeclared)
    ensures r == Some(FloatIntoInt) <==> name in table && value == FloatValue && table[name] == "int"
    ensures r.Some? && r.value.StrInto? <==> name in table && value == StrValue && table[name] != "string"
  {
    if name !in table then Some(NotDeclared)
    else if value == FloatValue && table[name] == "int" then Some(FloatIntoInt)
    else if value == StrValue && table[name] != "string" then Some(StrInto(table[name]))
    else None
  }

  /** check_operator_compatibility: true when it reports the operation valid. */
  function OperatorCompatible(table: map<string, string>, left: string, right: string, operator: string): (ok: bool)
    ensures ok <==>
      || (left in table && right in table && table[left] == "float" && table[right] == "float")
      || (left in table && right in table && table[left] == "string" && table[right] == "string" && operator == "+")
  {
    var lt := if left in table then Some(table[left]) else None;
    var rt := if right in table then Some(table[right]) else None;
    (lt == Some("float") && rt == Some("float"))
    || (lt == Some("string") && rt == Some("string") && operator == "+")
  }

  /**
    On a table analyze built, where every entry is "int" or "float", an
    operation is valid exactly between two floats, and a str can never be
    assigned.
  */
  lemma ChecksOnTyped(table: map<string, string>, left: string, right: string, operator: string, name: string)
    requires Typed(table)
    ensures OperatorCompatible(table, left, right, operator) <==>
      left in table && right in table && table[left] == "float" && table[right] == "float"
    ensures CheckAssignment(table, name, StrValue).Some?
    ensures CheckAssignment(table, name, OtherValue).None? <==> name in table
  {
  }
}
