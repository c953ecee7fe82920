/**
  The split-then-classify lexer of lexical/lexar/lexical.go: separateTokens
  cuts the source at white space and around single-character delimiters, and
  lexicalAnalysis sorts the pieces into five categories. The source ranges over
  the runes of the string; here each element of the string is one rune.
*/
module SplitLexer {
  import opened Chars

  /** The delimiters of separateTokens, each emitted as a token of its own. */
  const Delimiters: set<char> := {'=', '*', '+', '-', '/', '>', '<', '!', ';'}

  /** The tokens, concatenated in order. */
  function Concat(ts: seq<string>): string
    decreases |ts|
  {
    if ts == [] then [] else Concat(ts[..|ts| - 1]) + ts[|ts| - 1]
  }

  /** s without its white space. */
  function RemoveSpace(s: string): (r: string)
    ensures |r| <= |s|
    ensures forall k | 0 <= k < |r| :: !IsSpace(r[k])
    decreases |s|
  {
    if s == [] then []
    else RemoveSpace(s[..|s| - 1]) + (if IsSpace(s[|s| - 1]) then [] else [s[|s| - 1]])
  }

  predicate NoSpace(t: string) {
    forall k | 0 <= k < |t| :: !IsSpace(t[k])
  }

  predicate NoDelimiter(t: string) {
    forall k | 0 <= k < |t| :: t[k] !in Delimiters
  }

  /** A token separateTokens can emit: one delimiter alone, or a non-empty piece with no delimiter and no white space. */
  predicate WellSeparated(t: string) {
    && t != []
    && NoSpace(t)
    && ((|t| == 1 && t[0] in Delimiters) || NoDelimiter(t))
  }

  lemma ConcatAppend(ts: seq<string>, t: string)
    ensures Concat(ts + [t]) == Concat(ts) + t
  {
    assert (ts + [t])[..|ts|] == ts;
  }

  lemma RemoveSpaceStep(s: string, i: nat)
    requires i < |s|
    ensures RemoveSpace(s[..i + 1]) == RemoveSpace(s[..i]) + (if IsSpace(s[i]) then [] else [s[i]])
  {
    assert s[..i + 1][..i] == s[..i];
  }

  predicate AllWellSeparated(tokens: seq<string>) {
    forall k | 0 <= k < |tokens| :: WellSeparated(tokens[k])
  }

  /** `if token != "" { tokens = append(tokens, token) }`: emit the pending piece, if any. */
  function Flush(tokens: seq<string>, token: string): (r: seq<string>)
    requires AllWellSeparated(tokens) && NoSpace(token) && NoDelimiter(token)
    ensures AllWellSeparated(r)
    ensures Concat(r) == Concat(tokens) + token
  {
    ConcatAppend(tokens, token);
    if token != [] then tokens + [token] else tokens
  }

  /** Emit a delimiter as a token of its own. */
  function EmitDelimiter(tokens: seq<string>, c: char): (r: seq<string>)
    requires AllWellSeparated(tokens) && c in Delimiters
    ensures AllWellSeparated(r)
    ensures Concat(r) == Concat(tokens) + [c]
  {
    ConcatAppend(tokens, [c]);
    assert !IsSpace(c) && WellSeparated([c]);
    var r := tokens + [[c]];
    assert forall k | 0 <= k < |tokens| :: r[k] == tokens[k];
    r
  }

  /**
    One character of the loop of separateTokens: white space ends the pending
    piece, a delimiter ends it and is emitted alone, anything else extends it.
  */
  function Feed(tokens: seq<string>, token: string, c: char): (r: (seq<string>, string))
    requires AllWellSeparated(tokens) && NoSpace(token) && NoDelimiter(token)
    ensures AllWellSeparated(r.0) && NoSpace(r.1) && NoDelimiter(r.1)
    ensures Concat(r.0) + r.1 == Concat(tokens) + token + (if IsSpace(c) then [] else [c])
  {
    if IsSpace(c) then
      (Flush(tokens, token), [])
    else if c in Delimiters then
      (EmitDelimiter(Flush(tokens, token), c), [])
    else
      (tokens, token + [c])
  }

  // ---------------------------------------------------------------------------
  // The reference cutting

  /** A character that belongs to a multi-character piece: neither white space nor a delimiter. */
  predicate InPiece(c: char) {
    !IsSpace(c) && c !in Delimiters
  }

  /**
    The tokens of s, read left to right: white space separates, a delimiter is
    a token of its own, and a maximal run of other characters is one token.
  */
  function Pieces(s: string): seq<string>
    decreases |s|
  {
    if s == [] then []
    else if IsSpace(s[0]) then Pieces(s[1..])
    else if s[0] in Delimiters then [[s[0]]] + Pieces(s[1..])
    else
      RunEndStep(s, 0, InPiece);
      var j := RunEnd(s, 0, InPiece);
      [s[..j]] + Pieces(s[j..])
  }

  /** A non-empty piece on its own is a single token. */
  lemma PiecesWhole(t: string)
    requires t != [] && NoSpace(t) && NoDelimiter(t)
    ensures Pieces(t) == [t]
  {
    RunEndUnique(t, 0, |t|, InPiece);
    assert t[..|t|] == t;
    assert t[|t|..] == [];
  }

  /** A non-empty piece followed by white space or a delimiter is cut off as one token. */
  lemma PiecesCut(t: string, c: char, rest: string)
    requires t != [] && NoSpace(t) && NoDelimiter(t) && !InPiece(c)
    ensures Pieces(t + ([c] + rest)) == [t] + Pieces([c] + rest)
  {
    var s := t + ([c] + rest);
    assert s[0] == t[0];
    assert forall k | 0 <= k < |t| :: s[k] == t[k];
    assert s[|t|] == c;
    RunEndUnique(s, 0, |t|, InPiece);
    assert s[..|t|] == t;
    assert s[|t|..] == [c] + rest;
  }

  /** White space yields no token; a delimiter yields itself. */
  lemma PiecesFirst(c: char, rest: string)
    requires !InPiece(c)
    ensures Pieces([c] + rest) == if IsSpace(c) then Pieces(rest) else [[c]] + Pieces(rest)
  {
    assert ([c] + rest)[1..] == rest;
  }

  /** FeedPieces at index i of the source. */
  lemma FeedPiecesAt(tokens: seq<string>, token: string, code: string, i: nat)
    requires i < |code| && AllWellSeparated(tokens) && NoSpace(token) && NoDelimiter(token)
    ensures var r := Feed(tokens, token, code[i]);
      r.0 + Pieces(r.1 + code[i + 1..]) == tokens + Pieces(token + code[i..])
  {
    assert code[i..] == [code[i]] + code[i + 1..];
    FeedPieces(tokens, token, code[i], code[i + 1..]);
  }

  /** Emitting the pending piece at the end of input is its reference cutting. */
  lemma FlushPieces(tokens: seq<string>, token: string)
    requires AllWellSeparated(tokens) && NoSpace(token) && NoDelimiter(token)
    ensures Flush(tokens, token) == tokens + Pieces(token)
  {
    if token != [] {
      PiecesWhole(token);
    } else {
      assert tokens + [] == tokens;
    }
  }

  /** One step of the loop keeps "tokens emitted, then the reference cutting of what is left" unchanged. */
  lemma FeedPieces(tokens: seq<string>, token: string, c: char, rest: string)
    requires AllWellSeparated(tokens) && NoSpace(token) && NoDelimiter(token)
    ensures var r := Feed(tokens, token, c);
      r.0 + Pieces(r.1 + rest) == tokens + Pieces(token + ([c] + rest))
  {
    if InPiece(c) {
      assert (token + [c]) + rest == token + ([c] + rest);
    } else {
      assert [] + rest == rest;
      PiecesFirst(c, rest);
      if token != [] {
        PiecesCut(token, c, rest);
      } else {
        assert token + ([c] + rest) == [c] + rest;
      }
    }
  }

  /**
    separateTokens: every token is non-empty and free of white space, each
    delimiter stands alone, the other tokens contain no delimiter, and the
    tokens put back together are the source without its white space. The
    cutting is exactly the reference one of Pieces.
  */
  method SeparateTokens(code: string) returns (tokens: seq<string>)
    ensures forall k | 0 <= k < |tokens| :: WellSeparated(tokens[k])
    ensures Concat(tokens) == RemoveSpace(code)
    ensures tokens == Pieces(code)
  {
    tokens := [];
    var token: string := [];
    var i := 0;
    assert token + code[i..] == code;
    while i < |code|
      invariant 0 <= i <= |code|
      invariant AllWellSeparated(tokens)
      invariant NoSpace(token) && NoDelimiter(token)
      invariant Concat(tokens) + token == RemoveSpace(code[..i])
      invariant tokens + Pieces(token + code[i..]) == Pieces(code)
    {
      RemoveSpaceStep(code, i);
      FeedPiecesAt(tokens, token, code, i);
      var fed := Feed(tokens, token, code[i]);
      tokens, token := fed.0, fed.1;
      i := i + 1;
    }
    assert token + code[i..] == token;
    FlushPieces(tokens, token);
    tokens := Flush(tokens, token);
    assert code[..|code|] == code;
  }

  /** isConstant: every character is a digit, so the empty string is a constant. */
  function IsConstant(t: string): (b: bool)
    ensures b <==> forall k | 0 <= k < |t| :: IsDigit(t[k])
    decreases |t|
  {
    if t == [] then true
    else if !IsDigit(t[0]) then false
    else IsConstant(t[1..])
  }

  datatype Category = Keyword | Identifier | Constant | Delimiter | Operator

  const KeywordSet: set<string> := {"int", "float", "var"}
  const OperatorSet: set<string> := {"+", "-", "=", "!=", ">", "<", "*", "/"}

  /** The if-chain of lexicalAnalysis: the first test a token passes decides its category. */
  function Classify(t: string): (c: Category)
    ensures c == Keyword <==> t in KeywordSet
    ensures c == Constant <==> t !in KeywordSet && IsConstant(t)
    ensures c == Delimiter <==> t == ";"
    ensures c == Operator <==> t in OperatorSet
    ensures c == Identifier <==> t !in KeywordSet && !IsConstant(t) && t != ";" && t !in OperatorSet
  {
    if t in KeywordSet then Keyword
    else if IsConstant(t) then Constant
    else if t == ";" then Delimiter
    else if t in OperatorSet then Operator
    else Identifier
  }

  /** The five lists lexicalAnalysis fills. */
  datatype Tables = Tables(
    keywords: seq<string>, identifiers: seq<string>, constants: seq<string>,
    delimiters: seq<string>, operators: seq<string>)

  /** The tokens of one category, in input order. */
  function OfCategory(tokens: seq<string>, c: Category): (r: seq<string>)
    ensures |r| <= |tokens|
    ensures forall k | 0 <= k < |r| :: Classify(r[k]) == c
    decreases |tokens|
  {
    if tokens == [] then []
    else
      var last := tokens[|tokens| - 1];
      OfCategory(tokens[..|tokens| - 1], c) + (if Classify(last) == c then [last] else [])
  }

  function Size(t: Tables): nat {
    |t.keywords| + |t.identifiers| + |t.constants| + |t.delimiters| + |t.operators|
  }

  /** Append a token to the list of its category; the other lists are unchanged. */
  function File(t: Tables, tok: string): (r: Tables)
    ensures Size(r) == Size(t) + 1
  {
    match Classify(tok)
    case Keyword => t.(keywords := t.keywords + [tok])
    case Constant => t.(constants := t.constants + [tok])
    case Delimiter => t.(delimiters := t.delimiters + [tok])
    case Operator => t.(operators := t.operators + [tok])
    case Identifier => t.(identifiers := t.identifiers + [tok])
  }

  /** The lists hold, category by category, the tokens of that category in order. */
  predicate Sorted(t: Tables, tokens: seq<string>) {
    && t.keywords == OfCategory(tokens, Keyword)
    && t.identifiers == OfCategory(tokens, Identifier)
    && t.constants == OfCategory(tokens, Constant)
    && t.delimiters == OfCategory(tokens, Delimiter)
    && t.operators == OfCategory(tokens, Operator)
  }

  lemma FileStep(t: Tables, tokens: seq<string>, i: nat)
    requires i < |tokens| && Sorted(t, tokens[..i])
    ensures Sorted(File(t, tokens[i]), tokens[..i + 1])
  {
    assert tokens[..i + 1][..i] == tokens[..i];
  }

  /** lexicalAnalysis without its printing: each token is appended to the list of its category. */
  method LexicalAnalysis(tokens: seq<string>) returns (t: Tables)
    ensures Sorted(t, tokens)
    ensures Size(t) == |tokens|
  {
    t := Tables([], [], [], [], []);
    var i := 0;
    while i < |tokens|
      invariant 0 <= i <= |tokens|
      invariant Sorted(t, tokens[..i])
      invariant Size(t) == i
    {
      FileStep(t, tokens, i);
      t := File(t, tokens[i]);
      i := i + 1;
    }
    assert tokens[..|tokens|] == tokens;
  }

  /** On tokens from separateTokens the "!=" branch never fires: '!' and '=' are always split apart. */
  lemma NotEqualUnreachable(t: string)
    requires WellSeparated(t)
    ensures t != "!="
  {
    if |t| == 2 {
      assert t[0] !in Delimiters && '!' in Delimiters;
    }
  }

  /** A lone '!' falls through every test and is filed as an identifier. */
  lemma BangIsIdentifier()
    ensures Classify("!") == Identifier
  {
    assert !IsConstant("!");
  }

  /** A constant that separateTokens emits is a non-empty run of digits. */
  lemma ConstantsAreDigits(t: string)
    requires WellSeparated(t) && Classify(t) == Constant
    ensures |t| >= 1 && forall k | 0 <= k < |t| :: IsDigit(t[k])
  {
  }
}
