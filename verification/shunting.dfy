/**
  The expression machinery shared by 3ac/3ac.py and runner/src/3ac/3ac.py:
  the split of the line at '=', the token scanner of the pattern in the
  re.findall call (runs of ASCII letters and digits, and the symbols of
  parentheses and arithmetic), precedence, new_temp, the stack half of
  apply_operator, and the operator-precedence loop of to_3ac.

  apply_operator both rewrites the two stacks and appends to the generator's
  tables. The tables are never read while an expression is converted, so the
  model splits it: here it pops the stacks, draws a fresh temporary and logs
  the quadruple it makes; Tac and RunnerTac then file each logged quadruple
  into their tables in order.

  A malformed expression makes the Python code pop an empty list, which raises
  IndexError; here that is the error value IndexError.
*/
module Shunting {
  import opened Wrappers
  import opened Chars
  import opened PyStr
  import Decimal

  /** The two exceptions to_3ac can raise: a bad split of the line, and a pop from an empty list. */
  datatype Error = ValueError | IndexError

  /** One application of an operator: (op, left, right, result). */
  datatype Quad = Quad(op: string, arg1: string, arg2: string, result: string)

  /** A triple is a quadruple without its result: (op, arg1, arg2). */
  datatype Triple = Triple(op: string, arg1: string, arg2: string)

  function TripleOf(q: Quad): Triple {
    Triple(q.op, q.arg1, q.arg2)
  }

  /** The text temp_map records for a temporary: f"{left} {op} {right}". */
  function Describe(q: Quad): string {
    q.arg1 + " " + q.op + " " + q.arg2
  }

  /**
    `var, expr = expression.split('=')` followed by the two strips: the
    assignment's target and right-hand side, or ValueError when the split does
    not give exactly two pieces.
  */
  function Sides(expression: string): (r: Result<(string, string), Error>)
    ensures r.Err? ==> r.error == ValueError
    ensures r.Ok? <==> CountChar(expression, '=') == 1
  {
    SplitCharCount(expression, '=');
    var parts := Split(expression, "=");
    if |parts| != 2 then Err(ValueError) else Ok((Strip(parts[0]), Strip(parts[1])))
  }

  /** A line with exactly one '=' yields the stripped text on either side of it. */
  lemma SidesOf(lhs: string, rhs: string)
    requires forall k | 0 <= k < |lhs| :: lhs[k] != '='
    requires forall k | 0 <= k < |rhs| :: rhs[k] != '='
    ensures Sides(lhs + "=" + rhs) == Ok((Strip(lhs), Strip(rhs)))
  {
    SplitCharCons(lhs, '=', rhs);
    assert !Contains(rhs, "=") by {
      forall k | 0 <= k <= |rhs| - 1
        ensures !OccursAt(rhs, "=", k)
      {
        assert rhs[k..k + 1] == [rhs[k]];
      }
    }
    SplitAbsent(rhs, "=");
  }

  predicate IsBinOp(t: string) {
    t == "+" || t == "-" || t == "*" || t == "/"
  }

  /** precedence: '*' and '/' bind tighter than '+' and '-'; everything else, '(' included, is 0. */
  function Precedence(op: string): (p: int)
    ensures p == 2 <==> op == "*" || op == "/"
    ensures p == 1 <==> op == "+" || op == "-"
    ensures p == 0 <==> !IsBinOp(op)
  {
    if op == "+" || op == "-" then 1
    else if op == "*" || op == "/" then 2
    else 0
  }

  // ---------------------------------------------------------------------------
  // Temporaries

  /** The name new_temp returns once temp_count has reached n. */
  function Temp(n: nat): string {
    "T" + Decimal.NatToString(n)
  }

  /** Different counts give different names, so temporaries never repeat. */
  lemma {:induction false} TempInjective(m: nat, n: nat)
    requires m != n
    ensures Temp(m) != Temp(n)
  {
    Decimal.NatToStringInjective(m, n);
    assert Temp(m)[1..] == Decimal.NatToString(m);
    assert Temp(n)[1..] == Decimal.NatToString(n);
  }

  /** new_temp: the counter after the increment, and the name of the new temporary. */
  function NewTemp(count: nat): (r: (nat, string))
    ensures r.0 == count + 1
    ensures r.1 == Temp(r.0) && r.1 != Temp(count)
  {
    TempInjective(count, count + 1);
    (count + 1, Temp(count + 1))
  }

  // ---------------------------------------------------------------------------
  // The scanner of the re.findall call of to_3ac

  const Symbols: set<char> := {'(', ')', '+', '-', '*', '/'}

  /** A token the first alternative matches: a non-empty run of ASCII letters and digits. */
  predicate IsOperand(t: string) {
    |t| >= 1 && forall k | 0 <= k < |t| :: IsAsciiAlnum(t[k])
  }

  predicate IsScanned(t: string) {
    IsOperand(t) || (|t| == 1 && t[0] in Symbols)
  }

  predicate Kept(c: char) {
    IsAsciiAlnum(c) || c in Symbols
  }

  /** s without the characters neither alternative matches. */
  function KeptChars(s: string): (r: string)
    ensures |r| <= |s|
    decreases |s|
  {
    if s == [] then [] else (if Kept(s[0]) then [s[0]] else []) + KeptChars(s[1..])
  }

  function Concat(ts: seq<string>): string
    decreases |ts|
  {
    if ts == [] then [] else ts[0] + Concat(ts[1..])
  }

  /**
    The matches, left to right: a maximal run of letters and digits, or one
    symbol; any other character is passed over.
  */
  function ExprTokens(s: string): (ts: seq<string>)
    ensures forall k | 0 <= k < |ts| :: IsScanned(ts[k])
    decreases |s|
  {
    if s == [] then []
    else if IsAsciiAlnum(s[0]) then
      var j := RunEnd(s, 0, IsAsciiAlnum);
      RunEndRun(s, 0, IsAsciiAlnum);
      [s[..j]] + ExprTokens(s[j..])
    else if s[0] in Symbols then
      [[s[0]]] + ExprTokens(s[1..])
    else
      ExprTokens(s[1..])
  }

  /** A character neither alternative matches is passed over. */
  lemma ExprTokensSkip(c: char, s: string)
    requires !Kept(c)
    ensures ExprTokens([c] + s) == ExprTokens(s)
  {
    assert ([c] + s)[1..] == s;
  }

  /** A symbol is a token of its own. */
  lemma ExprTokensSymbol(c: char, s: string)
    requires c in Symbols
    ensures ExprTokens([c] + s) == [[c]] + ExprTokens(s)
  {
    assert !IsAsciiAlnum(c);
    assert ([c] + s)[1..] == s;
  }

  /** A run of letters and digits not followed by another is one token. */
  lemma ExprTokensOperand(t: string, s: string)
    requires IsOperand(t) && (s == [] || !IsAsciiAlnum(s[0]))
    ensures ExprTokens(t + s) == [t] + ExprTokens(s)
  {
    var u := t + s;
    assert IsAsciiAlnum(u[0]);
    forall k | 0 <= k < |t|
      ensures IsAsciiAlnum(u[k])
    {
      assert u[k] == t[k];
    }
    RunEndUnique(u, 0, |t|, IsAsciiAlnum);
    assert u[..|t|] == t && u[|t|..] == s;
  }

  lemma {:induction false} KeptCharsAppend(a: string, b: string)
    ensures KeptChars(a + b) == KeptChars(a) + KeptChars(b)
    decreases |a|
  {
    if a == [] {
      assert a + b == b;
    } else {
      var ab := a + b;
      assert ab[0] == a[0];
      assert ab[1..] == a[1..] + b;
      KeptCharsAppend(a[1..], b);
      var head := if Kept(a[0]) then [a[0]] else [];
      assert KeptChars(ab) == head + KeptChars(a[1..] + b);
      assert KeptChars(a) == head + KeptChars(a[1..]);
    }
  }

  lemma {:induction false} KeptCharsAlnum(s: string)
    requires forall k | 0 <= k < |s| :: IsAsciiAlnum(s[k])
    ensures KeptChars(s) == s
    decreases |s|
  {
    if s != [] {
      KeptCharsAlnum(s[1..]);
    }
  }

  /** The tokens, put back together, are the expression without the characters the pattern skips. */
  lemma {:induction false} ExprTokensKeep(s: string)
    ensures Concat(ExprTokens(s)) == KeptChars(s)
    decreases |s|
  {
    if s != [] {
      if IsAsciiAlnum(s[0]) {
        var j := RunEnd(s, 0, IsAsciiAlnum);
        RunEndRun(s, 0, IsAsciiAlnum);
        ExprTokensKeep(s[j..]);
        assert s == s[..j] + s[j..];
        KeptCharsAppend(s[..j], s[j..]);
        KeptCharsAlnum(s[..j]);
      } else {
        ExprTokensKeep(s[1..]);
      }
    }
  }

  // ---------------------------------------------------------------------------
  // The two stacks

  /**
    The operator and value stacks (top at the end), temp_count, and the
    quadruples made so far, oldest first.
  */
  datatype Machine = Machine(ops: seq<string>, values: seq<string>, count: nat, log: seq<Quad>)

  /** The logged quadruples carry the temporaries new_temp handed out, in order. */
  predicate Numbered(m: Machine) {
    && |m.log| <= m.count
    && forall k | 0 <= k < |m.log| :: m.log[k].result == Temp(m.count - |m.log| + k + 1)
  }

  /**
    apply_operator, stack half: pop the operator, then the right and the left
    operand, push a fresh temporary and log (op, left, right, temporary). An
    empty stack raises IndexError.
  */
  function ApplyOperator(m: Machine): (r: Result<Machine, Error>)
    ensures r.Ok? <==> |m.ops| >= 1 && |m.values| >= 2
    ensures r.Ok? ==>
      var n := r.value;
      && n.ops + [m.ops[|m.ops| - 1]] == m.ops
      && n.count == m.count + 1 && |n.log| == |m.log| + 1 && n.log[..|m.log|] == m.log
      && |n.values| + 1 == |m.values|
      && n.values[..|n.values| - 1] + [n.log[|m.log|].arg1, n.log[|m.log|].arg2] == m.values
      && n.log[|m.log|] == Quad(m.ops[|m.ops| - 1], n.log[|m.log|].arg1, n.log[|m.log|].arg2, Temp(n.count))
      && n.values[|n.values| - 1] == Temp(n.count)
    ensures r.Ok? && Numbered(m) ==> Numbered(r.value)
  {
    if |m.ops| == 0 || |m.values| < 2 then Err(IndexError)
    else
      var op := m.ops[|m.ops| - 1];
      var right := m.values[|m.values| - 1];
      var left := m.values[|m.values| - 2];
      var (count, result) := NewTemp(m.count);
      var rest := m.values[..|m.values| - 2];
      assert rest + [left, right] == m.values;
      Ok(Machine(m.ops[..|m.ops| - 1], rest + [result], count, m.log + [Quad(op, left, right, result)]))
  }

  /**
    n continues m: the same offset between temp_count and the log, the log of
    m as a prefix, and temporaries still numbered in order.
  */
  predicate Grows(m: Machine, n: Machine) {
    && |m.log| <= |n.log|
    && n.log[..|m.log|] == m.log
    && n.count - |n.log| == m.count - |m.log|
    && (Numbered(m) ==> Numbered(n))
  }

  lemma {:induction false} GrowsTrans(a: Machine, b: Machine, c: Machine)
    requires Grows(a, b) && Grows(b, c)
    ensures Grows(a, c)
  {
    assert c.log[..|a.log|] == c.log[..|b.log|][..|a.log|];
  }

  /** Changing only the stacks continues the log trivially. */
  lemma GrowsKeep(m: Machine, n: Machine)
    requires n.log == m.log && n.count == m.count
    ensures Grows(m, n)
  {
    assert n.log[..|m.log|] == m.log;
  }

  function Top(ops: seq<string>): string
    requires |ops| > 0
  {
    ops[|ops| - 1]
  }

  /** The loop run on ')': `while operators and operators[-1] != '(': apply_operator`. */
  function ReduceToParen(m: Machine): (r: Result<Machine, Error>)
    ensures r.Ok? ==> Grows(m, r.value) && (|r.value.ops| == 0 || Top(r.value.ops) == "(")
    decreases |m.ops|
  {
    if |m.ops| > 0 && Top(m.ops) != "(" then
      match ApplyOperator(m)
      case Err(e) => Err(e)
      case Ok(n) =>
        var r := ReduceToParen(n);
        if r.Ok? then GrowsTrans(m, n, r.value); r else r
    else
      Ok(m)
  }

  /** ')' : reduce back to the '(' and pop it; with no '(' left the pop raises IndexError. */
  function CloseParen(m: Machine): (r: Result<Machine, Error>)
    ensures r.Ok? ==> Grows(m, r.value)
  {
    match ReduceToParen(m)
    case Err(e) => Err(e)
    case Ok(n) =>
      if |n.ops| == 0 then Err(IndexError)
      else
        var n' := n.(ops := n.ops[..|n.ops| - 1]);
        GrowsKeep(n, n');
        GrowsTrans(m, n, n');
        Ok(n')
  }

  /**
    The loop run on an operator: apply every stacked operator above the
    nearest '(' whose precedence is at least the incoming one's.
  */
  function ReduceForOperator(m: Machine, tok: string): (r: Result<Machine, Error>)
    ensures r.Ok? ==> Grows(m, r.value)
    ensures r.Ok? ==> var ops := r.value.ops;
      |ops| == 0 || Top(ops) == "(" || Precedence(Top(ops)) < Precedence(tok)
    decreases |m.ops|
  {
    if |m.ops| > 0 && Top(m.ops) != "(" && Precedence(Top(m.ops)) >= Precedence(tok) then
      match ApplyOperator(m)
      case Err(e) => Err(e)
      case Ok(n) =>
        var r := ReduceForOperator(n, tok);
        if r.Ok? then GrowsTrans(m, n, r.value); r else r
    else
      Ok(m)
  }

  /** The final `while operators: apply_operator`; a '(' left on the stack is applied like an operator. */
  function ReduceAll(m: Machine): (r: Result<Machine, Error>)
    ensures r.Ok? ==> Grows(m, r.value) && |r.value.ops| == 0
    decreases |m.ops|
  {
    if |m.ops| > 0 then
      match ApplyOperator(m)
      case Err(e) => Err(e)
      case Ok(n) =>
        var r := ReduceAll(n);
        if r.Ok? then GrowsTrans(m, n, r.value); r else r
    else
      Ok(m)
  }

  /** One pass of the token loop of to_3ac. */
  function Shift(m: Machine, tok: string): (r: Result<Machine, Error>)
    ensures r.Ok? ==> Grows(m, r.value)
  {
    if IsOperand(tok) then
      var n := m.(values := m.values + [tok]);
      GrowsKeep(m, n);
      Ok(n)
    else if tok == "(" then
      var n := m.(ops := m.ops + [tok]);
      GrowsKeep(m, n);
      Ok(n)
    else if tok == ")" then
      CloseParen(m)
    else
      match ReduceForOperator(m, tok)
      case Err(e) => Err(e)
      case Ok(n) =>
        var n' := n.(ops := n.ops + [tok]);
        GrowsKeep(n, n');
        GrowsTrans(m, n, n');
        Ok(n')
  }

  /** The token loop of to_3ac. */
  function ShiftAll(m: Machine, ts: seq<string>): (r: Result<Machine, Error>)
    ensures r.Ok? ==> Grows(m, r.value)
    decreases |ts|
  {
    if ts == [] then Ok(m)
    else
      match Shift(m, ts[0])
      case Err(e) => Err(e)
      case Ok(n) =>
        var r := ShiftAll(n, ts[1..]);
        if r.Ok? then GrowsTrans(m, n, r.value); r else r
  }

  /** Running the token loop over ts then us is running it over ts + us. */
  lemma {:induction false} ShiftAllAppend(m: Machine, ts: seq<string>, us: seq<string>)
    requires ShiftAll(m, ts).Ok?
    ensures ShiftAll(m, ts + us) == ShiftAll(ShiftAll(m, ts).value, us)
    decreases |ts|
  {
    if ts == [] {
      assert ts + us == us;
    } else {
      assert (ts + us)[0] == ts[0];
      assert (ts + us)[1..] == ts[1..] + us;
      ShiftAllAppend(Shift(m, ts[0]).value, ts[1..], us);
    }
  }

  /**
    The conversion of to_3ac from the token loop to `result = values.pop()`:
    the result operand and the final machine, whose log holds the quadruples
    made, temporaries numbered from count + 1.
  */
  function Convert(ts: seq<string>, count: nat): (r: Result<(string, Machine), Error>)
    ensures r.Ok? ==> var m := r.value.1;
      && Numbered(m) && m.count == count + |m.log|
      && forall k | 0 <= k < |m.log| :: m.log[k].result == Temp(count + k + 1)
  {
    var m0 := Machine([], [], count, []);
    match ShiftAll(m0, ts)
    case Err(e) => Err(e)
    case Ok(m1) =>
      match ReduceAll(m1)
      case Err(e) => Err(e)
      case Ok(m2) =>
        GrowsTrans(m0, m1, m2);
        if |m2.values| == 0 then Err(IndexError)
        else Ok((m2.values[|m2.values| - 1], m2))
  }

  /** Entry j of a conversion's log carries temporary T(count + j + 1). */
  lemma ConvertTemp(ts: seq<string>, count: nat, j: nat)
    requires Convert(ts, count).Ok? && j < |Convert(ts, count).value.1.log|
    ensures Convert(ts, count).value.1.log[j].result == Temp(count + j + 1)
  {
  }

  /** The non-empty stripped lines of the input file, in order: what main hands to to_3ac. */
  function Expressions(lines: seq<string>): (es: seq<string>)
    ensures forall k | 0 <= k < |es| :: es[k] != [] && Strip(es[k]) == es[k]
    ensures |es| <= |lines|
  {
    if lines == [] then []
    else
      var e := Strip(lines[0]);
      StripClean(e);
      (if e != [] then [e] else []) + Expressions(lines[1..])
  }

  // ---------------------------------------------------------------------------
  // Well-formed expressions never raise

  /**
    The infix grammar as an automaton over (expecting an operand, open
    parentheses): an operand or '(' where an operand is expected, a binary
    operator or a ')' closing an open '(' after one.
  */
  function Next(tok: string, operand: bool, depth: nat): Option<(bool, nat)> {
    if operand then
      if IsOperand(tok) then Some((false, depth))
      else if tok == "(" then Some((true, depth + 1))
      else None
    else
      if IsBinOp(tok) then Some((true, depth))
      else if tok == ")" && depth > 0 then Some((false, depth - 1))
      else None
  }

  predicate Accepts(ts: seq<string>, operand: bool, depth: nat)
    decreases |ts|
  {
    if ts == [] then !operand && depth == 0
    else match Next(ts[0], operand, depth)
      case None => false
      case Some((e, d)) => Accepts(ts[1..], e, d)
  }

  /** Operands and binary operators alternate, starting and ending with an operand, parentheses balanced. */
  predicate WellFormed(ts: seq<string>) {
    Accepts(ts, true, 0)
  }

  function CountBinOps(ts: seq<string>): nat
    decreases |ts|
  {
    if ts == [] then 0 else (if IsBinOp(ts[0]) then 1 else 0) + CountBinOps(ts[1..])
  }

  function BinOps(ops: seq<string>): nat
    decreases |ops|
  {
    if ops == [] then 0 else BinOps(ops[..|ops| - 1]) + (if IsBinOp(ops[|ops| - 1]) then 1 else 0)
  }

  function Parens(ops: seq<string>): nat
    decreases |ops|
  {
    if ops == [] then 0 else Parens(ops[..|ops| - 1]) + (if ops[|ops| - 1] == "(" then 1 else 0)
  }

  /** The newest temporary is still on the value stack. */
  predicate Latest(m: Machine) {
    |m.log| > 0 ==> Temp(m.count) in m.values
  }

  /**
    The stacks while a well-formed prefix is read: only '(' and binary
    operators are stacked, depth of them are '(', and there is one value more
    than stacked operators unless an operand is expected next.
  */
  predicate StackShape(m: Machine, operand: bool, depth: nat) {
    && (forall k | 0 <= k < |m.ops| :: m.ops[k] == "(" || IsBinOp(m.ops[k]))
    && Parens(m.ops) == depth
    && |m.values| == BinOps(m.ops) + (if operand then 0 else 1)
    && Latest(m)
  }

  lemma {:induction false} PushOp(ops: seq<string>, t: string)
    ensures BinOps(ops + [t]) == BinOps(ops) + (if IsBinOp(t) then 1 else 0)
    ensures Parens(ops + [t]) == Parens(ops) + (if t == "(" then 1 else 0)
  {
    assert (ops + [t])[..|ops|] == ops;
  }

  lemma {:induction false} ApplyShape(m: Machine, depth: nat)
    requires StackShape(m, false, depth) && |m.ops| > 0 && IsBinOp(Top(m.ops))
    ensures ApplyOperator(m).Ok?
    ensures var n := ApplyOperator(m).value;
      && StackShape(n, false, depth) && |n.ops| < |m.ops|
      && |n.log| + BinOps(n.ops) == |m.log| + BinOps(m.ops)
  {
    var n := ApplyOperator(m).value;
    assert n.ops == m.ops[..|m.ops| - 1];
    assert n.values[|n.values| - 1] in n.values;
  }

  lemma {:induction false} ReduceToParenShape(m: Machine, depth: nat)
    requires StackShape(m, false, depth) && depth >= 1
    ensures ReduceToParen(m).Ok?
    ensures var n := ReduceToParen(m).value;
      && StackShape(n, false, depth) && |n.ops| > 0 && Top(n.ops) == "("
      && |n.log| + BinOps(n.ops) == |m.log| + BinOps(m.ops)
    decreases |m.ops|
  {
    if |m.ops| > 0 && Top(m.ops) != "(" {
      ApplyShape(m, depth);
      ReduceToParenShape(ApplyOperator(m).value, depth);
    }
  }

  lemma {:induction false} ReduceForOperatorShape(m: Machine, depth: nat, tok: string)
    requires StackShape(m, false, depth)
    ensures ReduceForOperator(m, tok).Ok?
    ensures var n := ReduceForOperator(m, tok).value;
      && StackShape(n, false, depth)
      && |n.log| + BinOps(n.ops) == |m.log| + BinOps(m.ops)
    decreases |m.ops|
  {
    if |m.ops| > 0 && Top(m.ops) != "(" && Precedence(Top(m.ops)) >= Precedence(tok) {
      ApplyShape(m, depth);
      ReduceForOperatorShape(ApplyOperator(m).value, depth, tok);
    }
  }

  lemma {:induction false} ReduceAllShape(m: Machine)
    requires StackShape(m, false, 0)
    ensures ReduceAll(m).Ok?
    ensures var n := ReduceAll(m).value;
      && |n.ops| == 0 && |n.values| == 1 && Latest(n)
      && |n.log| == |m.log| + BinOps(m.ops)
    decreases |m.ops|
  {
    if |m.ops| > 0 {
      ApplyShape(m, 0);
      ReduceAllShape(ApplyOperator(m).value);
    }
  }

  lemma {:induction false} ShiftOperand(m: Machine, depth: nat, tok: string)
    requires StackShape(m, true, depth) && IsOperand(tok)
    ensures Shift(m, tok) == Ok(m.(values := m.values + [tok]))
    ensures StackShape(Shift(m, tok).value, false, depth)
  {
  }

  lemma {:induction false} ShiftOpen(m: Machine, depth: nat)
    requires StackShape(m, true, depth)
    ensures Shift(m, "(") == Ok(m.(ops := m.ops + ["("]))
    ensures StackShape(Shift(m, "(").value, true, depth + 1)
    ensures BinOps(Shift(m, "(").value.ops) == BinOps(m.ops)
  {
    assert !IsOperand("(") by {
      assert !IsAsciiAlnum("("[0]);
    }
    PushOp(m.ops, "(");
  }

  lemma {:induction false} ShiftClose(m: Machine, depth: nat)
    requires StackShape(m, false, depth) && depth > 0
    ensures Shift(m, ")").Ok?
    ensures var n := Shift(m, ")").value;
      && StackShape(n, false, depth - 1)
      && |n.log| + BinOps(n.ops) == |m.log| + BinOps(m.ops)
  {
    assert !IsOperand(")") by {
      assert !IsAsciiAlnum(")"[0]);
    }
    ReduceToParenShape(m, depth);
    var n := ReduceToParen(m).value;
    var ops := n.ops[..|n.ops| - 1];
    assert ops + ["("] == n.ops;
    PushOp(ops, "(");
  }

  lemma {:induction false} ShiftBinOp(m: Machine, depth: nat, tok: string)
    requires StackShape(m, false, depth) && IsBinOp(tok)
    ensures Shift(m, tok).Ok?
    ensures var n := Shift(m, tok).value;
      && StackShape(n, true, depth)
      && |n.log| + BinOps(n.ops) == |m.log| + BinOps(m.ops) + 1
  {
    assert !IsOperand(tok) by {
      assert !IsAsciiAlnum(tok[0]);
    }
    ReduceForOperatorShape(m, depth, tok);
    var r := ReduceForOperator(m, tok).value;
    var n := r.(ops := r.ops + [tok]);
    assert Shift(m, tok) == Ok(n);
    PushOp(r.ops, tok);
    assert forall k | 0 <= k < |n.ops| :: n.ops[k] == "(" || IsBinOp(n.ops[k]) by {
      forall k | 0 <= k < |n.ops|
        ensures n.ops[k] == "(" || IsBinOp(n.ops[k])
      {
        if k < |r.ops| {
          assert n.ops[k] == r.ops[k];
        }
      }
    }
    assert Latest(n);
  }

  lemma {:induction false} ShiftShape(m: Machine, operand: bool, depth: nat, tok: string)
    requires StackShape(m, operand, depth) && Next(tok, operand, depth).Some?
    ensures Shift(m, tok).Ok?
    ensures var n := Shift(m, tok).value;
      && StackShape(n, Next(tok, operand, depth).value.0, Next(tok, operand, depth).value.1)
      && |n.log| + BinOps(n.ops) == |m.log| + BinOps(m.ops) + (if IsBinOp(tok) then 1 else 0)
  {
    if operand && IsOperand(tok) {
      assert !IsBinOp(tok) by {
        assert IsAsciiAlnum(tok[0]);
      }
      ShiftOperand(m, depth, tok);
    } else if operand {
      ShiftOpen(m, depth);
    } else if IsBinOp(tok) {
      ShiftBinOp(m, depth, tok);
    } else {
      ShiftClose(m, depth);
    }
  }

  lemma {:induction false} ShiftAllShape(m: Machine, operand: bool, depth: nat, ts: seq<string>)
    requires StackShape(m, operand, depth) && Accepts(ts, operand, depth)
    ensures ShiftAll(m, ts).Ok?
    ensures var n := ShiftAll(m, ts).value;
      && StackShape(n, false, 0)
      && |n.log| + BinOps(n.ops) == |m.log| + BinOps(m.ops) + CountBinOps(ts)
    decreases |ts|
  {
    if ts != [] {
      var (e, d) := Next(ts[0], operand, depth).value;
      ShiftShape(m, operand, depth, ts[0]);
      ShiftAllShape(Shift(m, ts[0]).value, e, d, ts[1..]);
    }
  }

  /** The machine a well-formed token list leaves once the loops are done. */
  lemma {:induction false} RunWellFormed(ts: seq<string>, count: nat)
    requires WellFormed(ts)
    ensures ShiftAll(Machine([], [], count, []), ts).Ok?
    ensures var m1 := ShiftAll(Machine([], [], count, []), ts).value;
      && ReduceAll(m1).Ok?
      && var m2 := ReduceAll(m1).value;
      && |m2.ops| == 0 && |m2.values| == 1 && Latest(m2)
      && |m2.log| == CountBinOps(ts) && m2.count == count + |m2.log|
  {
    var m0 := Machine([], [], count, []);
    ShiftAllShape(m0, true, 0, ts);
    var m1 := ShiftAll(m0, ts).value;
    ReduceAllShape(m1);
    GrowsTrans(m0, m1, ReduceAll(m1).value);
  }

  /**
    A well-formed token list converts without error, making one quadruple per
    binary operator; with at least one operator the result is the newest
    temporary.
  */
  lemma {:induction false} ConvertWellFormed(ts: seq<string>, count: nat)
    requires WellFormed(ts)
    ensures Convert(ts, count).Ok?
    ensures |Convert(ts, count).value.1.log| == CountBinOps(ts)
    ensures Convert(ts, count).value.1.count == count + CountBinOps(ts)
    ensures CountBinOps(ts) > 0 ==> Convert(ts, count).value.0 == Temp(count + CountBinOps(ts))
  {
    RunWellFormed(ts, count);
    var m2 := ReduceAll(ShiftAll(Machine([], [], count, []), ts).value).value;
    assert Convert(ts, count) == Ok((m2.values[0], m2));
    if |m2.log| > 0 {
      assert Temp(m2.count) in m2.values;
    }
  }
}
