/**
  The generator of runner/src/3ac/3ac.py. It differs from 3ac/3ac.py in three
  ways:
  - indirect_triples holds the indices into triples rather than copies of them;
  - temp_indices lists every temporary in the order new_temp made it;
  - to_3ac returns without touching anything when the stripped right-hand side
    starts with int, float or string.
  The indirect-triples table of print_tables shows a temporary operand as its
  position in temp_indices.

  Reading the file and printing are left out; the lines are a parameter. As in
  3ac/3ac.py an IndexError escapes main and ends the program, so Run reports it
  and the partly updated tables are not modelled.
*/
module RunnerTac {
  import opened Wrappers
  import opened Chars
  import opened PyStr
  import opened Shunting

  datatype Gen = Gen(
    tempCount: nat,
    quadruples: seq<Quad>,
    triples: seq<Triple>,
    indirectTriples: seq<nat>,
    tempMap: map<string, string>,
    tempIndices: seq<string>)

  /** The tables stay in step: row i of triples is row i of quadruples without its result, and indirect_triples[i] == i. */
  predicate Aligned(g: Gen) {
    && |g.triples| == |g.quadruples|
    && |g.indirectTriples| == |g.quadruples|
    && (forall i | 0 <= i < |g.quadruples| :: g.triples[i] == TripleOf(g.quadruples[i]))
    && (forall i | 0 <= i < |g.quadruples| :: g.indirectTriples[i] == i)
  }

  /** temp_indices is T1, T2, ..., T(temp_count): one entry per temporary handed out. */
  predicate Listed(g: Gen) {
    && |g.tempIndices| == g.tempCount
    && (forall k | 0 <= k < |g.tempIndices| :: g.tempIndices[k] == Temp(k + 1))
  }

  /** The generator invariant. */
  predicate Valid(g: Gen) {
    Aligned(g) && Listed(g)
  }

  /** __init__ */
  function Init(): (g: Gen)
    ensures Valid(g) && g.tempCount == 0 && g.quadruples == [] && g.tempMap == map[]
  {
    Gen(0, [], [], [], map[], [])
  }

  /**
    The table half of apply_operator and of the final assignment: the
    quadruple, its triple, its index, temp_map[key] = text, and the new
    temporaries, if any, at the end of temp_indices.
  */
  function Record(g: Gen, q: Quad, key: string, text: string, temps: seq<string>): (r: Gen)
    ensures Aligned(g) ==> Aligned(r)
    ensures r.quadruples == g.quadruples + [q] && r.tempCount == g.tempCount
    ensures r.tempIndices == g.tempIndices + temps && r.tempMap == g.tempMap[key := text]
  {
    Gen(g.tempCount, g.quadruples + [q], g.triples + [TripleOf(q)],
        g.indirectTriples + [|g.triples|], g.tempMap[key := text], g.tempIndices + temps)
  }

  /** The results of a log, in order. */
  function Results(log: seq<Quad>): (rs: seq<string>)
    ensures |rs| == |log|
    decreases |log|
  {
    if log == [] then [] else [log[0].result] + Results(log[1..])
  }

  lemma {:induction false} ResultsAt(log: seq<Quad>, k: nat)
    requires k < |log|
    ensures Results(log)[k] == log[k].result
    decreases k
  {
    if k > 0 {
      ResultsAt(log[1..], k - 1);
    }
  }

  /**
    The quadruples apply_operator made while one expression was converted,
    filed in order; each one's temporary is also appended to temp_indices.
  */
  function FileLog(g: Gen, log: seq<Quad>): (r: Gen)
    ensures Aligned(g) ==> Aligned(r)
    ensures r.quadruples == g.quadruples + log && r.tempCount == g.tempCount
    ensures r.tempIndices == g.tempIndices + Results(log)
    decreases |log|
  {
    if log == [] then
      assert g.tempIndices + Results(log) == g.tempIndices;
      g
    else
      var g1 := Record(g, log[0], log[0].result, Describe(log[0]), [log[0].result]);
      var r := FileLog(g1, log[1..]);
      AppendFront(g.quadruples, log[0], log[1..], log);
      AppendFront(g.tempIndices, log[0].result, Results(log[1..]), Results(log));
      r
  }

  /** Appending x and then rest is appending the sequence they make. */
  lemma AppendFront<T>(a: seq<T>, x: T, rest: seq<T>, whole: seq<T>)
    requires whole == [x] + rest
    ensures a + [x] + rest == a + whole
  {
  }

  /** The final assignment of to_3ac: ('=', result, '', var), and temp_map[var] = result. */
  function Assign(g: Gen, result: string, target: string): (r: Gen)
    ensures Aligned(g) ==> Aligned(r)
    ensures r.quadruples == g.quadruples + [Quad("=", result, "", target)]
    ensures r.tempCount == g.tempCount && r.tempIndices == g.tempIndices
    ensures target in r.tempMap && r.tempMap[target] == result
  {
    var r := Record(g, Quad("=", result, "", target), target, result, []);
    assert g.tempIndices + [] == g.tempIndices;
    r
  }

  /** to_3ac after the split and the declaration check: convert, file the log, assign. */
  function Emit(g: Gen, ts: seq<string>, target: string): (r: Result<Gen, Error>)
    ensures r.Err? ==> r.error == IndexError
    ensures r.Ok? && Aligned(g) ==> Aligned(r.value)
    ensures r.Ok? ==> g.tempCount <= r.value.tempCount
    ensures r.Ok? ==>
      |g.quadruples| < |r.value.quadruples| && r.value.quadruples[..|g.quadruples|] == g.quadruples
  {
    match Convert(ts, g.tempCount)
    case Err(_) => Err(IndexError)
    case Ok((result, m)) =>
      var filed := FileLog(g, m.log).(tempCount := m.count);
      var r := Assign(filed, result, target);
      assert r.quadruples[..|g.quadruples|] == g.quadruples by {
        assert r.quadruples == g.quadruples + (m.log + [Quad("=", result, "", target)]);
      }
      Ok(r)
  }

  /** The right-hand sides to_3ac ignores: those starting with a declaration keyword. */
  predicate Declaration(expr: string) {
    StartsWith(expr, "int") || StartsWith(expr, "float") || StartsWith(expr, "string")
  }

  /**
    to_3ac: a ValueError exactly when the line does not hold one '=';
    otherwise a declaration leaves the generator as it was.
  */
  function ToTac(g: Gen, expression: string): (r: Result<Gen, Error>)
    ensures r.Err? && r.error == ValueError <==> CountChar(expression, '=') != 1
    ensures r.Ok? && Aligned(g) ==> Aligned(r.value)
    ensures r.Ok? ==> g.tempCount <= r.value.tempCount && |g.quadruples| <= |r.value.quadruples|
  {
    match Sides(expression)
    case Err(e) => Err(e)
    case Ok((target, expr)) =>
      if Declaration(expr) then Ok(g) else Emit(g, ExprTokens(expr), target)
  }

  /** A line lhs = rhs with no other '=': skipped when the stripped rhs is a declaration, emitted otherwise. */
  lemma ToTacLine(g: Gen, lhs: string, rhs: string)
    requires forall k | 0 <= k < |lhs| :: lhs[k] != '='
    requires forall k | 0 <= k < |rhs| :: rhs[k] != '='
    ensures Declaration(Strip(rhs)) ==> ToTac(g, lhs + "=" + rhs) == Ok(g)
    ensures !Declaration(Strip(rhs)) ==> ToTac(g, lhs + "=" + rhs) == Emit(g, ExprTokens(Strip(rhs)), Strip(lhs))
  {
    SidesOf(lhs, rhs);
  }

  /** Emit once the conversion has succeeded: file the log, then assign. */
  lemma EmitSteps(g: Gen, ts: seq<string>, target: string)
    requires Convert(ts, g.tempCount).Ok?
    ensures var (result, m) := Convert(ts, g.tempCount).value;
      Emit(g, ts, target) == Ok(Assign(FileLog(g, m.log).(tempCount := m.count), result, target))
  {
  }

  /** Appending T(c+1), ..., T(c+n) to a list of T1, ..., Tc gives T1, ..., T(c+n). */
  lemma ListedAppend(ti: seq<string>, log: seq<Quad>)
    requires forall k | 0 <= k < |ti| :: ti[k] == Temp(k + 1)
    requires forall k | 0 <= k < |log| :: log[k].result == Temp(|ti| + k + 1)
    ensures forall k | 0 <= k < |ti| + |log| :: (ti + Results(log))[k] == Temp(k + 1)
  {
    var rs := Results(log);
    forall k | 0 <= k < |ti| + |log|
      ensures (ti + rs)[k] == Temp(k + 1)
    {
      if k < |ti| {
        assert (ti + rs)[k] == ti[k];
      } else {
        var j := k - |ti|;
        ResultsAt(log, j);
        assert (ti + rs)[k] == rs[j] == log[j].result;
      }
    }
  }

  /** Filing T(c+1), ..., T(c+n) after T1, ..., Tc and setting temp_count to c + n keeps temp_indices complete. */
  lemma FiledListed(g: Gen, log: seq<Quad>, result: string, target: string)
    requires Listed(g)
    requires forall k | 0 <= k < |log| :: log[k].result == Temp(g.tempCount + k + 1)
    ensures Listed(Assign(FileLog(g, log).(tempCount := g.tempCount + |log|), result, target))
  {
    ListedAppend(g.tempIndices, log);
  }

  /** temp_indices keeps listing every temporary through a successful to_3ac. */
  lemma {:induction false} EmitListed(g: Gen, ts: seq<string>, target: string)
    requires Listed(g) && Emit(g, ts, target).Ok?
    ensures Listed(Emit(g, ts, target).value)
  {
    EmitSteps(g, ts, target);
    var (result, m) := Convert(ts, g.tempCount).value;
    forall k | 0 <= k < |m.log|
      ensures m.log[k].result == Temp(g.tempCount + k + 1)
    {
      ConvertTemp(ts, g.tempCount, k);
    }
    FiledListed(g, m.log, result, target);
  }

  /** to_3ac keeps the generator invariant, whatever the line. */
  lemma {:induction false} ToTacValid(g: Gen, expression: string)
    requires Valid(g) && ToTac(g, expression).Ok?
    ensures Valid(ToTac(g, expression).value)
  {
    match Sides(expression)
    case Err(_) =>
    case Ok((target, expr)) =>
      if !Declaration(expr) {
        EmitListed(g, ExprTokens(expr), target);
      }
  }

  /**
    A well-formed right-hand side with n binary operators: n + 1 quadruples
    are appended, the last assigning the result to the target, which is the
    newest temporary when n > 0, and temp_count grows by n.
  */
  lemma {:induction false} EmitWellFormed(g: Gen, ts: seq<string>, target: string)
    requires WellFormed(ts)
    ensures Emit(g, ts, target).Ok?
    ensures var r := Emit(g, ts, target).value;
      var n := CountBinOps(ts);
      && |r.quadruples| == |g.quadruples| + n + 1
      && r.tempCount == g.tempCount + n
      && r.quadruples[|r.quadruples| - 1] == Quad("=", r.quadruples[|r.quadruples| - 1].arg1, "", target)
      && (n > 0 ==> r.quadruples[|r.quadruples| - 1].arg1 == Temp(g.tempCount + n))
  {
    ConvertWellFormed(ts, g.tempCount);
    EmitSteps(g, ts, target);
  }

  /** main's loop: a ValueError is reported and the line skipped; an IndexError ends the program. */
  function Run(g: Gen, es: seq<string>): (r: Result<Gen, Error>)
    ensures r.Err? ==> r.error == IndexError
    ensures r.Ok? && Aligned(g) ==> Aligned(r.value)
    ensures r.Ok? ==> g.tempCount <= r.value.tempCount && |g.quadruples| <= |r.value.quadruples|
    decreases |es|
  {
    if es == [] then Ok(g)
    else
      match ToTac(g, es[0])
      case Err(ValueError) => Run(g, es[1..])
      case Err(IndexError) => Err(IndexError)
      case Ok(g1) => Run(g1, es[1..])
  }

  /** main's loop keeps the generator invariant. */
  lemma {:induction false} RunValid(g: Gen, es: seq<string>)
    requires Valid(g) && Run(g, es).Ok?
    ensures Valid(Run(g, es).value)
    decreases |es|
  {
    if es != [] {
      match ToTac(g, es[0])
      case Err(ValueError) => RunValid(g, es[1..]);
      case Err(IndexError) =>
      case Ok(g1) =>
        ToTacValid(g, es[0]);
        RunValid(g1, es[1..]);
    }
  }

  /** How print_tables shows an operand in the indirect-triples table: a temporary by its position in temp_indices. */
  datatype Operand = Slot(index: nat) | Name(name: string)

  /** list.index: the first position of x in s, if any. */
  function IndexOf(s: seq<string>, x: string): (r: Option<nat>)
    ensures r.Some? ==> r.value < |s| && s[r.value] == x && forall k | 0 <= k < r.value :: s[k] != x
    ensures r.None? ==> forall k | 0 <= k < |s| :: s[k] != x
  {
    if s == [] then None
    else if s[0] == x then Some(0)
    else match IndexOf(s[1..], x)
      case None => None
      case Some(k) => Some(k + 1)
  }

  /** A position holding x with no earlier x is the one list.index reports. */
  lemma {:induction false} IndexOfFirst(s: seq<string>, x: string, k: nat)
    requires k < |s| && s[k] == x && forall j | 0 <= j < k :: s[j] != x
    ensures IndexOf(s, x) == Some(k)
  {
    if k > 0 {
      IndexOfFirst(s[1..], x, k - 1);
    }
  }

  function IndirectOperand(g: Gen, a: string): Operand {
    match IndexOf(g.tempIndices, a)
    case Some(k) => Slot(k)
    case None => Name(a)
  }

  /**
    In a valid generator the temporary T(j) made so far is shown as slot j - 1,
    and an operand that is not one of them is shown by its name.
  */
  lemma IndirectTemp(g: Gen, a: string)
    requires Listed(g)
    ensures forall j | 1 <= j <= g.tempCount :: a == Temp(j) ==> IndirectOperand(g, a) == Slot(j - 1)
    ensures (forall j | 1 <= j <= g.tempCount :: a != Temp(j)) ==> IndirectOperand(g, a) == Name(a)
  {
    forall j | 1 <= j <= g.tempCount && a == Temp(j)
      ensures IndirectOperand(g, a) == Slot(j - 1)
    {
      forall k | 0 <= k < j - 1
        ensures g.tempIndices[k] != a
      {
        TempInjective(k + 1, j);
      }
      IndexOfFirst(g.tempIndices, a, j - 1);
    }
  }

  /** Row i of the indirect-triples table: the triple indirect_triples[i] names, operands shown by slot. */
  function IndirectRow(g: Gen, i: nat): (row: (string, Operand, Operand))
    requires Aligned(g) && i < |g.indirectTriples|
    ensures row.0 == g.quadruples[i].op
  {
    var t := g.triples[g.indirectTriples[i]];
    (t.op, IndirectOperand(g, t.arg1), IndirectOperand(g, t.arg2))
  }
}
