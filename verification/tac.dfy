/**
  The generator of 3ac/3ac.py: its four tables (quadruples, triples,
  indirect_table, indirect_triples), temp_map and temp_count, to_3ac, and the
  loop of main over the lines read from the input file.

  Reading the file and print_tables are left out; the lines are a parameter.
  An IndexError escapes main's handler, which only catches ValueError, and
  ends the program before print_tables runs; the ValueError messages of the
  lines before it have already been printed. Run reports it as an error, and
  the partly updated tables are not modelled.
*/
module Tac {
  import opened Wrappers
  import opened Chars
  import opened PyStr
  import opened Shunting

  /** ThreeAddressCodeGenerator; temp_map is a dict, whose insertion order only matters for printing. */
  datatype Gen = Gen(
    tempCount: nat,
    quadruples: seq<Quad>,
    triples: seq<Triple>,
    indirectTable: seq<nat>,
    indirectTriples: seq<Triple>,
    tempMap: map<string, string>)

  /**
    The four tables stay in step: equal lengths, row i of triples and of
    indirect_triples is row i of quadruples without its result, and
    indirect_table[i] == i.
  */
  predicate Aligned(g: Gen) {
    && |g.triples| == |g.quadruples|
    && |g.indirectTable| == |g.quadruples|
    && |g.indirectTriples| == |g.quadruples|
    && (forall i | 0 <= i < |g.quadruples| :: g.triples[i] == TripleOf(g.quadruples[i]))
    && (forall i | 0 <= i < |g.quadruples| :: g.indirectTable[i] == i)
    && (forall i | 0 <= i < |g.quadruples| :: g.indirectTriples[i] == g.triples[i])
  }

  /** __init__ */
  function Init(): (g: Gen)
    ensures Aligned(g) && g.tempCount == 0 && g.quadruples == [] && g.tempMap == map[]
  {
    Gen(0, [], [], [], [], map[])
  }

  /**
    The table half of apply_operator and of the final assignment: append the
    quadruple, its triple, the triple's index and the triple again, and set
    temp_map[key] to text.
  */
  function Record(g: Gen, q: Quad, key: string, text: string): (r: Gen)
    ensures Aligned(g) ==> Aligned(r)
    ensures r.quadruples == g.quadruples + [q] && r.tempCount == g.tempCount
    ensures r.tempMap == g.tempMap[key := text]
  {
    var index := |g.triples|;
    Gen(g.tempCount, g.quadruples + [q], g.triples + [TripleOf(q)],
        g.indirectTable + [index], g.indirectTriples + [TripleOf(q)], g.tempMap[key := text])
  }

  /** No quadruple of log has key as its result. */
  predicate Unnamed(log: seq<Quad>, key: string) {
    forall k | 0 <= k < |log| :: log[k].result != key
  }

  /** The results of log are pairwise different. */
  predicate DistinctResults(log: seq<Quad>) {
    forall j, k | 0 <= j < k < |log| :: log[j].result != log[k].result
  }

  /**
    The quadruples apply_operator made while one expression was converted,
    filed in order: each maps its temporary to "left op right" in temp_map,
    and every other key keeps its entry.
  */
  function FileLog(g: Gen, log: seq<Quad>): (r: Gen)
    ensures Aligned(g) ==> Aligned(r)
    ensures r.quadruples == g.quadruples + log && r.tempCount == g.tempCount
    ensures forall key | Unnamed(log, key) ::
      (key in r.tempMap <==> key in g.tempMap) && (key in g.tempMap ==> r.tempMap[key] == g.tempMap[key])
    decreases |log|
  {
    if log == [] then g
    else
      var r := FileLog(Record(g, log[0], log[0].result, Describe(log[0])), log[1..]);
      assert g.quadruples + [log[0]] + log[1..] == g.quadruples + log;
      assert forall key | Unnamed(log, key) :: Unnamed(log[1..], key) && key != log[0].result by {
        forall key | Unnamed(log, key)
          ensures Unnamed(log[1..], key) && key != log[0].result
        {
          assert log[0].result != key;
          forall k | 0 <= k < |log| - 1
            ensures log[1..][k].result != key
          {
            assert log[1..][k] == log[k + 1];
          }
        }
      }
      r
  }

  /** With distinct results, temp_map ends up describing every logged temporary. */
  lemma {:induction false} FileLogDescribes(g: Gen, log: seq<Quad>)
    requires DistinctResults(log)
    ensures forall k | 0 <= k < |log| ::
      log[k].result in FileLog(g, log).tempMap && FileLog(g, log).tempMap[log[k].result] == Describe(log[k])
    decreases |log|
  {
    if log != [] {
      var g1 := Record(g, log[0], log[0].result, Describe(log[0]));
      var rest := log[1..];
      assert DistinctResults(rest) by {
        forall j, k | 0 <= j < k < |rest|
          ensures rest[j].result != rest[k].result
        {
          assert rest[j] == log[j + 1] && rest[k] == log[k + 1];
        }
      }
      FileLogDescribes(g1, rest);
      assert Unnamed(rest, log[0].result) by {
        forall k | 0 <= k < |rest|
          ensures rest[k].result != log[0].result
        {
          assert rest[k] == log[k + 1];
        }
      }
      forall k | 1 <= k < |log|
        ensures log[k].result in FileLog(g, log).tempMap && FileLog(g, log).tempMap[log[k].result] == Describe(log[k])
      {
        assert log[k] == rest[k - 1];
      }
    }
  }

  /** The final assignment of to_3ac: ('=', result, '', var), and temp_map[var] = result. */
  function Assign(g: Gen, result: string, target: string): (r: Gen)
    ensures Aligned(g) ==> Aligned(r)
    ensures |r.quadruples| == |g.quadruples| + 1 && r.quadruples[..|g.quadruples|] == g.quadruples
    ensures r.quadruples[|g.quadruples|] == Quad("=", result, "", target) && r.tempCount == g.tempCount
    ensures target in r.tempMap && r.tempMap[target] == result
  {
    var r := Record(g, Quad("=", result, "", target), target, result);
    assert r.quadruples[..|g.quadruples|] == g.quadruples;
    r
  }

  /**
    to_3ac after the split: convert the tokens of the right-hand side, file
    the quadruples apply_operator made, then assign the result to the target.
  */
  function Emit(g: Gen, ts: seq<string>, target: string): (r: Result<Gen, Error>)
    ensures r.Err? ==> r.error == IndexError
    ensures r.Ok? && Aligned(g) ==> Aligned(r.value)
    ensures r.Ok? ==> g.tempCount <= r.value.tempCount
    ensures r.Ok? ==>
      |g.quadruples| < |r.value.quadruples| && r.value.quadruples[..|g.quadruples|] == g.quadruples
  {
    match Convert(ts, g.tempCount)
    case Err(_) => Err(IndexError)
    case Ok((result, m)) =>
      var filed := FileLog(g, m.log).(tempCount := m.count);
      var r := Assign(filed, result, target);
      assert r.quadruples[..|g.quadruples|] == g.quadruples by {
        assert r.quadruples[..|filed.quadruples|] == g.quadruples + m.log;
      }
      Ok(r)
  }

  /** to_3ac: a ValueError exactly when the line does not hold one '='. */
  function ToTac(g: Gen, expression: string): (r: Result<Gen, Error>)
    ensures r.Err? && r.error == ValueError <==> CountChar(expression, '=') != 1
    ensures r.Ok? && Aligned(g) ==> Aligned(r.value)
  {
    match Sides(expression)
    case Err(e) => Err(e)
    case Ok((target, expr)) => Emit(g, ExprTokens(expr), target)
  }

  /** A line lhs = rhs with no other '=' emits the tokens of the stripped rhs into the stripped lhs. */
  lemma ToTacLine(g: Gen, lhs: string, rhs: string)
    requires forall k | 0 <= k < |lhs| :: lhs[k] != '='
    requires forall k | 0 <= k < |rhs| :: rhs[k] != '='
    ensures ToTac(g, lhs + "=" + rhs) == Emit(g, ExprTokens(Strip(rhs)), Strip(lhs))
  {
    SidesOf(lhs, rhs);
  }

  /** Emit once the conversion has succeeded: file the log, then assign. */
  lemma EmitSteps(g: Gen, ts: seq<string>, target: string)
    requires Convert(ts, g.tempCount).Ok?
    ensures var (result, m) := Convert(ts, g.tempCount).value;
      Emit(g, ts, target) == Ok(Assign(FileLog(g, m.log).(tempCount := m.count), result, target))
  {
  }

  /** The logged temporaries of one conversion are T(c+1), T(c+2), ..., all different. */
  lemma NumberedDistinct(log: seq<Quad>, c: nat)
    requires forall k | 0 <= k < |log| :: log[k].result == Temp(c + k + 1)
    ensures DistinctResults(log)
  {
    forall j, k | 0 <= j < k < |log|
      ensures log[j].result != log[k].result
    {
      TempInjective(c + j + 1, c + k + 1);
    }
  }

  /** A conversion never hands out the same temporary twice. */
  lemma ConvertDistinct(ts: seq<string>, count: nat)
    requires Convert(ts, count).Ok?
    ensures DistinctResults(Convert(ts, count).value.1.log)
  {
    var log := Convert(ts, count).value.1.log;
    forall j | 0 <= j < |log|
      ensures log[j].result == Temp(count + j + 1)
    {
      ConvertTemp(ts, count, j);
    }
    NumberedDistinct(log, count);
  }

  /** The tables after filing a log and assigning: the log's rows, then the assignment row. */
  lemma FiledRows(g: Gen, log: seq<Quad>, count: nat, result: string, target: string)
    ensures var r := Assign(FileLog(g, log).(tempCount := count), result, target);
      && |r.quadruples| == |g.quadruples| + |log| + 1
      && r.quadruples[..|g.quadruples|] == g.quadruples
      && r.quadruples[|g.quadruples|..|g.quadruples| + |log|] == log
      && r.quadruples[|g.quadruples| + |log|] == Quad("=", result, "", target)
  {
    var filed := FileLog(g, log).(tempCount := count);
    var r := Assign(filed, result, target);
    assert r.quadruples[..|filed.quadruples|] == g.quadruples + log;
    assert r.quadruples[..|g.quadruples|] == (g.quadruples + log)[..|g.quadruples|];
    assert r.quadruples[|g.quadruples|..|g.quadruples| + |log|] == (g.quadruples + log)[|g.quadruples|..];
  }

  /**
    A well-formed right-hand side with n binary operators: n + 1 quadruples
    are appended, the last assigning the result to the target, which is the
    newest temporary when n > 0, and temp_count grows by n.
  */
  lemma {:induction false} EmitWellFormed(g: Gen, ts: seq<string>, target: string)
    requires WellFormed(ts)
    ensures Emit(g, ts, target).Ok?
    ensures var r := Emit(g, ts, target).value;
      var n := CountBinOps(ts);
      var base := |g.quadruples|;
      && |r.quadruples| == base + n + 1
      && r.tempCount == g.tempCount + n
      && r.quadruples[base + n] == Quad("=", r.quadruples[base + n].arg1, "", target)
      && (n > 0 ==> r.quadruples[base + n].arg1 == Temp(g.tempCount + n))
  {
    ConvertWellFormed(ts, g.tempCount);
    EmitSteps(g, ts, target);
    var (result, m) := Convert(ts, g.tempCount).value;
    FiledRows(g, m.log, m.count, result, target);
  }

  /** The operator rows a successful to_3ac appends carry T(c+1), T(c+2), ... in order. */
  lemma {:induction false} EmitNumbers(g: Gen, ts: seq<string>, target: string)
    requires Emit(g, ts, target).Ok?
    ensures var r := Emit(g, ts, target).value;
      forall k | 0 <= k < |r.quadruples| - |g.quadruples| - 1 ::
        r.quadruples[|g.quadruples|..][k].result == Temp(g.tempCount + k + 1)
  {
    EmitSteps(g, ts, target);
    var (result, m) := Convert(ts, g.tempCount).value;
    FiledRows(g, m.log, m.count, result, target);
    var r := Emit(g, ts, target).value;
    var base := |g.quadruples|;
    forall k | 0 <= k < |m.log|
      ensures r.quadruples[base..][k].result == Temp(g.tempCount + k + 1)
    {
      assert r.quadruples[base..][k] == r.quadruples[base..base + |m.log|][k] == m.log[k];
      ConvertTemp(ts, g.tempCount, k);
    }
  }

  /** After a successful to_3ac, temp_map sends the target to the value it was assigned. */
  lemma EmitTarget(g: Gen, ts: seq<string>, target: string)
    requires Emit(g, ts, target).Ok?
    ensures var r := Emit(g, ts, target).value;
      && r.quadruples[|r.quadruples| - 1] == Quad("=", r.quadruples[|r.quadruples| - 1].arg1, "", target)
      && target in r.tempMap && r.tempMap[target] == r.quadruples[|r.quadruples| - 1].arg1
  {
    EmitSteps(g, ts, target);
    var (result, m) := Convert(ts, g.tempCount).value;
    FiledRows(g, m.log, m.count, result, target);
  }

  /** Filing a log of distinct temporaries, then assigning: each temporary other than the target is described. */
  lemma FiledDescribes(g: Gen, log: seq<Quad>, count: nat, result: string, target: string)
    requires DistinctResults(log)
    ensures var r := Assign(FileLog(g, log).(tempCount := count), result, target);
      forall k | |g.quadruples| <= k < |r.quadruples| - 1 ::
        r.quadruples[k].result != target ==>
          r.quadruples[k].result in r.tempMap && r.tempMap[r.quadruples[k].result] == Describe(r.quadruples[k])
  {
    FileLogDescribes(g, log);
    FiledRows(g, log, count, result, target);
    var r := Assign(FileLog(g, log).(tempCount := count), result, target);
    var base := |g.quadruples|;
    forall k | base <= k < |r.quadruples| - 1
      ensures r.quadruples[k].result != target ==>
        r.quadruples[k].result in r.tempMap && r.tempMap[r.quadruples[k].result] == Describe(r.quadruples[k])
    {
      assert r.quadruples[k] == r.quadruples[base..base + |log|][k - base] == log[k - base];
    }
  }

  /**
    After a successful to_3ac every temporary it made is described in
    temp_map, unless the target itself is named like one.
  */
  lemma {:induction false} EmitDescribes(g: Gen, ts: seq<string>, target: string)
    requires Emit(g, ts, target).Ok?
    ensures var r := Emit(g, ts, target).value;
      forall k | |g.quadruples| <= k < |r.quadruples| - 1 ::
        r.quadruples[k].result != target ==>
          r.quadruples[k].result in r.tempMap && r.tempMap[r.quadruples[k].result] == Describe(r.quadruples[k])
  {
    EmitSteps(g, ts, target);
    ConvertDistinct(ts, g.tempCount);
    var (result, m) := Convert(ts, g.tempCount).value;
    FiledDescribes(g, m.log, m.count, result, target);
  }

  /**
    main's loop: a ValueError is reported and the line skipped; an IndexError
    ends the program.
  */
  function Run(g: Gen, es: seq<string>): (r: Result<Gen, Error>)
    ensures r.Err? ==> r.error == IndexError
    ensures r.Ok? && Aligned(g) ==> Aligned(r.value)
    ensures r.Ok? ==> g.tempCount <= r.value.tempCount && |g.quadruples| <= |r.value.quadruples|
    decreases |es|
  {
    if es == [] then Ok(g)
    else
      match ToTac(g, es[0])
      case Err(ValueError) => Run(g, es[1..])
      case Err(IndexError) => Err(IndexError)
      case Ok(g1) => Run(g1, es[1..])
  }

  /** Lines that do not have exactly one '=' leave the generator as it was. */
  lemma {:induction false} RunSkipsMalformed(g: Gen, es: seq<string>)
    requires forall k | 0 <= k < |es| :: CountChar(es[k], '=') != 1
    ensures Run(g, es) == Ok(g)
    decreases |es|
  {
    if es != [] {
      RunSkipsMalformed(g, es[1..]);
    }
  }
}
