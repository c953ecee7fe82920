/** Worked conversions: left associativity and precedence, one loop step per lemma. */
module ShuntingExamples {
  import opened Wrappers
  import opened Chars
  import opened Shunting

  lemma TempNames()
    ensures Temp(1) == "T1" && Temp(2) == "T2"
  {
  }

  lemma Classes()
    ensures IsOperand("a") && IsOperand("b") && IsOperand("c")
    ensures !IsOperand("+") && !IsOperand("-") && !IsOperand("*")
  {
    assert !IsAsciiAlnum("+"[0]) && !IsAsciiAlnum("-"[0]) && !IsAsciiAlnum("*"[0]);
  }

  /** The operator tokens are not parentheses. */
  lemma NotParens(op: string)
    requires IsBinOp(op)
    ensures op != "(" && op != ")"
  {
    assert op[0] != "("[0] && op[0] != ")"[0];
  }

  lemma {:induction false} ShiftAllStep(m: Machine, t: string, ts: seq<string>)
    requires Shift(m, t).Ok?
    ensures ShiftAll(m, [t] + ts) == ShiftAll(Shift(m, t).value, ts)
  {
    assert ([t] + ts)[0] == t;
    assert ([t] + ts)[1..] == ts;
  }

  const Start := Machine([], [], 0, [])

  /** Shifting an operand, a binary operator and an operand onto empty stacks. */
  lemma {:induction false} OperandOpOperand(x: string, op: string, y: string)
    requires IsOperand(x) && IsOperand(y) && IsBinOp(op) && !IsOperand(op)
    ensures ShiftAll(Start, [x, op, y]) == Ok(Machine([op], [x, y], 0, []))
  {
    NotParens(op);
    var m1 := Machine([], [x], 0, []);
    assert Start.values + [x] == [x];
    assert Shift(Start, x) == Ok(m1);
    var m2 := Machine([op], [x], 0, []);
    assert ReduceForOperator(m1, op) == Ok(m1);
    assert m1.ops + [op] == [op];
    assert Shift(m1, op) == Ok(m2);
    var m3 := Machine([op], [x, y], 0, []);
    assert m2.values + [y] == [x, y];
    assert Shift(m2, y) == Ok(m3);
    assert ShiftAll(m3, []) == Ok(m3);
    ShiftAllStep(m2, y, []);
    ShiftAllStep(m1, op, [y]);
    ShiftAllStep(Start, x, [op, y]);
    assert [y] + [] == [y];
    assert [op] + [y] == [op, y];
    assert [x] + [op, y] == [x, op, y];
  }

  const LeftLog1 := [Quad("-", "a", "b", "T1")]
  const LeftLog2 := LeftLog1 + [Quad("-", "T1", "c", "T2")]

  lemma LeftApply1()
    ensures ApplyOperator(Machine(["-"], ["a", "b"], 0, [])) == Ok(Machine([], ["T1"], 1, LeftLog1))
  {
    TempNames();
    assert ["a", "b"][..0] + ["T1"] == ["T1"];
  }

  lemma LeftShift()
    ensures Shift(Machine(["-"], ["a", "b"], 0, []), "-") == Ok(Machine(["-"], ["T1"], 1, LeftLog1))
  {
    Classes();
    NotParens("-");
    LeftApply1();
    var m3 := Machine(["-"], ["a", "b"], 0, []);
    var m4 := Machine([], ["T1"], 1, LeftLog1);
    assert ReduceForOperator(m3, "-") == Ok(m4);
    assert m4.ops + ["-"] == ["-"];
  }

  lemma LeftOperand()
    ensures Shift(Machine(["-"], ["T1"], 1, LeftLog1), "c") == Ok(Machine(["-"], ["T1", "c"], 1, LeftLog1))
  {
    Classes();
    assert ["T1"] + ["c"] == ["T1", "c"];
  }

  lemma LeftReduce()
    ensures ReduceAll(Machine(["-"], ["T1", "c"], 1, LeftLog1)) == Ok(Machine([], ["T2"], 2, LeftLog2))
  {
    TempNames();
    var m6 := Machine(["-"], ["T1", "c"], 1, LeftLog1);
    var m7 := Machine([], ["T2"], 2, LeftLog2);
    assert ["T1", "c"][..0] + ["T2"] == ["T2"];
    assert ApplyOperator(m6) == Ok(m7);
  }

  lemma LeftLoop()
    ensures ShiftAll(Start, ["a", "-", "b", "-", "c"]) == Ok(Machine(["-"], ["T1", "c"], 1, LeftLog1))
  {
    Classes();
    OperandOpOperand("a", "-", "b");
    LeftShift();
    LeftOperand();
    var m3 := Machine(["-"], ["a", "b"], 0, []);
    var m5 := Machine(["-"], ["T1"], 1, LeftLog1);
    var m6 := Machine(["-"], ["T1", "c"], 1, LeftLog1);
    assert ShiftAll(m6, []) == Ok(m6);
    ShiftAllStep(m5, "c", []);
    ShiftAllStep(m3, "-", ["c"]);
    assert ["c"] + [] == ["c"];
    assert ["-"] + ["c"] == ["-", "c"];
    ShiftAllAppend(Start, ["a", "-", "b"], ["-", "c"]);
    assert ["a", "-", "b"] + ["-", "c"] == ["a", "-", "b", "-", "c"];
  }

  /** a - b - c groups to the left: (a - b) first, then that minus c. */
  lemma LeftAssociative()
    ensures Convert(["a", "-", "b", "-", "c"], 0)
      == Ok(("T2", Machine([], ["T2"], 2, [Quad("-", "a", "b", "T1"), Quad("-", "T1", "c", "T2")])))
  {
    LeftLoop();
    LeftReduce();
    assert LeftLog2 == [Quad("-", "a", "b", "T1"), Quad("-", "T1", "c", "T2")];
  }

  const ProductLog1 := [Quad("*", "b", "c", "T1")]
  const ProductLog2 := ProductLog1 + [Quad("+", "a", "T1", "T2")]

  lemma ProductShift()
    ensures Shift(Machine(["+"], ["a", "b"], 0, []), "*") == Ok(Machine(["+", "*"], ["a", "b"], 0, []))
  {
    Classes();
    NotParens("*");
    var m3 := Machine(["+"], ["a", "b"], 0, []);
    assert ReduceForOperator(m3, "*") == Ok(m3);
    assert ["+"] + ["*"] == ["+", "*"];
  }

  lemma ProductOperand()
    ensures Shift(Machine(["+", "*"], ["a", "b"], 0, []), "c") == Ok(Machine(["+", "*"], ["a", "b", "c"], 0, []))
  {
    Classes();
    assert ["a", "b"] + ["c"] == ["a", "b", "c"];
  }

  lemma ProductApply1()
    ensures ApplyOperator(Machine(["+", "*"], ["a", "b", "c"], 0, [])) == Ok(Machine(["+"], ["a", "T1"], 1, ProductLog1))
  {
    TempNames();
    assert ["+", "*"][..1] == ["+"];
    assert ["a", "b", "c"][..1] + ["T1"] == ["a", "T1"];
  }

  lemma ProductApply2()
    ensures ApplyOperator(Machine(["+"], ["a", "T1"], 1, ProductLog1)) == Ok(Machine([], ["T2"], 2, ProductLog2))
  {
    TempNames();
    assert ["a", "T1"][..0] + ["T2"] == ["T2"];
  }

  lemma ProductLoop()
    ensures ShiftAll(Start, ["a", "+", "b", "*", "c"]) == Ok(Machine(["+", "*"], ["a", "b", "c"], 0, []))
  {
    Classes();
    OperandOpOperand("a", "+", "b");
    ProductShift();
    ProductOperand();
    var m3 := Machine(["+"], ["a", "b"], 0, []);
    var m4 := Machine(["+", "*"], ["a", "b"], 0, []);
    var m5 := Machine(["+", "*"], ["a", "b", "c"], 0, []);
    assert ShiftAll(m5, []) == Ok(m5);
    ShiftAllStep(m4, "c", []);
    ShiftAllStep(m3, "*", ["c"]);
    assert ["c"] + [] == ["c"];
    assert ["*"] + ["c"] == ["*", "c"];
    ShiftAllAppend(Start, ["a", "+", "b"], ["*", "c"]);
    assert ["a", "+", "b"] + ["*", "c"] == ["a", "+", "b", "*", "c"];
  }

  lemma ProductReduce()
    ensures ReduceAll(Machine(["+", "*"], ["a", "b", "c"], 0, [])) == Ok(Machine([], ["T2"], 2, ProductLog2))
  {
    ProductApply1();
    ProductApply2();
    var m6 := Machine(["+"], ["a", "T1"], 1, ProductLog1);
    assert ReduceAll(m6) == Ok(Machine([], ["T2"], 2, ProductLog2));
  }

  /** In a + b * c the product is made first and the sum uses it. */
  lemma ProductFirst(ts: seq<string>)
    requires ts == ["a", "+", "b", "*", "c"]
    ensures Convert(ts, 0)
      == Ok(("T2", Machine([], ["T2"], 2, [Quad("*", "b", "c", "T1"), Quad("+", "a", "T1", "T2")])))
  {
    ProductLoop();
    ProductReduce();
    assert ProductLog2 == [Quad("*", "b", "c", "T1"), Quad("+", "a", "T1", "T2")];
  }

  /** An unmatched ')' pops the empty operator stack: IndexError. */
  lemma UnmatchedParen()
    ensures Convert(["a", ")"], 0) == Err(IndexError)
  {
    Classes();
    var m1 := Machine([], ["a"], 0, []);
    assert Start.values + ["a"] == ["a"];
    assert Shift(Start, "a") == Ok(m1);
    assert !IsOperand(")") by {
      assert !IsAsciiAlnum(")"[0]);
    }
    assert ")" != "(" by {
      assert ")"[0] != "("[0];
    }
    assert Shift(m1, ")") == Err(IndexError);
    ShiftAllStep(Start, "a", [")"]);
    assert ["a"] + [")"] == ["a", ")"];
  }
}
