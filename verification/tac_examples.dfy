/** A worked line for the generator of 3ac/3ac.py. */
module TacExamples {
  import opened Wrappers
  import opened Chars
  import opened PyStr
  import opened Shunting
  import opened ShuntingExamples
  import opened Tac

  lemma ExampleTokens()
    ensures ExprTokens("a+b*c") == ["a", "+", "b", "*", "c"]
  {
    Classes();
    ExprTokensOperand("c", []);
    assert "c" + [] == "c";
    ExprTokensSymbol('*', "c");
    assert ['*'] + "c" == "*c";
    ExprTokensOperand("b", "*c");
    assert "b" + "*c" == "b*c";
    ExprTokensSymbol('+', "b*c");
    assert ['+'] + "b*c" == "+b*c";
    ExprTokensOperand("a", "+b*c");
    assert "a" + "+b*c" == "a+b*c";
  }

  /** Both sides of the line are already stripped. */
  lemma ExampleStripped(lhs: string, rhs: string)
    requires lhs == "x" && rhs == "a+b*c"
    ensures Strip(lhs) == lhs && Strip(rhs) == rhs
  {
    assert rhs[0] == 'a' && rhs[|rhs| - 1] == 'c';
    StripClean(lhs);
    StripClean(rhs);
  }

  /** The line splits into x and a+b*c, whose tokens are emitted into x. */
  lemma ExampleLine(line: string, ts: seq<string>)
    requires line == "x=a+b*c" && ts == ["a", "+", "b", "*", "c"]
    ensures ToTac(Init(), line) == Emit(Init(), ts, "x")
  {
    var lhs, rhs := "x", "a+b*c";
    ExampleStripped(lhs, rhs);
    ExampleTokens();
    assert line == lhs + "=" + rhs;
    ToTacLine(Init(), lhs, rhs);
  }

  lemma ExampleDescribe()
    ensures Describe(ProductLog2[0]) == "b * c" && Describe(ProductLog2[1]) == "a + T1"
  {
  }

  lemma ExampleFiled()
    ensures FileLog(Init(), ProductLog2) == Gen(0, ProductLog2, [TripleOf(ProductLog2[0]), TripleOf(ProductLog2[1])],
      [0, 1], [TripleOf(ProductLog2[0]), TripleOf(ProductLog2[1])], map["T1" := "b * c", "T2" := "a + T1"])
  {
    ExampleDescribe();
    var log := ProductLog2;
    var g1 := Record(Init(), log[0], "T1", "b * c");
    var g2 := Record(g1, log[1], "T2", "a + T1");
    assert log[1..][1..] == [];
    assert FileLog(g2, []) == g2;
    assert FileLog(g1, log[1..]) == g2;
    assert FileLog(Init(), log) == g2;
  }

  /** Emitting the tokens of a+b*c into x on a fresh generator. */
  lemma ProductEmit(ts: seq<string>)
    requires ts == ["a", "+", "b", "*", "c"]
    ensures Emit(Init(), ts, "x") == Ok(Assign(FileLog(Init(), ProductLog2).(tempCount := 2), "T2", "x"))
  {
    ProductFirst(ts);
    EmitSteps(Init(), ts, "x");
  }

  /** The assignment row of x=a+b*c, after the two operator rows have been filed. */
  lemma ProductAssign(g: Gen)
    requires g.quadruples == ProductLog2 && g.tempCount == 2
    requires g.tempMap == map["T1" := "b * c", "T2" := "a + T1"]
    ensures var r := Assign(g, "T2", "x");
      && r.quadruples == [Quad("*", "b", "c", "T1"), Quad("+", "a", "T1", "T2"), Quad("=", "T2", "", "x")]
      && r.tempCount == 2
      && r.tempMap == map["T1" := "b * c", "T2" := "a + T1", "x" := "T2"]
  {
  }

  /**
    x=a+b*c on a fresh generator: the product, then the sum, then the
    assignment; temp_map describes both temporaries and sends x to T2.
  */
  lemma ProductLine(line: string, ts: seq<string>)
    requires line == "x=a+b*c" && ts == ["a", "+", "b", "*", "c"]
    ensures ToTac(Init(), line).Ok?
    ensures var g := ToTac(Init(), line).value;
      && g.quadruples == [Quad("*", "b", "c", "T1"), Quad("+", "a", "T1", "T2"), Quad("=", "T2", "", "x")]
      && g.tempCount == 2
      && g.tempMap == map["T1" := "b * c", "T2" := "a + T1", "x" := "T2"]
  {
    ExampleLine(line, ts);
    ProductEmit(ts);
    ExampleFiled();
    ProductAssign(FileLog(Init(), ProductLog2).(tempCount := 2));
  }
}
