/** Whole updates of a fresh calculator, each given the tree the parse
    engine returns for its text, following the behaviour the repository's
    own tests describe where the code backs them. */
module Scenarios {
  import opened Wrappers
  import opened Errors
  import opened Ast
  import opened Numbers
  import opened Typing
  import opened Semantics
  import opened Lowering
  import opened Hashing
  import opened ParseTree
  import opened AstBuilder
  import opened AstBuilderLaws
  import opened Calculator
  import InputBuffer

  /** Typing the whole text of `e` into a fresh calculator, when the parse
      engine returns the canonical tree of `e` and the back end works,
      leaves the text in the buffer, caches one function, and yields the
      value of `e`. */
  lemma FreshEvaluation(e: Expr, ff: U64 -> string, text: seq<InputBuffer.Byte>, env: Environment, out: Outside)
    requires text == Print(e, ff)
    requires FloatsRoundTrip(e, env.parseFloat, ff)
    requires out.parsed == Some(SourceNode(e, ff)) && out.backendError.None?
    ensures InputBuffer.UpdateRequires(New().buffer, text, 0, 0, |text|)
    ensures var o := UpdateInput(New(), text, 0, 0, |text|, env, out);
      && o.result == Ok(Interpret(e, env.floats))
      && InputBuffer.AsStr(o.state.buffer) == text
      && o.state.cache.Keys == {HashAst(env.hasher, e)}
      && (o.result.value.FloatValue? <==> PromotesToFloat(e))
  {
    SourceNodeHasNoErrors(e, ff);
    LowerSourceNode(text, e, env.parseFloat, ff);
    CompiledCallCorrect(e, env.floats, out.now);
    InputBuffer.UpdateReproducesInput(New().buffer, text, 0, 0);
    PromotionLaw(e);
    LoweringCorrect(e, env.floats);
  }

  function Lit(n: I64): Expr { Integer(n) }

  /** The tree of `1 + 2 * 3`: multiplication binds tighter. */
  const OnePlusTwoTimesThree: Expr := BinaryOp(Lit(1), Add, BinaryOp(Lit(2), Multiply, Lit(3)))

  /** The expression `(2 + 3) * 4`. */
  const SumTimesFour: Expr := BinaryOp(Parenthesized(BinaryOp(Lit(2), Add, Lit(3))), Multiply, Lit(4))

  /** The texts the scenarios type, as bytes. */
  const PrecedenceText: seq<InputBuffer.Byte> := "1 + 2 * 3"
  const ParenthesesText: seq<InputBuffer.Byte> := "(2 + 3) * 4"
  const NegativeText: seq<InputBuffer.Byte> := "-42"
  const DivisionText: seq<InputBuffer.Byte> := "1 / 2"
  const IncompleteText: seq<InputBuffer.Byte> := "1 +"

  lemma SmallLiterals()
    ensures FormatI64(1) == "1" && FormatI64(2) == "2" && FormatI64(3) == "3" && FormatI64(4) == "4"
  {
  }

  lemma OnePlusTwoTimesThreeText(ff: U64 -> string)
    ensures Print(OnePlusTwoTimesThree, ff) == "1 + 2 * 3"
  {
    SmallLiterals();
    assert Print(BinaryOp(Lit(2), Multiply, Lit(3)), ff) == "2 * 3";
  }

  lemma OnePlusTwoTimesThreeValue(fs: FloatSemantics)
    ensures Interpret(OnePlusTwoTimesThree, fs) == IntValue(7)
  {
    assert IntArith(Multiply, 2, 3) == 6;
    assert Interpret(BinaryOp(Lit(2), Multiply, Lit(3)), fs) == IntValue(6);
    assert IntArith(Add, 1, 6) == 7;
  }

  /** `1 + 2 * 3` evaluates to the integer 7. */
  lemma PrecedenceScenario(ff: U64 -> string, env: Environment, out: Outside)
    requires out.backendError.None? && out.parsed == Some(SourceNode(OnePlusTwoTimesThree, ff))
    ensures UpdateInput(New(), PrecedenceText, 0, 0, |PrecedenceText|, env, out).result == Ok(IntValue(7))
  {
    OnePlusTwoTimesThreeText(ff);
    FreshEvaluation(OnePlusTwoTimesThree, ff, PrecedenceText, env, out);
    OnePlusTwoTimesThreeValue(env.floats);
  }

  lemma SumTimesFourText(ff: U64 -> string)
    ensures Print(SumTimesFour, ff) == "(2 + 3) * 4"
  {
    SmallLiterals();
    assert Print(BinaryOp(Lit(2), Add, Lit(3)), ff) == "2 + 3";
  }

  /** The `parenthesized_expression` branch of the AST builder, taken
      through a whole update: a tree for `(2 + 3) * 4` whose parentheses
      are a `parenthesized_expression` node with an `inner` field lowers
      through that branch and evaluates to the integer 20. The calculator's
      grammar has no rule that builds such a node, so this describes the
      branch, not what the program answers for that text. */
  lemma ParenthesizedBranchScenario(ff: U64 -> string, env: Environment, out: Outside)
    requires out.backendError.None? && out.parsed == Some(SourceNode(SumTimesFour, ff))
    ensures UpdateInput(New(), ParenthesesText, 0, 0, |ParenthesesText|, env, out).result == Ok(IntValue(20))
  {
    SumTimesFourText(ff);
    FreshEvaluation(SumTimesFour, ff, ParenthesesText, env, out);
    SumTimesFourValue(env.floats);
  }

  lemma SumTimesFourValue(fs: FloatSemantics)
    ensures Interpret(SumTimesFour, fs) == IntValue(20)
  {
    assert IntArith(Add, 2, 3) == 5;
    assert Interpret(BinaryOp(Lit(2), Add, Lit(3)), fs) == IntValue(5);
    assert Interpret(Parenthesized(BinaryOp(Lit(2), Add, Lit(3))), fs) == IntValue(5);
    assert IntArith(Multiply, 5, 4) == 20;
  }

  /** `-42` is one `number` token, sign included, and evaluates to the
      integer -42. */
  lemma NegativeLiteralScenario(ff: U64 -> string, env: Environment, out: Outside)
    requires out.backendError.None? && out.parsed == Some(SourceNode(Lit(-42), ff))
    ensures Print(Lit(-42), ff) == "-42"
    ensures UpdateInput(New(), NegativeText, 0, 0, |NegativeText|, env, out).result == Ok(IntValue(-42))
  {
    assert NatToDigits(42) == "42";
    FreshEvaluation(Lit(-42), ff, NegativeText, env, out);
  }

  /** `1 / 2` is accepted: the slash lowers to division, which promotes
      both operands to floats. */
  lemma DivisionIsAccepted(ff: U64 -> string, env: Environment, out: Outside)
    requires out.backendError.None?
    requires out.parsed == Some(SourceNode(BinaryOp(Lit(1), Divide, Lit(2)), ff))
    ensures UpdateInput(New(), DivisionText, 0, 0, |DivisionText|, env, out).result
      == Ok(FloatValue(env.floats.fdiv(env.floats.fromSint(1), env.floats.fromSint(2))))
  {
    SmallLiterals();
    FreshEvaluation(BinaryOp(Lit(1), Divide, Lit(2)), ff, DivisionText, env, out);
  }

  /** The tree the grammar's error recovery builds for `1 +`: the right
      operand is a zero-width MISSING `number` node, which is not an
      `ERROR` node. */
  function IncompleteSum(): Node {
    var one := Node("expression", [Node("number", [], map[], Some("1"), Span(0, 1))], map[], Some("1"), Span(0, 1));
    var missing := Node("expression", [Node("number", [], map[], Some(""), Span(3, 0))], map[], Some(""), Span(3, 0));
    var sum := Node("binary_expression", [one, Node("+", [], map[], Some("+"), Span(2, 1)), missing],
                    map["left" := 0, "operator" := 1, "right" := 2], Some("1 +"), Span(0, 3));
    Node("source", [Node("expression", [sum], map[], Some("1 +"), Span(0, 3))], map[], Some("1 +"), Span(0, 3))
  }

  lemma IncompleteSumIsValid()
    ensures ErrorNodes(IncompleteSum()) == []
  {
    var t := IncompleteSum();
    var sum := t.children[0].children[0];
    ThreeChildren(sum);
    assert Preorder(sum.children[0]) == [sum.children[0], sum.children[0].children[0]];
    assert Preorder(sum.children[2]) == [sum.children[2], sum.children[2].children[0]];
    assert Preorder(t) == [t, t.children[0]] + Preorder(sum);
  }

  lemma IncompleteSumLowering(input: string, pf: FloatParser)
    ensures NodeToExpr(input, IncompleteSum(), pf) == Err(MissingOperandError)
  {
    var t := IncompleteSum();
    var sum := t.children[0].children[0];
    BinaryFields(sum, sum.children[0], sum.children[1], sum.children[2]);
    assert Numbers.ParseI64("1") == Some(1);
    assert NodeToExpr(input, sum.children[0], pf) == Ok(Integer(1));
    assert Numbers.ParseI64("") == None;
    assert NodeToExpr(input, sum.children[2].children[0], pf).Err?;
  }

  /** The diagnostic `1 +` yields. */
  const MissingOperandError: CalculatorError :=
    CalculatorError("", Span(3, 0), NumberError("Failed to parse integer"), Some("Make sure the number is a valid integer"))

  /** `1 +` passes validation and fails in lowering with an invalid-number
      diagnostic at the missing operand; the tree is kept and the cache is
      left empty. */
  lemma IncompleteSumIsInvalidNumber(env: Environment, out: Outside)
    requires out.parsed == Some(IncompleteSum())
    ensures var o := UpdateInput(New(), IncompleteText, 0, 0, |IncompleteText|, env, out);
      o.result == Err(MissingOperandError) && o.state.cache == map[] && o.state.lastTree == out.parsed
  {
    IncompleteSumIsValid();
    IncompleteSumLowering(IncompleteText, env.parseFloat);
    LoweringFailureKeepsCache(New(), IncompleteText, 0, 0, |IncompleteText|, env, out);
  }
}
