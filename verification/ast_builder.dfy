/** The AST builder `node_to_expr`: lowers a validated parse tree to an
    `Expr`, or reports the first problem it meets as a diagnostic. */
module AstBuilder {
  import opened Wrappers
  import opened Errors
  import opened Ast
  import opened Numbers
  import opened ParseTree

  /** Float literal parsing (`str::parse::<f64>()`), a parameter of the
      model: the bit pattern of the parsed number, or `None`. */
  type FloatParser = string -> Option<U64>

  /** A diagnostic at a node. The calculator's own named source is created
      empty and never refilled, so most diagnostics carry empty text. */
  function ErrorAt(n: Node, kind: CalcErrorKind, help: string): CalculatorError {
    CalculatorError("", n.span, kind, Some(help))
  }

  /** The operator for an operator token's text, if it is one of the four. */
  function OperatorFromText(t: string): (r: Option<OpKind>)
    ensures r.Some? <==> t in {"+", "-", "*", "/"}
  {
    if t == "+" then Some(Add)
    else if t == "-" then Some(Subtract)
    else if t == "*" then Some(Multiply)
    else if t == "/" then Some(Divide)
    else None
  }

  /** `node_to_expr`. `input` is the text the tree was parsed from; it is
      attached to the one diagnostic that carries source text. Each node
      kind has its own branch below. */
  function NodeToExpr(input: string, node: Node, parseFloat: FloatParser): (r: Result<Expr, CalculatorError>)
    ensures r.Err? ==> r.error.help.Some?
    decreases node, 2
  {
    if node.kind == "ERROR" then Err(ErrorNodeDiagnostic(node))
    else if node.kind == "source" || node.kind == "expression" then WrapperToExpr(input, node, parseFloat)
    else if node.kind == "parenthesized_expression" then ParenToExpr(input, node, parseFloat)
    else if node.kind == "number" then NumberToExpr(node)
    else if node.kind == "float" then FloatToExpr(node, parseFloat)
    else if node.kind == "binary_expression" then BinaryToExpr(input, node, parseFloat)
    else
      Err(ErrorAt(node, ParseError("Unexpected node type '" + node.kind + "'"),
                  "Expression must be a number, float, or binary operation"))
  }

  /** The node's text, or a placeholder when it is not valid UTF-8. */
  function NodeText(node: Node): string {
    node.text.UnwrapOr("invalid utf8")
  }

  /** An `ERROR` node met while lowering. */
  function ErrorNodeDiagnostic(node: Node): CalculatorError {
    ErrorAt(node, ParseError("Syntax error near '" + node.text.UnwrapOr("Syntax error") + "'"),
            "Check the expression syntax.")
  }

  /** The `source` and `expression` arms: lower the first child. */
  function WrapperToExpr(input: string, node: Node, parseFloat: FloatParser): (r: Result<Expr, CalculatorError>)
    requires node.kind == "source" || node.kind == "expression"
    ensures r.Err? ==> r.error.help.Some?
    decreases node, 0
  {
    match Child(node, 0)
    case None =>
      if node.kind == "source" then Err(ErrorAt(node, ParseError("Empty expression"), "Expression cannot be empty"))
      else Err(ErrorAt(node, ParseError("Empty expression node"), "Expression node must contain a value"))
    case Some(child) => NodeToExpr(input, child, parseFloat)
  }

  /** The `parenthesized_expression` arm: lower the `inner` field. */
  function ParenToExpr(input: string, node: Node, parseFloat: FloatParser): (r: Result<Expr, CalculatorError>)
    ensures r.Err? ==> r.error.help.Some?
    decreases node, 0
  {
    match ChildByFieldName(node, "inner")
    case None =>
      Err(CalculatorError(input, node.span, ParseError("Empty parentheses"), Some("Parentheses cannot be empty")))
    case Some(inner) =>
      match NodeToExpr(input, inner, parseFloat)
      case Err(e) => Err(e)
      case Ok(innerExpr) => Ok(Parenthesized(innerExpr))
  }

  /** The `number` arm: the text must parse as an `i64`. */
  function NumberToExpr(node: Node): (r: Result<Expr, CalculatorError>)
    ensures r.Err? ==> r.error.help.Some?
  {
    match ParseI64(NodeText(node))
    case Some(n) => Ok(Integer(n))
    case None => Err(ErrorAt(node, NumberError("Failed to parse integer"), "Make sure the number is a valid integer"))
  }

  /** The `float` arm: the text must parse as an `f64`. */
  function FloatToExpr(node: Node, parseFloat: FloatParser): (r: Result<Expr, CalculatorError>)
    ensures r.Err? ==> r.error.help.Some?
  {
    match parseFloat(NodeText(node))
    case Some(x) => Ok(Float(x))
    case None =>
      Err(ErrorAt(node, NumberError("Failed to parse float"), "Make sure the number is a valid floating point number"))
  }

  /** The operator token's text, if the node has one and it is valid UTF-8. */
  function OperatorText(node: Node): Option<string> {
    match ChildByFieldName(node, "operator")
    case None => None
    case Some(o) => o.text
  }

  /** The `binary_expression` arm: the left operand is found and lowered
      first, then the operator is read, then the right operand is found and
      lowered; the first failure is the result. */
  function BinaryToExpr(input: string, node: Node, parseFloat: FloatParser): (r: Result<Expr, CalculatorError>)
    ensures r.Err? ==> r.error.help.Some?
    decreases node, 1
  {
    match ChildByFieldName(node, "left")
    case None => Err(ErrorAt(node, ParseError("Missing left operand"), "Binary expression must have a left operand"))
    case Some(left) =>
      match NodeToExpr(input, left, parseFloat)
      case Err(e) => Err(e)
      case Ok(leftExpr) =>
        match OperatorText(node)
        case None => Err(ErrorAt(node, ParseError("Missing operator"), "Binary expression must have an operator"))
        case Some(t) =>
          match OperatorFromText(t)
          case None => Err(ErrorAt(node, InvalidOperator(t), "Only +, -, *, and / operators are supported"))
          case Some(op) => RightToExpr(input, node, parseFloat, leftExpr, op)
  }

  /** The rest of the `binary_expression` arm, once the left operand and
      the operator are known. */
  function RightToExpr(input: string, node: Node, parseFloat: FloatParser, leftExpr: Expr, op: OpKind)
    : (r: Result<Expr, CalculatorError>)
    ensures r.Err? ==> r.error.help.Some?
    decreases node, 0
  {
    match ChildByFieldName(node, "right")
    case None => Err(ErrorAt(node, ParseError("Missing right operand"), "Binary expression must have a right operand"))
    case Some(right) =>
      match NodeToExpr(input, right, parseFloat)
      case Err(e) => Err(e)
      case Ok(rightExpr) => Ok(BinaryOp(leftExpr, op, rightExpr))
  }
}

module AstBuilderLaws {
  import opened Wrappers
  import opened Errors
  import opened Ast
  import opened Numbers
  import opened ParseTree
  import opened AstBuilder

  /** The kind of the diagnostic a lowering produced, if any. */
  function ErrKind(r: Result<Expr, CalculatorError>): Option<CalcErrorKind> {
    if r.Err? then Some(r.error.kind) else None
  }

  /** The left operand is checked first: its absence, then its own
      failure, is the result. */
  lemma BinaryLeftChecks(input: string, node: Node, pf: FloatParser)
    requires node.kind == "binary_expression"
    ensures var r := NodeToExpr(input, node, pf);
      var left := ChildByFieldName(node, "left");
      && (left.None? ==> ErrKind(r) == Some(ParseError("Missing left operand")))
      && (left.Some? && NodeToExpr(input, left.value, pf).Err? ==> r == NodeToExpr(input, left.value, pf))
  {
  }

  /** Once the left operand lowers, the operator is read: a missing one is
      a parse error, an unknown one an invalid operator carrying its text. */
  lemma BinaryOperatorChecks(input: string, node: Node, pf: FloatParser)
    requires node.kind == "binary_expression"
    requires ChildByFieldName(node, "left").Some?
    requires NodeToExpr(input, ChildByFieldName(node, "left").value, pf).Ok?
    ensures var r := NodeToExpr(input, node, pf);
      var opText := OperatorText(node);
      && (opText.None? ==> ErrKind(r) == Some(ParseError("Missing operator")))
      && (opText.Some? && opText.value !in {"+", "-", "*", "/"} ==> ErrKind(r) == Some(InvalidOperator(opText.value)))
      && (opText.Some? && opText.value in {"+", "-", "*", "/"} ==>
            r == RightToExpr(input, node, pf, NodeToExpr(input, ChildByFieldName(node, "left").value, pf).value,
                             OperatorFromText(opText.value).value))
  {
  }

  /** The right operand is checked last: its absence, then its own failure,
      is the result; otherwise the node lowers to the operator applied to
      the two operands. */
  lemma BinaryRightChecks(input: string, node: Node, pf: FloatParser, l: Expr, op: OpKind)
    ensures var r := RightToExpr(input, node, pf, l, op);
      var right := ChildByFieldName(node, "right");
      && (right.None? ==> ErrKind(r) == Some(ParseError("Missing right operand")))
      && (right.Some? && NodeToExpr(input, right.value, pf).Err? ==> r == NodeToExpr(input, right.value, pf))
      && (right.Some? && NodeToExpr(input, right.value, pf).Ok? ==>
            r == Ok(BinaryOp(l, op, NodeToExpr(input, right.value, pf).value)))
  {
  }

  /** Operator handling in a binary node, in the order the checks run: a
      missing left operand, then the left operand's own failure, then a
      missing or unknown operator, then the right operand. The four operator
      texts map to the four operators; any other text is an invalid
      operator carrying that text. */
  lemma BinaryCheckOrder(input: string, node: Node, pf: FloatParser)
    requires node.kind == "binary_expression"
    ensures var r := NodeToExpr(input, node, pf);
      var left := ChildByFieldName(node, "left");
      var opText := OperatorText(node);
      var right := ChildByFieldName(node, "right");
      && (left.None? ==> ErrKind(r) == Some(ParseError("Missing left operand")))
      && (left.Some? && NodeToExpr(input, left.value, pf).Err? ==> r == NodeToExpr(input, left.value, pf))
      && (left.Some? && NodeToExpr(input, left.value, pf).Ok? ==>
            && (opText.None? ==> ErrKind(r) == Some(ParseError("Missing operator")))
            && (opText.Some? && opText.value !in {"+", "-", "*", "/"} ==> ErrKind(r) == Some(InvalidOperator(opText.value)))
            && (opText.Some? && opText.value in {"+", "-", "*", "/"} ==>
                  && (right.None? ==> ErrKind(r) == Some(ParseError("Missing right operand")))
                  && (right.Some? && NodeToExpr(input, right.value, pf).Err? ==> r == NodeToExpr(input, right.value, pf))
                  && (right.Some? && NodeToExpr(input, right.value, pf).Ok? ==>
                        r == Ok(BinaryOp(NodeToExpr(input, left.value, pf).value,
                                         OperatorFromText(opText.value).value,
                                         NodeToExpr(input, right.value, pf).value)))))
  {
    BinaryLeftChecks(input, node, pf);
    var left := ChildByFieldName(node, "left");
    if left.Some? && NodeToExpr(input, left.value, pf).Ok? {
      BinaryOperatorChecks(input, node, pf);
      var opText := OperatorText(node);
      if opText.Some? && opText.value in {"+", "-", "*", "/"} {
        BinaryRightChecks(input, node, pf, NodeToExpr(input, left.value, pf).value, OperatorFromText(opText.value).value);
      }
    }
  }

  /** The operator texts and the operators they stand for. */
  lemma OperatorTexts()
    ensures OperatorFromText("+") == Some(Add)
    ensures OperatorFromText("-") == Some(Subtract)
    ensures OperatorFromText("*") == Some(Multiply)
    ensures OperatorFromText("/") == Some(Divide)
  {
  }

  /** The non-binary node kinds: wrappers unwrap their first child or fail
      when it is absent, integer literals fail exactly when their text is
      not an `i64`, and error nodes and unknown kinds are syntax errors. */
  lemma OtherNodeKinds(input: string, node: Node, pf: FloatParser)
    ensures var r := NodeToExpr(input, node, pf);
      && (node.kind in {"source", "expression"} && |node.children| > 0 ==>
            r == NodeToExpr(input, node.children[0], pf))
      && (node.kind in {"source", "expression"} && |node.children| == 0 ==>
            r.Err? && r.error.kind.ParseError?)
      && (node.kind == "number" ==>
            (r.Ok? <==> ParseI64(node.text.UnwrapOr("invalid utf8")).Some?)
            && (r.Ok? ==> r.value == Integer(ParseI64(node.text.UnwrapOr("invalid utf8")).value))
            && (r.Err? ==> r.error.kind == NumberError("Failed to parse integer")))
      && (node.kind == "float" ==>
            (r.Ok? <==> pf(NodeText(node)).Some?)
            && (r.Ok? ==> r.value == Float(pf(NodeText(node)).value))
            && (r.Err? ==> ErrKind(r) == Some(NumberError("Failed to parse float"))))
      && ((node.kind !in {"source", "expression", "parenthesized_expression", "number", "float", "binary_expression"})
            ==> r.Err? && r.error.kind.ParseError?)
  {
    if node.kind in {"source", "expression"} {
      WrapperKind(input, node, pf);
    } else if node.kind == "number" {
      NumberKind(input, node, pf);
    } else if node.kind == "float" {
      FloatKind(input, node, pf);
    } else if node.kind !in {"parenthesized_expression", "binary_expression"} {
      UnknownKind(input, node, pf);
    }
  }

  lemma WrapperKind(input: string, node: Node, pf: FloatParser)
    requires node.kind in {"source", "expression"}
    ensures var r := NodeToExpr(input, node, pf);
      && (|node.children| > 0 ==> r == NodeToExpr(input, node.children[0], pf))
      && (|node.children| == 0 ==> r.Err? && r.error.kind.ParseError?)
  {
  }

  lemma NumberKind(input: string, node: Node, pf: FloatParser)
    requires node.kind == "number"
    ensures var r := NodeToExpr(input, node, pf);
      && (r.Ok? <==> ParseI64(node.text.UnwrapOr("invalid utf8")).Some?)
      && (r.Ok? ==> r.value == Integer(ParseI64(node.text.UnwrapOr("invalid utf8")).value))
      && (r.Err? ==> r.error.kind == NumberError("Failed to parse integer"))
  {
  }

  lemma FloatKind(input: string, node: Node, pf: FloatParser)
    requires node.kind == "float"
    ensures var r := NodeToExpr(input, node, pf);
      && (r.Ok? <==> pf(NodeText(node)).Some?)
      && (r.Ok? ==> r.value == Float(pf(NodeText(node)).value))
      && (r.Err? ==> ErrKind(r) == Some(NumberError("Failed to parse float")))
  {
  }

  lemma UnknownKind(input: string, node: Node, pf: FloatParser)
    requires node.kind !in {"source", "expression", "parenthesized_expression", "number", "float", "binary_expression"}
    ensures var r := NodeToExpr(input, node, pf); r.Err? && r.error.kind.ParseError?
  {
  }

  // ===== The canonical tree of an expression =====

  /** The operator token's text. */
  function OpText(op: OpKind): (t: string)
    ensures OperatorFromText(t) == Some(op)
  {
    match op
    case Add => "+"
    case Subtract => "-"
    case Multiply => "*"
    case Divide => "/"
  }

  /** A source spelling of an expression, one space around each operator;
      `formatFloat` spells a float literal. */
  function Print(e: Expr, formatFloat: U64 -> string): string {
    match e
    case Integer(n) => FormatI64(n)
    case Float(x) => formatFloat(x)
    case BinaryOp(l, op, r) => Print(l, formatFloat) + " " + OpText(op) + " " + Print(r, formatFloat)
    case Parenthesized(i) => "(" + Print(i, formatFloat) + ")"
  }

  function Token(t: string, at: nat): Node {
    Node(t, [], map[], Some(t), Span(at, |t|))
  }

  /** The `expression` node wrapping the tree of `e`, starting at byte `at`. */
  function ExpressionNode(e: Expr, ff: U64 -> string, at: nat): Node
    decreases e, 1
  {
    Node("expression", [ExprNode(e, ff, at)], map[], Some(Print(e, ff)), Span(at, |Print(e, ff)|))
  }

  /** The canonical tree of `e`: one node per constructor, spanning the
      bytes of `Print(e)`, with a `parenthesized_expression` node (field
      `inner`) for parentheses. It follows the structure of `e`, not the
      grammar's precedence: `Print` adds no parentheses, so for a
      left-nested operator chain a parser may build a different tree. */
  function ExprNode(e: Expr, ff: U64 -> string, at: nat): Node
    decreases e, 0
  {
    var text := Print(e, ff);
    match e
    case Integer(n) => Node("number", [], map[], Some(text), Span(at, |text|))
    case Float(x) => Node("float", [], map[], Some(text), Span(at, |text|))
    case BinaryOp(l, op, r) =>
      var opAt := at + |Print(l, ff)| + 1;
      Node("binary_expression",
           [ExpressionNode(l, ff, at), Token(OpText(op), opAt), ExpressionNode(r, ff, opAt + 2)],
           map["left" := 0, "operator" := 1, "right" := 2], Some(text), Span(at, |text|))
    case Parenthesized(i) =>
      Node("parenthesized_expression",
           [Token("(", at), ExpressionNode(i, ff, at + 1), Token(")", at + 1 + |Print(i, ff)|)],
           map["inner" := 1], Some(text), Span(at, |text|))
  }

  /** The root `source` node for the whole text. */
  function SourceNode(e: Expr, ff: U64 -> string): Node {
    Node("source", [ExpressionNode(e, ff, 0)], map[], Some(Print(e, ff)), Span(0, |Print(e, ff)|))
  }

  /** Float spelling and parsing agree on every float literal of `e`. */
  ghost predicate FloatsRoundTrip(e: Expr, pf: FloatParser, ff: U64 -> string) {
    forall l :: l in Leaves(e) && l.Float? ==> pf(ff(l.bits)) == Some(l.bits)
  }

  lemma FloatsRoundTripChildren(e: Expr, pf: FloatParser, ff: U64 -> string)
    requires FloatsRoundTrip(e, pf, ff)
    ensures e.BinaryOp? ==> FloatsRoundTrip(e.left, pf, ff) && FloatsRoundTrip(e.right, pf, ff)
    ensures e.Parenthesized? ==> FloatsRoundTrip(e.inner, pf, ff)
  {
  }

  lemma BinaryFields(n: Node, l: Node, o: Node, r: Node)
    requires n.children == [l, o, r] && n.fields == map["left" := 0, "operator" := 1, "right" := 2]
    ensures ChildByFieldName(n, "left") == Some(l)
    ensures ChildByFieldName(n, "operator") == Some(o)
    ensures ChildByFieldName(n, "right") == Some(r)
  {
  }

  lemma LowerBinaryNode(input: string, n: Node, pf: FloatParser, l: Expr, op: OpKind, r: Expr)
    requires n.kind == "binary_expression" && |n.children| == 3
    requires n.fields == map["left" := 0, "operator" := 1, "right" := 2]
    requires n.children[1].text == Some(OpText(op))
    requires NodeToExpr(input, n.children[0], pf) == Ok(l)
    requires NodeToExpr(input, n.children[2], pf) == Ok(r)
    ensures NodeToExpr(input, n, pf) == Ok(BinaryOp(l, op, r))
  {
    BinaryFields(n, n.children[0], n.children[1], n.children[2]);
    assert OperatorText(n) == Some(OpText(op));
    assert RightToExpr(input, n, pf, l, op) == Ok(BinaryOp(l, op, r));
    assert BinaryToExpr(input, n, pf) == RightToExpr(input, n, pf, l, op);
    assert NodeToExpr(input, n, pf) == BinaryToExpr(input, n, pf);
  }

  lemma LowerParenNode(input: string, n: Node, pf: FloatParser, i: Expr)
    requires n.kind == "parenthesized_expression" && |n.children| == 3 && n.fields == map["inner" := 1]
    requires NodeToExpr(input, n.children[1], pf) == Ok(i)
    ensures NodeToExpr(input, n, pf) == Ok(Parenthesized(i))
  {
    assert ChildByFieldName(n, "inner") == Some(n.children[1]);
  }

  lemma LowerNumberNode(input: string, n: Node, pf: FloatParser, k: I64)
    requires n.kind == "number" && n.text == Some(FormatI64(k))
    ensures NodeToExpr(input, n, pf) == Ok(Integer(k))
  {
    FormatParseRoundTrip(k);
  }

  lemma LowerFloatNode(input: string, n: Node, pf: FloatParser, x: U64)
    requires n.kind == "float" && n.text.Some? && pf(n.text.value) == Some(x)
    ensures NodeToExpr(input, n, pf) == Ok(Float(x))
  {
  }

  lemma LowerWrapper(input: string, n: Node, pf: FloatParser, e: Expr)
    requires n.kind in {"source", "expression"} && |n.children| == 1
    requires NodeToExpr(input, n.children[0], pf) == Ok(e)
    ensures NodeToExpr(input, n, pf) == Ok(e)
  {
  }

  lemma LowerIntegerCase(input: string, e: Expr, pf: FloatParser, ff: U64 -> string, at: nat)
    requires e.Integer?
    ensures NodeToExpr(input, ExprNode(e, ff, at), pf) == Ok(e)
    ensures NodeToExpr(input, ExpressionNode(e, ff, at), pf) == Ok(e)
  {
    LowerNumberNode(input, ExprNode(e, ff, at), pf, e.n);
    LowerWrapper(input, ExpressionNode(e, ff, at), pf, e);
  }

  lemma LowerFloatCase(input: string, e: Expr, pf: FloatParser, ff: U64 -> string, at: nat)
    requires e.Float? && FloatsRoundTrip(e, pf, ff)
    ensures NodeToExpr(input, ExprNode(e, ff, at), pf) == Ok(e)
    ensures NodeToExpr(input, ExpressionNode(e, ff, at), pf) == Ok(e)
  {
    assert e in Leaves(e);
    LowerFloatNode(input, ExprNode(e, ff, at), pf, e.bits);
    LowerWrapper(input, ExpressionNode(e, ff, at), pf, e);
  }

  lemma LowerBinaryCase(input: string, e: Expr, pf: FloatParser, ff: U64 -> string, at: nat)
    requires e.BinaryOp?
    requires NodeToExpr(input, ExpressionNode(e.left, ff, at), pf) == Ok(e.left)
    requires NodeToExpr(input, ExpressionNode(e.right, ff, at + |Print(e.left, ff)| + 3), pf) == Ok(e.right)
    ensures NodeToExpr(input, ExprNode(e, ff, at), pf) == Ok(e)
    ensures NodeToExpr(input, ExpressionNode(e, ff, at), pf) == Ok(e)
  {
    var n := ExprNode(e, ff, at);
    assert n.children[0] == ExpressionNode(e.left, ff, at);
    assert n.children[2] == ExpressionNode(e.right, ff, at + |Print(e.left, ff)| + 3);
    LowerBinaryNode(input, n, pf, e.left, e.op, e.right);
    LowerWrapper(input, ExpressionNode(e, ff, at), pf, e);
  }

  lemma LowerParenCase(input: string, e: Expr, pf: FloatParser, ff: U64 -> string, at: nat)
    requires e.Parenthesized?
    requires NodeToExpr(input, ExpressionNode(e.inner, ff, at + 1), pf) == Ok(e.inner)
    ensures NodeToExpr(input, ExprNode(e, ff, at), pf) == Ok(e)
    ensures NodeToExpr(input, ExpressionNode(e, ff, at), pf) == Ok(e)
  {
    var n := ExprNode(e, ff, at);
    assert n.children[1] == ExpressionNode(e.inner, ff, at + 1);
    LowerParenNode(input, n, pf, e.inner);
    LowerWrapper(input, ExpressionNode(e, ff, at), pf, e);
  }

  /** The AST builder inverts the canonical tree: lowering the tree of an
      expression gives the expression back, operators, literals and
      parentheses included. */
  lemma {:induction false} LowerExprNode(input: string, e: Expr, pf: FloatParser, ff: U64 -> string, at: nat)
    requires FloatsRoundTrip(e, pf, ff)
    ensures NodeToExpr(input, ExpressionNode(e, ff, at), pf) == Ok(e)
    decreases e
  {
    match e
    case Integer(n) =>
      LowerIntegerCase(input, e, pf, ff, at);
    case Float(x) =>
      LowerFloatCase(input, e, pf, ff, at);
    case BinaryOp(l, op, r) =>
      FloatsRoundTripChildren(e, pf, ff);
      LowerExprNode(input, l, pf, ff, at);
      LowerExprNode(input, r, pf, ff, at + |Print(l, ff)| + 3);
      LowerBinaryCase(input, e, pf, ff, at);
    case Parenthesized(i) =>
      FloatsRoundTripChildren(e, pf, ff);
      LowerExprNode(input, i, pf, ff, at + 1);
      LowerParenCase(input, e, pf, ff, at);
  }

  lemma LowerSourceNode(input: string, e: Expr, pf: FloatParser, ff: U64 -> string)
    requires FloatsRoundTrip(e, pf, ff)
    ensures NodeToExpr(input, SourceNode(e, ff), pf) == Ok(e)
  {
    LowerExprNode(input, e, pf, ff, 0);
  }

  /** No node of the tree rooted at `n` is an error node. */
  ghost predicate ErrorFree(n: Node) {
    forall m :: m in Preorder(n) ==> !IsError(m)
  }

  lemma ErrorFreeLeaf(n: Node)
    requires !IsError(n) && |n.children| == 0
    ensures ErrorFree(n)
  {
    assert Preorder(n) == [n];
  }

  lemma ErrorFreeWrapper(w: Node)
    requires !IsError(w) && |w.children| == 1 && ErrorFree(w.children[0])
    ensures ErrorFree(w)
  {
    assert Preorder(w) == [w] + Preorder(w.children[0]) by {
      assert PreorderAll(w.children) == Preorder(w.children[0]) + PreorderAll([]);
    }
  }

  lemma ErrorFreeThree(n: Node)
    requires !IsError(n) && |n.children| == 3
    requires ErrorFree(n.children[0]) && ErrorFree(n.children[1]) && ErrorFree(n.children[2])
    ensures ErrorFree(n)
  {
    ThreeChildren(n);
  }

  /** The canonical tree has no error node, so it passes the validator. */
  lemma {:induction false} ExprNodeHasNoErrors(e: Expr, ff: U64 -> string, at: nat)
    ensures ErrorFree(ExpressionNode(e, ff, at))
    decreases e
  {
    var n := ExprNode(e, ff, at);
    match e {
    case Integer(_) =>
      ErrorFreeLeaf(n);
    case Float(_) =>
      ErrorFreeLeaf(n);
    case BinaryOp(l, op, r) =>
      var opAt := at + |Print(l, ff)| + 1;
      ExprNodeHasNoErrors(l, ff, at);
      ExprNodeHasNoErrors(r, ff, opAt + 2);
      ErrorFreeLeaf(n.children[1]);
      ErrorFreeThree(n);
    case Parenthesized(i) =>
      ExprNodeHasNoErrors(i, ff, at + 1);
      ErrorFreeLeaf(n.children[0]);
      ErrorFreeLeaf(n.children[2]);
      ErrorFreeThree(n);
    }
    ErrorFreeWrapper(ExpressionNode(e, ff, at));
  }

  lemma ThreeChildren(n: Node)
    requires |n.children| == 3
    ensures Preorder(n) == [n] + Preorder(n.children[0]) + Preorder(n.children[1]) + Preorder(n.children[2])
  {
    var cs := n.children;
    var a := cs[1..];
    var b := a[1..];
    var c := b[1..];
    assert PreorderAll(c) == [];
    assert PreorderAll(b) == Preorder(cs[2]) + PreorderAll(c);
    assert PreorderAll(a) == Preorder(cs[1]) + PreorderAll(b);
    assert PreorderAll(cs) == Preorder(cs[0]) + PreorderAll(a);
  }

  lemma SourceNodeHasNoErrors(e: Expr, ff: U64 -> string)
    ensures ErrorNodes(SourceNode(e, ff)) == []
  {
    var s := SourceNode(e, ff);
    ExprNodeHasNoErrors(e, ff, 0);
    ErrorFreeWrapper(s);
    ErrorsOfEmpty(Preorder(s));
  }
}
