/** The type resolver: `determine_type`, a pure bottom-up verdict that an
    expression is float-typed or integer-typed. */
module Typing {
  import opened Ast

  /** `determine_type`: the kind of value an expression produces, paired
      with the float flag. A leaf yields its own value; an operator node
      yields a zero of the chosen kind; parentheses are transparent. The
      source wraps the pair in a `Result` but never returns an error. */
  function DetermineType(e: Expr): (r: (CalcValue, bool))
    ensures r.1 <==> r.0.FloatValue?
  {
    match e
    case Integer(n) => (IntValue(n), false)
    case Float(x) => (FloatValue(x), true)
    case BinaryOp(l, op, r) =>
      var (_, leftFloat) := DetermineType(l);
      var (_, rightFloat) := DetermineType(r);
      if leftFloat || rightFloat || op == Divide then (FloatValue(0), true)
      else (IntValue(0), false)
    case Parenthesized(i) => DetermineType(i)
  }

  lemma LeavesOfBinary(l: Expr, op: OpKind, r: Expr)
    ensures (exists x :: x in Leaves(BinaryOp(l, op, r)) && x.Float?)
        <==> (exists x :: x in Leaves(l) && x.Float?) || (exists x :: x in Leaves(r) && x.Float?)
  {
    var all := Leaves(BinaryOp(l, op, r));
    assert all == Leaves(l) + Leaves(r);
    if exists x :: x in all && x.Float? {
      var x :| x in all && x.Float?;
      assert x in Leaves(l) || x in Leaves(r);
    }
    if exists x :: x in Leaves(l) && x.Float? {
      var x :| x in Leaves(l) && x.Float?;
      assert x in all;
    }
    if exists x :: x in Leaves(r) && x.Float? {
      var x :| x in Leaves(r) && x.Float?;
      assert x in all;
    }
  }

  /** The type promotion law: the float flag is set exactly when the tree
      holds a float literal or a division anywhere, at any depth and
      through any number of parentheses. */
  lemma {:induction false} PromotionLaw(e: Expr)
    ensures DetermineType(e).1 <==> PromotesToFloat(e)
  {
    match e
    case Integer(_) =>
      assert Leaves(e) == [e];
    case Float(_) =>
      assert e in Leaves(e);
    case BinaryOp(l, op, r) =>
      PromotionLaw(l);
      PromotionLaw(r);
      LeavesOfBinary(l, op, r);
      assert Ops(e) == Ops(l) + [op] + Ops(r);
    case Parenthesized(i) =>
      PromotionLaw(i);
  }

  /** An expression with no float literal and no division is integer-typed,
      and a division is float-typed whatever its operands. */
  lemma IntegerUnlessPromoted(l: Expr, op: OpKind, r: Expr)
    ensures DetermineType(BinaryOp(l, Divide, r)) == (FloatValue(0), true)
    ensures !DetermineType(l).1 && !DetermineType(r).1 && op != Divide
        ==> DetermineType(BinaryOp(l, op, r)) == (IntValue(0), false)
  {
  }

  /** On leaves the resolver returns the literal itself with its flag,
      parentheses do not change the verdict, and integer plus float is float. */
  lemma DetermineTypeLeaves(n: I64, x: U64, e: Expr)
    ensures DetermineType(Integer(n)) == (IntValue(n), false)
    ensures DetermineType(Float(x)) == (FloatValue(x), true)
    ensures DetermineType(Parenthesized(e)) == DetermineType(e)
    ensures DetermineType(BinaryOp(Integer(n), Add, Float(x))).1
  {
  }
}
