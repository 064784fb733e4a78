/** The expression tree the calculator compiles, and the values it produces. */
module Ast {

  /** Rust's `i64`. */
  type I64 = n: int | -0x8000_0000_0000_0000 <= n < 0x8000_0000_0000_0000

  /** Rust's `u64`; also the IEEE-754 bit pattern of an `f64`, which is how
      this model keeps floating-point numbers (their arithmetic is not modelled). */
  type U64 = n: int | 0 <= n < 0x1_0000_0000_0000_0000

  /** The four binary operators, a fixed and closed set. */
  datatype OpKind = Add | Subtract | Multiply | Divide

  /** The expression tree; a float literal is kept as its bit pattern. */
  datatype Expr =
    | Integer(n: I64)
    | Float(bits: U64)
    | BinaryOp(left: Expr, op: OpKind, right: Expr)
    | Parenthesized(inner: Expr)

  /** The result of an evaluation, and also the type tag the compiler
      passes around (an integer or float whose payload is only a witness). */
  datatype CalcValue = IntValue(i: I64) | FloatValue(f: U64)

  /** `CalcValue::default()`. */
  const DefaultValue: CalcValue := IntValue(0)

  /** `CalcValue::eq`. Two integers compare by value, an integer and a
      float are never equal, and two floats are equal when `floatsClose`
      holds of their bit patterns; it stands for the `f64` test
      `(a - b).abs() < f64::EPSILON`, whose arithmetic is not modelled. */
  function ValueEq(a: CalcValue, b: CalcValue, floatsClose: (U64, U64) -> bool): (r: bool)
    ensures !(a.FloatValue? && b.FloatValue?) ==> (r <==> a == b)
    ensures a.FloatValue? && b.FloatValue? ==> (r <==> floatsClose(a.f, b.f))
  {
    match (a, b)
    case (IntValue(x), IntValue(y)) => x == y
    case (FloatValue(x), FloatValue(y)) => floatsClose(x, y)
    case (IntValue(_), FloatValue(_)) => false
    case (FloatValue(_), IntValue(_)) => false
  }

  /** Equality is symmetric whenever the float comparison is, as the
      absolute difference is. */
  lemma ValueEqSymmetric(a: CalcValue, b: CalcValue, floatsClose: (U64, U64) -> bool)
    requires forall x: U64, y: U64 :: floatsClose(x, y) == floatsClose(y, x)
    ensures ValueEq(a, b, floatsClose) == ValueEq(b, a, floatsClose)
  {
  }

  /** The literal leaves of an expression, left to right. */
  function Leaves(e: Expr): (r: seq<Expr>)
    ensures forall l :: l in r ==> l.Integer? || l.Float?
  {
    match e
    case Integer(_) => [e]
    case Float(_) => [e]
    case BinaryOp(l, _, r) => Leaves(l) + Leaves(r)
    case Parenthesized(i) => Leaves(i)
  }

  /** The operators of an expression, in the order they appear in its text. */
  function Ops(e: Expr): seq<OpKind> {
    match e
    case Integer(_) => []
    case Float(_) => []
    case BinaryOp(l, op, r) => Ops(l) + [op] + Ops(r)
    case Parenthesized(i) => Ops(i)
  }

  /** The promotion rule's reference statement: an expression is float-typed
      when some literal is a float or some operator is a division. */
  ghost predicate PromotesToFloat(e: Expr) {
    (exists l :: l in Leaves(e) && l.Float?) || Divide in Ops(e)
  }
}
