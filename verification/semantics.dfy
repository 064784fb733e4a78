/** A reference meaning for expressions, independent of code generation:
    64-bit wrapping integer arithmetic, and floating-point arithmetic taken
    as given (the model does not compute with `f64`). */
module Semantics {
  import opened Ast

  const TwoTo64: int := 0x1_0000_0000_0000_0000
  const TwoTo63: int := 0x8000_0000_0000_0000

  /** Two's-complement wrap-around of a mathematical integer to `i64`, as the
      machine's 64-bit `add`, `sub` and `mul` produce it. */
  function Wrap64(x: int): (r: I64)
    ensures (r - x) % TwoTo64 == 0
    ensures -TwoTo63 <= x < TwoTo63 ==> r == x
  {
    var m := x % TwoTo64;
    if m >= TwoTo63 then m - TwoTo64 else m
  }

  /** The IEEE-754 operations the generated code uses, on bit patterns:
      `fadd`, `fsub`, `fmul`, `fdiv` and the signed-integer conversion
      `fcvt_from_sint`. They are parameters of the model. */
  datatype FloatSemantics = FloatSemantics(
    fadd: (U64, U64) -> U64,
    fsub: (U64, U64) -> U64,
    fmul: (U64, U64) -> U64,
    fdiv: (U64, U64) -> U64,
    fromSint: I64 -> U64)

  /** Integer arithmetic, wrapping. Division never reaches it. */
  function IntArith(op: OpKind, a: I64, b: I64): I64
    requires op != Divide
  {
    match op
    case Add => Wrap64(a + b)
    case Subtract => Wrap64(a - b)
    case Multiply => Wrap64(a * b)
  }

  function FloatArith(fs: FloatSemantics, op: OpKind, a: U64, b: U64): U64 {
    match op
    case Add => fs.fadd(a, b)
    case Subtract => fs.fsub(a, b)
    case Multiply => fs.fmul(a, b)
    case Divide => fs.fdiv(a, b)
  }

  /** A value seen as a float, converting an integer. */
  function AsFloat(fs: FloatSemantics, v: CalcValue): U64 {
    match v
    case IntValue(i) => fs.fromSint(i)
    case FloatValue(f) => f
  }

  /** The value of an expression: integer arithmetic while both operands are
      integers and the operator is not a division, float arithmetic (after
      converting integer operands) otherwise. */
  function Interpret(e: Expr, fs: FloatSemantics): CalcValue {
    match e
    case Integer(n) => IntValue(n)
    case Float(x) => FloatValue(x)
    case BinaryOp(l, op, r) =>
      var a := Interpret(l, fs);
      var b := Interpret(r, fs);
      if a.IntValue? && b.IntValue? && op != Divide then IntValue(IntArith(op, a.i, b.i))
      else FloatValue(FloatArith(fs, op, AsFloat(fs, a), AsFloat(fs, b)))
    case Parenthesized(i) => Interpret(i, fs)
  }
}
