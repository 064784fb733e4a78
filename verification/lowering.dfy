/** The native code generator's observable part: `compile_node` lowering an
    expression to typed instructions, and `compile_expr` choosing the
    function signature and the integer/float wrapper. The instructions form
    a tree (each value's operands are its children) rather than Cranelift's
    instruction stream; registering and finalizing native code is not
    modelled beyond its possible failure. */
module Lowering {
  import opened Wrappers
  import opened Ast
  import opened Errors
  import opened Typing
  import opened Semantics

  /** Cranelift's `types::I64` and `types::F64`. */
  datatype IrType = I64Type | F64Type

  /** The instructions the lowering emits. There is no float-to-integer
      conversion and no integer division. */
  datatype Inst =
    | Iconst(imm: I64)
    | F64const(bits: U64)
    | Iadd(a: Inst, b: Inst)
    | Isub(a: Inst, b: Inst)
    | Imul(a: Inst, b: Inst)
    | Fadd(a: Inst, b: Inst)
    | Fsub(a: Inst, b: Inst)
    | Fmul(a: Inst, b: Inst)
    | Fdiv(a: Inst, b: Inst)
    | FcvtFromSint(x: Inst)

  /** The instruction type checker: integer instructions take and give
      `i64`, float instructions take and give `f64`, and the one conversion
      takes `i64` to `f64`. `None` marks an ill-typed instruction. */
  function TypeOf(i: Inst): Option<IrType> {
    match i
    case Iconst(_) => Some(I64Type)
    case F64const(_) => Some(F64Type)
    case FcvtFromSint(x) => if TypeOf(x) == Some(I64Type) then Some(F64Type) else None
    case Iadd(a, b) => Operands(TypeOf(a), TypeOf(b), I64Type)
    case Isub(a, b) => Operands(TypeOf(a), TypeOf(b), I64Type)
    case Imul(a, b) => Operands(TypeOf(a), TypeOf(b), I64Type)
    case Fadd(a, b) => Operands(TypeOf(a), TypeOf(b), F64Type)
    case Fsub(a, b) => Operands(TypeOf(a), TypeOf(b), F64Type)
    case Fmul(a, b) => Operands(TypeOf(a), TypeOf(b), F64Type)
    case Fdiv(a, b) => Operands(TypeOf(a), TypeOf(b), F64Type)
  }

  /** A binary instruction of type `t` is well typed when both operands are. */
  function Operands(a: Option<IrType>, b: Option<IrType>, t: IrType): Option<IrType> {
    if a == Some(t) && b == Some(t) then Some(t) else None
  }

  /** The IR type a value tag stands for. */
  function TypeOfTag(v: CalcValue): IrType {
    if v.FloatValue? then F64Type else I64Type
  }

  /** An operand moved to the float domain: `fcvt_from_sint` for an integer,
      unchanged for a float. */
  function ToFloat(tag: CalcValue, ir: Inst): Inst {
    if tag.IntValue? then FcvtFromSint(ir) else ir
  }

  /** The arithmetic instruction for an operator in the chosen domain;
      division is `fdiv` in both. */
  function Arith(op: OpKind, needsFloat: bool, a: Inst, b: Inst): Inst {
    match (op, needsFloat)
    case (Add, false) => Iadd(a, b)
    case (Subtract, false) => Isub(a, b)
    case (Multiply, false) => Imul(a, b)
    case (Add, true) => Fadd(a, b)
    case (Subtract, true) => Fsub(a, b)
    case (Multiply, true) => Fmul(a, b)
    case (Divide, _) => Fdiv(a, b)
  }

  /** `compile_node`: the value tag and the instruction computing an
      expression. The instruction is well typed at the tag's type, and the
      tag is the type resolver's verdict. */
  function CompileNode(e: Expr): (r: (CalcValue, Inst))
    ensures TypeOf(r.1) == Some(TypeOfTag(r.0))
    ensures r.0 == DetermineType(e).0
  {
    match e
    case Integer(n) => (IntValue(n), Iconst(n))
    case Float(x) => (FloatValue(x), F64const(x))
    case BinaryOp(l, op, r) =>
      var (leftVal, leftIr) := CompileNode(l);
      var (rightVal, rightIr) := CompileNode(r);
      var needsFloat := op == Divide || leftVal.FloatValue? || rightVal.FloatValue?;
      var (finalLeft, finalRight) :=
        if needsFloat then (ToFloat(leftVal, leftIr), ToFloat(rightVal, rightIr))
        else (leftIr, rightIr);
      (if needsFloat then FloatValue(0) else IntValue(0), Arith(op, needsFloat, finalLeft, finalRight))
    case Parenthesized(i) => CompileNode(i)
  }

  /** The operators an instruction tree computes, in operand order,
      forgetting the domain. */
  function ArithOps(i: Inst): seq<OpKind> {
    match i
    case Iconst(_) => []
    case F64const(_) => []
    case FcvtFromSint(x) => ArithOps(x)
    case Iadd(a, b) => ArithOps(a) + [Add] + ArithOps(b)
    case Fadd(a, b) => ArithOps(a) + [Add] + ArithOps(b)
    case Isub(a, b) => ArithOps(a) + [Subtract] + ArithOps(b)
    case Fsub(a, b) => ArithOps(a) + [Subtract] + ArithOps(b)
    case Imul(a, b) => ArithOps(a) + [Multiply] + ArithOps(b)
    case Fmul(a, b) => ArithOps(a) + [Multiply] + ArithOps(b)
    case Fdiv(a, b) => ArithOps(a) + [Divide] + ArithOps(b)
  }

  /** Lowering emits one arithmetic instruction per operator, in the same
      order and of the same kind: every `/` becomes an `fdiv`, and nothing
      else does. */
  lemma {:induction false} LoweringKeepsOperators(e: Expr)
    ensures ArithOps(CompileNode(e).1) == Ops(e)
  {
    match e
    case Integer(_) =>
    case Float(_) =>
    case BinaryOp(l, op, r) =>
      LoweringKeepsOperators(l);
      LoweringKeepsOperators(r);
    case Parenthesized(i) =>
      LoweringKeepsOperators(i);
  }

  /** Instructions that never touch a float. */
  ghost predicate IntegerOnly(i: Inst) {
    match i
    case Iconst(_) => true
    case F64const(_) => false
    case FcvtFromSint(_) => false
    case Iadd(a, b) => IntegerOnly(a) && IntegerOnly(b)
    case Isub(a, b) => IntegerOnly(a) && IntegerOnly(b)
    case Imul(a, b) => IntegerOnly(a) && IntegerOnly(b)
    case Fadd(_, _) => false
    case Fsub(_, _) => false
    case Fmul(_, _) => false
    case Fdiv(_, _) => false
  }

  /** An instruction typed as an integer is built from integer
      instructions only. */
  lemma {:induction false} IntegerTypedIsIntegerOnly(i: Inst)
    requires TypeOf(i) == Some(I64Type)
    ensures IntegerOnly(i)
  {
    match i
    case Iconst(_) =>
    case Iadd(a, b) =>
      IntegerTypedIsIntegerOnly(a);
      IntegerTypedIsIntegerOnly(b);
    case Isub(a, b) =>
      IntegerTypedIsIntegerOnly(a);
      IntegerTypedIsIntegerOnly(b);
    case Imul(a, b) =>
      IntegerTypedIsIntegerOnly(a);
      IntegerTypedIsIntegerOnly(b);
  }

  /** Lowering an expression with no float literal and no division emits
      integer instructions only: no float constant, no float arithmetic
      and no conversion. */
  lemma IntegerExpressionLowersToIntegerCode(e: Expr)
    requires !PromotesToFloat(e)
    ensures IntegerOnly(CompileNode(e).1)
  {
    PromotionLaw(e);
    IntegerTypedIsIntegerOnly(CompileNode(e).1);
  }

  // ===== compile_expr =====

  /** The generated native function: its signature's return types and the
      instruction whose value it returns. */
  datatype NativeFunction = NativeFunction(results: seq<IrType>, body: Inst)

  /** `CompiledFnPtr`: the native function as an integer- or float-returning
      callable. */
  datatype CompiledFnPtr = IntegerFn(f: NativeFunction) | FloatFn(f: NativeFunction)

  /** `CompiledFunction`: the callable with the time it was last used. */
  datatype CompiledFunction = CompiledFunction(code: CompiledFnPtr, lastUsed: nat)

  /** The invariant the unchecked call relies on: the wrapper's kind, the
      declared return type and the returned instruction's type agree. */
  predicate SignatureAgrees(c: CompiledFnPtr) {
    var t := if c.IntegerFn? then I64Type else F64Type;
    c.f.results == [t] && TypeOf(c.f.body) == Some(t)
  }

  /** `compile_expr`. `backendError` is the message of the first failing
      step among declaring, defining and finalizing the native function
      (`None` when all succeed); `now` is the clock at creation. */
  function CompileExpr(e: Expr, backendError: Option<string>, now: nat): (r: Result<CompiledFunction, CalculatorError>)
    ensures r.Ok? <==> backendError.None?
    ensures r.Err? ==> r.error == CalculatorError("", Span(0, 0), JitError(backendError.value), None)
    ensures r.Ok? ==> SignatureAgrees(r.value.code) && r.value.lastUsed == now
    ensures r.Ok? ==> (r.value.code.FloatFn? <==> PromotesToFloat(e))
  {
    PromotionLaw(e);
    var (returnType, isFloat) := DetermineType(e);
    var signatureType := if isFloat then F64Type else I64Type;
    var (_, result) := CompileNode(e);
    var f := NativeFunction([signatureType], result);
    if backendError.Some? then
      Err(CalculatorError("", Span(0, 0), JitError(backendError.value), None))
    else
      Ok(match returnType
         case IntValue(_) => CompiledFunction(IntegerFn(f), now)
         case FloatValue(_) => CompiledFunction(FloatFn(f), now))
  }

  // ===== Execution =====

  /** The value of an instruction. The cases an ill-typed instruction would
      reach give an arbitrary zero; a well-typed one never reaches them. */
  function Eval(i: Inst, fs: FloatSemantics): CalcValue {
    match i
    case Iconst(n) => IntValue(n)
    case F64const(x) => FloatValue(x)
    case FcvtFromSint(x) =>
      var v := Eval(x, fs);
      if v.IntValue? then FloatValue(fs.fromSint(v.i)) else FloatValue(0)
    case Iadd(a, b) => EvalInt(Add, Eval(a, fs), Eval(b, fs))
    case Isub(a, b) => EvalInt(Subtract, Eval(a, fs), Eval(b, fs))
    case Imul(a, b) => EvalInt(Multiply, Eval(a, fs), Eval(b, fs))
    case Fadd(a, b) => EvalFloat(fs, Add, Eval(a, fs), Eval(b, fs))
    case Fsub(a, b) => EvalFloat(fs, Subtract, Eval(a, fs), Eval(b, fs))
    case Fmul(a, b) => EvalFloat(fs, Multiply, Eval(a, fs), Eval(b, fs))
    case Fdiv(a, b) => EvalFloat(fs, Divide, Eval(a, fs), Eval(b, fs))
  }

  function EvalInt(op: OpKind, a: CalcValue, b: CalcValue): CalcValue
    requires op != Divide
  {
    if a.IntValue? && b.IntValue? then IntValue(IntArith(op, a.i, b.i)) else IntValue(0)
  }

  function EvalFloat(fs: FloatSemantics, op: OpKind, a: CalcValue, b: CalcValue): CalcValue {
    if a.FloatValue? && b.FloatValue? then FloatValue(FloatArith(fs, op, a.f, b.f)) else FloatValue(0)
  }

  /** `CompiledFunction::call`: run the native function and wrap its result
      by the callable's kind. A kind that disagreed with the body would
      reinterpret the bits; `SignatureAgrees` rules that out. */
  function Call(c: CompiledFunction, fs: FloatSemantics): CalcValue {
    var v := Eval(c.code.f.body, fs);
    match c.code
    case IntegerFn(_) => if v.IntValue? then v else IntValue(0)
    case FloatFn(_) => if v.FloatValue? then v else FloatValue(0)
  }

  /** Code generation is correct: running the lowered instruction gives the
      reference value of the expression. */
  lemma {:induction false} LoweringCorrect(e: Expr, fs: FloatSemantics)
    ensures Eval(CompileNode(e).1, fs) == Interpret(e, fs)
    ensures Interpret(e, fs).FloatValue? <==> DetermineType(e).1
  {
    match e
    case Integer(_) =>
    case Float(_) =>
    case BinaryOp(l, op, r) =>
      LoweringCorrect(l, fs);
      LoweringCorrect(r, fs);
    case Parenthesized(i) =>
      LoweringCorrect(i, fs);
  }

  /** Calling a freshly compiled function yields the expression's value, of
      the promised kind. */
  lemma CompiledCallCorrect(e: Expr, fs: FloatSemantics, now: nat)
    ensures Call(CompileExpr(e, None, now).value, fs) == Interpret(e, fs)
    ensures Call(CompileExpr(e, None, now).value, fs).FloatValue? <==> PromotesToFloat(e)
  {
    LoweringCorrect(e, fs);
    PromotionLaw(e);
  }
}
