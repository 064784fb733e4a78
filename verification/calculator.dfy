/** The orchestrator `Calculator::update_input`: apply the edit to the
    buffer, take the parse engine's tree (kept even when later stages
    fail), validate it, lower it to an expression, then answer from the
    cache or compile, run, store and sweep stale entries. The sweep is the
    intended one (`Cache.Sweep`); the cleanup as written sweeps a copy and
    leaves the cache as it was (`Cache.CleanupAsWritten`). */
module Calculator {
  import opened Wrappers
  import opened Errors
  import opened Ast
  import opened Semantics
  import opened Lowering
  import opened Hashing
  import opened ParseTree
  import opened AstBuilder
  import opened Cache
  import InputBuffer

  /** The calculator's state between edits. */
  datatype Calculator = Calculator(buffer: InputBuffer.Buffer, lastTree: Option<Node>, cache: FunctionCache)

  /** `Calculator::new` once the parser and code generator are set up. */
  function New(): (c: Calculator)
    ensures c.buffer.bytes == [] && c.lastTree.None? && c.cache == map[]
  {
    Calculator(InputBuffer.New(), None, map[])
  }

  /** The collaborators the model takes as given: float literal parsing,
      the hasher, and floating-point arithmetic. */
  datatype Environment = Environment(parseFloat: FloatParser, hasher: Hasher, floats: FloatSemantics)

  /** What the world outside the model decides during one update: the tree
      the parse engine returns for the buffer (`None` if it returns none),
      the native back end's failure message if any, and the clock. */
  datatype Outside = Outside(parsed: Option<Node>, backendError: Option<string>, now: nat)

  datatype Outcome = Outcome(state: Calculator, result: Result<CalcValue, CalculatorError>)

  /** The diagnostic for a failed parse, spanning the whole new text. */
  function ParseFailure(newInput: seq<InputBuffer.Byte>): CalculatorError {
    CalculatorError("", Span(0, |newInput|), ParseError("Failed to parse input"),
                    Some("Make sure your expression is syntactically valid"))
  }

  /** The diagnostic for the error node the validator reports. */
  function SyntaxError(n: Node): CalculatorError {
    CalculatorError("", n.span, ParseError("Syntax error near '" + n.text.UnwrapOr("Syntax error") + "'"),
                    Some("Ensure that your expression follows the correct syntax."))
  }

  /** `update_input`. */
  function UpdateInput(c: Calculator, newInput: seq<InputBuffer.Byte>, editPos: nat, oldEnd: nat, newEnd: nat,
                       env: Environment, out: Outside): (o: Outcome)
    requires InputBuffer.UpdateRequires(c.buffer, newInput, editPos, oldEnd, newEnd)
    ensures o.state.buffer == InputBuffer.Update(c.buffer, newInput, editPos, oldEnd, newEnd)
    ensures o.state.lastTree == if out.parsed.Some? then out.parsed else c.lastTree
    ensures o.result.Err? ==> o.state.cache == c.cache
  {
    var buffer := InputBuffer.Update(c.buffer, newInput, editPos, oldEnd, newEnd);
    match out.parsed
    case None => Outcome(c.(buffer := buffer), Err(ParseFailure(newInput)))
    case Some(tree) =>
      var parsed := c.(buffer := buffer, lastTree := Some(tree));
      var errors := ErrorNodes(tree);
      if errors != [] then Outcome(parsed, Err(SyntaxError(errors[0])))
      else
        match NodeToExpr(newInput, tree, env.parseFloat)
        case Err(e) => Outcome(parsed, Err(e))
        case Ok(ast) =>
          var key := HashAst(env.hasher, ast);
          if key in c.cache then
            var entry := c.cache[key];
            Outcome(parsed.(cache := Touch(c.cache, key, out.now)), Ok(Call(entry, env.floats)))
          else
            match CompileExpr(ast, out.backendError, out.now)
            case Err(e) => Outcome(parsed, Err(e))
            case Ok(compiled) =>
              var result := Call(compiled, env.floats);
              Outcome(parsed.(cache := Sweep(Insert(c.cache, key, compiled), out.now)), Ok(result))
  }

  /** The expression a successful validation and lowering produce, if the
      update gets that far. */
  function LoweredAst(newInput: seq<InputBuffer.Byte>, env: Environment, out: Outside): Option<Expr> {
    if out.parsed.None? || ErrorNodes(out.parsed.value) != [] then None
    else
      match NodeToExpr(newInput, out.parsed.value, env.parseFloat)
      case Err(_) => None
      case Ok(ast) => Some(ast)
  }

  /** Validation comes before lowering: a tree with error nodes is rejected
      with a syntax error at the first error node in pre-order, and the
      tree is kept for the next edit all the same. */
  lemma SyntaxErrorReportsFirstErrorNode(c: Calculator, newInput: seq<InputBuffer.Byte>, editPos: nat, oldEnd: nat,
                                         newEnd: nat, env: Environment, out: Outside)
    requires InputBuffer.UpdateRequires(c.buffer, newInput, editPos, oldEnd, newEnd)
    requires out.parsed.Some? && ErrorNodes(out.parsed.value) != []
    ensures var o := UpdateInput(c, newInput, editPos, oldEnd, newEnd, env, out);
      && o.result.Err? && o.result.error.kind.ParseError?
      && o.state.lastTree == out.parsed
      && ErrorDisplay(o.result.error) == "Calculator error: Invalid syntax"
      && exists j :: (0 <= j < |Preorder(out.parsed.value)| && o.result.error.span == Preorder(out.parsed.value)[j].span
                      && IsError(Preorder(out.parsed.value)[j])
                      && forall k :: 0 <= k < j ==> !IsError(Preorder(out.parsed.value)[k]))
  {
    ValidatorReportsFirstError(out.parsed.value);
  }

  /** A tree that validates but does not lower is kept, and the lowering
      diagnostic is the result; the cache is not consulted. */
  lemma LoweringFailureKeepsCache(c: Calculator, newInput: seq<InputBuffer.Byte>, editPos: nat, oldEnd: nat,
                                  newEnd: nat, env: Environment, out: Outside)
    requires InputBuffer.UpdateRequires(c.buffer, newInput, editPos, oldEnd, newEnd)
    requires out.parsed.Some? && ErrorNodes(out.parsed.value) == []
    requires NodeToExpr(newInput, out.parsed.value, env.parseFloat).Err?
    ensures var o := UpdateInput(c, newInput, editPos, oldEnd, newEnd, env, out);
      && o.result == Err(NodeToExpr(newInput, out.parsed.value, env.parseFloat).error)
      && o.state.cache == c.cache && o.state.lastTree == out.parsed
  {
  }

  /** A hit only restamps the entry it used, and answers with that entry. */
  lemma HitTouchesOnlyItsEntry(c: Calculator, newInput: seq<InputBuffer.Byte>, editPos: nat, oldEnd: nat,
                               newEnd: nat, env: Environment, out: Outside)
    requires InputBuffer.UpdateRequires(c.buffer, newInput, editPos, oldEnd, newEnd)
    requires LoweredAst(newInput, env, out).Some?
    requires HashAst(env.hasher, LoweredAst(newInput, env, out).value) in c.cache
    ensures var key := HashAst(env.hasher, LoweredAst(newInput, env, out).value);
      var o := UpdateInput(c, newInput, editPos, oldEnd, newEnd, env, out);
      && o.result == Ok(Call(c.cache[key], env.floats))
      && o.state.cache.Keys == c.cache.Keys
      && o.state.cache[key] == c.cache[key].(lastUsed := out.now)
      && forall k :: k in c.cache && k != key ==> o.state.cache[k] == c.cache[k]
  {
  }

  /** A miss with a working back end stores the compiled function under the
      expression's key, stamped now, runs the intended sweep, and answers
      with the value of the expression. */
  lemma MissInsertsUnderKey(c: Calculator, newInput: seq<InputBuffer.Byte>, editPos: nat, oldEnd: nat,
                            newEnd: nat, env: Environment, out: Outside)
    requires InputBuffer.UpdateRequires(c.buffer, newInput, editPos, oldEnd, newEnd)
    requires LoweredAst(newInput, env, out).Some? && out.backendError.None?
    requires HashAst(env.hasher, LoweredAst(newInput, env, out).value) !in c.cache
    ensures var ast := LoweredAst(newInput, env, out).value;
      var key := HashAst(env.hasher, ast);
      var o := UpdateInput(c, newInput, editPos, oldEnd, newEnd, env, out);
      && o.result == Ok(Interpret(ast, env.floats))
      && key in o.state.cache && o.state.cache[key] == CompileExpr(ast, None, out.now).value
      && o.state.cache.Keys <= c.cache.Keys + {key}
  {
    var ast := LoweredAst(newInput, env, out).value;
    CompiledCallCorrect(ast, env.floats, out.now);
  }

  // ===== Cache coherence =====

  /** Every cached function is the compilation of an expression with its
      key. */
  ghost predicate Coherent(cache: FunctionCache, hasher: Hasher) {
    forall k :: k in cache ==>
      exists e :: HashAst(hasher, e) == k && cache[k].code == CompileExpr(e, None, 0).value.code
  }

  /** No other expression's writes hash to the key of `ast`. */
  ghost predicate NoCollision(hasher: Hasher, ast: Expr) {
    forall e :: HashAst(hasher, e) == HashAst(hasher, ast) ==> Encode(e) == Encode(ast)
  }

  lemma CompiledCodeIgnoresTime(e: Expr, t: nat)
    ensures CompileExpr(e, None, t).value.code == CompileExpr(e, None, 0).value.code
  {
  }

  /** Every update keeps the cache coherent. */
  lemma UpdateKeepsCoherence(c: Calculator, newInput: seq<InputBuffer.Byte>, editPos: nat, oldEnd: nat,
                             newEnd: nat, env: Environment, out: Outside)
    requires InputBuffer.UpdateRequires(c.buffer, newInput, editPos, oldEnd, newEnd)
    requires Coherent(c.cache, env.hasher)
    ensures Coherent(UpdateInput(c, newInput, editPos, oldEnd, newEnd, env, out).state.cache, env.hasher)
  {
    var o := UpdateInput(c, newInput, editPos, oldEnd, newEnd, env, out);
    var ast := LoweredAst(newInput, env, out);
    if o.result.Ok? {
      var key := HashAst(env.hasher, ast.value);
      CompiledCodeIgnoresTime(ast.value, out.now);
      forall k | k in o.state.cache
        ensures exists e :: HashAst(env.hasher, e) == k && o.state.cache[k].code == CompileExpr(e, None, 0).value.code
      {
        if k == key {
          assert HashAst(env.hasher, ast.value) == k;
        } else {
          assert k in c.cache && o.state.cache[k] == c.cache[k];
        }
      }
    }
  }

  lemma {:induction false} CoherentEntryValue(cache: FunctionCache, hasher: Hasher, ast: Expr, fs: FloatSemantics)
    requires Coherent(cache, hasher) && NoCollision(hasher, ast)
    requires HashAst(hasher, ast) in cache
    ensures Call(cache[HashAst(hasher, ast)], fs) == Interpret(ast, fs)
  {
    var k := HashAst(hasher, ast);
    var e :| HashAst(hasher, e) == k && cache[k].code == CompileExpr(e, None, 0).value.code;
    EncodeInjective(e, ast);
    CompiledCallCorrect(ast, fs, 0);
  }

  /** The cache is transparent: with a coherent cache and no hash
      collision, a hit answers exactly what compiling afresh would, so every
      successful update yields the value of the lowered expression. */
  lemma CacheIsTransparent(c: Calculator, newInput: seq<InputBuffer.Byte>, editPos: nat, oldEnd: nat,
                           newEnd: nat, env: Environment, out: Outside)
    requires InputBuffer.UpdateRequires(c.buffer, newInput, editPos, oldEnd, newEnd)
    requires Coherent(c.cache, env.hasher)
    requires LoweredAst(newInput, env, out).Some?
    requires NoCollision(env.hasher, LoweredAst(newInput, env, out).value)
    ensures var o := UpdateInput(c, newInput, editPos, oldEnd, newEnd, env, out);
      o.result.Ok? ==> o.result.value == Interpret(LoweredAst(newInput, env, out).value, env.floats)
  {
    var ast := LoweredAst(newInput, env, out).value;
    var key := HashAst(env.hasher, ast);
    if key in c.cache {
      CoherentEntryValue(c.cache, env.hasher, ast, env.floats);
    } else {
      CompiledCallCorrect(ast, env.floats, out.now);
    }
  }

  /** Idempotence: once a text has been evaluated, evaluating the same tree
      again at any later time is a cache hit (nothing is compiled) and
      yields the same value. */
  lemma SecondEvaluationHits(c: Calculator, newInput: seq<InputBuffer.Byte>, editPos: nat, oldEnd: nat,
                             newEnd: nat, env: Environment, out: Outside,
                             editPos2: nat, oldEnd2: nat, newEnd2: nat, out2: Outside)
    requires InputBuffer.UpdateRequires(c.buffer, newInput, editPos, oldEnd, newEnd)
    requires UpdateInput(c, newInput, editPos, oldEnd, newEnd, env, out).result.Ok?
    requires InputBuffer.UpdateRequires(UpdateInput(c, newInput, editPos, oldEnd, newEnd, env, out).state.buffer,
                                        newInput, editPos2, oldEnd2, newEnd2)
    requires out2.parsed == out.parsed && out2.now >= out.now
    ensures var o1 := UpdateInput(c, newInput, editPos, oldEnd, newEnd, env, out);
      var o2 := UpdateInput(o1.state, newInput, editPos2, oldEnd2, newEnd2, env, out2);
      var key := HashAst(env.hasher, LoweredAst(newInput, env, out).value);
      && key in o1.state.cache
      && o2.result == o1.result
      && o2.state.cache == Touch(o1.state.cache, key, out2.now)
  {
    var ast := LoweredAst(newInput, env, out).value;
    var key := HashAst(env.hasher, ast);
    if key !in c.cache {
      var f := CompileExpr(ast, out.backendError, out.now).value;
      assert Age(out.now, f.lastUsed) == 0;
    }
  }
}
