/** The error taxonomy of the calculator: `CalcErrorKind` and the
    `CalculatorError` diagnostic wrapping it, with their display strings. */
module Errors {
  import opened Wrappers

  /** A miette `SourceSpan`: a byte offset and a byte length. */
  datatype Span = Span(offset: nat, length: nat)

  /** The closed set of error kinds; every variant carries a message. */
  datatype CalcErrorKind =
    | ParseError(message: string)
    | TypeMismatch(message: string)
    | InvalidOperator(message: string)
    | CompilationError(message: string)
    | JitError(message: string)
    | NumberError(message: string)
    | SystemError(message: string)

  /** The diagnostic handed to the user interface. `src` is the source text
      attached for rendering, `help` the optional hint. */
  datatype CalculatorError = CalculatorError(
    src: string,
    span: Span,
    kind: CalcErrorKind,
    help: Option<string>)

  /** The fixed text a kind's display starts with; a parse error shows
      this text alone. */
  function KindPrefix(k: CalcErrorKind): string {
    match k
    case ParseError(_) => "Invalid syntax"
    case TypeMismatch(_) => "Type mismatch: "
    case InvalidOperator(_) => "Invalid operator: "
    case CompilationError(_) => "Compilation error: "
    case JitError(_) => "JIT error: "
    case NumberError(_) => "Invalid number: "
    case SystemError(_) => "System error: "
  }

  /** The `Display` of a `CalcErrorKind`. */
  function KindDisplay(k: CalcErrorKind): string {
    if k.ParseError? then KindPrefix(k) else KindPrefix(k) + k.message
  }

  /** The `Display` of a `CalculatorError`. */
  function ErrorDisplay(e: CalculatorError): string {
    "Calculator error: " + KindDisplay(e.kind)
  }

  /** Reads a kind back from its display: the inverse of `KindDisplay` on
      every kind that keeps its payload. A parse error comes back with an
      empty message, since its display keeps none. */
  function KindFromDisplay(s: string): (r: Option<CalcErrorKind>)
    ensures r.Some? ==> KindPrefix(r.value) <= s
  {
    if s == "Invalid syntax" then Some(ParseError(""))
    else if "Type mismatch: " <= s then Some(TypeMismatch(s[15..]))
    else if "Invalid operator: " <= s then Some(InvalidOperator(s[18..]))
    else if "Compilation error: " <= s then Some(CompilationError(s[19..]))
    else if "JIT error: " <= s then Some(JitError(s[11..]))
    else if "Invalid number: " <= s then Some(NumberError(s[16..]))
    else if "System error: " <= s then Some(SystemError(s[14..]))
    else None
  }

  /** Reading back a display recovers the kind, and its message unless the
      kind is a parse error. */
  lemma KindDisplayRoundTrip(k: CalcErrorKind)
    ensures k.ParseError? ==> KindFromDisplay(KindDisplay(k)) == Some(ParseError(""))
    ensures !k.ParseError? ==> KindFromDisplay(KindDisplay(k)) == Some(k)
  {
    var s := KindDisplay(k);
    match k
    case ParseError(_) =>
    case TypeMismatch(m) =>
      assert "Type mismatch: " <= s;
      assert s[15..] == m;
    case InvalidOperator(m) =>
      assert s[0] == 'I' && s[8] == 'o';
      assert s[18..] == m;
    case CompilationError(m) =>
      assert s[0] == 'C';
      assert s[19..] == m;
    case JitError(m) =>
      assert s[0] == 'J';
      assert s[11..] == m;
    case NumberError(m) =>
      assert s[0] == 'I' && s[8] == 'n';
      assert s[16..] == m;
    case SystemError(m) =>
      assert s[0] == 'S';
      assert s[14..] == m;
  }

  /** Two kinds display alike only if they are equal or both parse errors:
      the display loses nothing but a parse error's message. */
  lemma KindDisplayInjective(a: CalcErrorKind, b: CalcErrorKind)
    requires KindDisplay(a) == KindDisplay(b)
    ensures a == b || (a.ParseError? && b.ParseError?)
  {
    KindDisplayRoundTrip(a);
    KindDisplayRoundTrip(b);
  }

  /** Every calculator error reads "Calculator error: " followed by its kind's
      display, and a parse error reads the same whatever its message. */
  lemma ErrorDisplayShape(e: CalculatorError)
    ensures "Calculator error: " <= ErrorDisplay(e)
    ensures e.kind.ParseError? ==> ErrorDisplay(e) == "Calculator error: Invalid syntax"
    ensures !e.kind.ParseError? ==> ErrorDisplay(e)[|ErrorDisplay(e)| - |e.kind.message|..] == e.kind.message
  {
  }
}
