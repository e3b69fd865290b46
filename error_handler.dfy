/** Diagnostics and the fail-fast error model. Every handler of the
    interpreter's error handler either returns a value or prints one
    positioned line and ends the process with exit code 400; here that end is
    the single outcome `Fatal`. An exception the interpreter does not catch
    ends the run too, as `Crash`. */
module ErrorHandler {
  import opened Values
  import opened Host

  /** The start token of the offending parse-tree node: ANTLR's 1-based line
      and 0-based column. */
  datatype Pos = Pos(line: int, col: int)

  /** What a fatal handler reports, with the parts its message is built from. */
  datatype Diagnostic =
    | UndefinedVariable(name: string)
    | NotConvertibleToBoolean(shown: string)
    | NotConvertible(from: string, to: string)
    | UndeclaredVariable(name: string)
    | InvalidScanInputs(expected: int, got: int)
    | InvalidScanFormat(input: string, typeName: string)
    | InvalidOperands(verb: string, left: string, right: string)
    | InvalidComparison(left: string, right: string, op: string)
    | NotBoolean
    | InvalidUnary(symbol: string)
    | InvalidEscapeSequence(shown: string)
    | InfiniteLoop

  /** The .NET exceptions the interpreter lets escape. */
  datatype Exception =
    | NullReference
    | KeyNotFound
    | DivideByZero
    | Overflow
    | Format
    | InvalidCast
    | IndexOutOfRange
    | ArgumentOutOfRange
    | NotImplemented

  datatype Error =
    | Fatal(pos: Pos, diag: Diagnostic)
    | Crash(exception: Exception)

  /** The exit code every fatal handler passes to `Environment.Exit`. */
  const FatalExitCode: int := 400

  datatype Result<+T> = Ok(value: T) | Err(error: Error) {
    predicate IsFailure() {
      Err?
    }

    function PropagateFailure<U>(): Result<U>
      requires Err?
    {
      Err(error)
    }

    function Extract(): T
      requires Ok?
    {
      value
    }
  }

  /** A condition must be a Boolean; anything else cannot be converted. */
  function HandleLogicError(p: Platform, pos: Pos, v: Value): (r: Result<bool>)
    ensures r.Ok? <==> v.Bool?
    ensures r.Ok? ==> r.value == v.b
    ensures r.Err? ==> r.error == Fatal(pos, NotConvertibleToBoolean(DefaultText(p, v)))
  {
    if v.Bool? then Ok(v.b) else Err(Fatal(pos, NotConvertibleToBoolean(DefaultText(p, v))))
  }

  /** A value may be stored under a declared type only when it is non-null and
      its runtime type is exactly that type: no widening of an `int` to a `float`. */
  function HandleTypeError(pos: Pos, v: Value, t: DeclType): (r: Result<bool>)
    ensures r.Ok? <==> KindOf(v) == Some(t)
    ensures r.Ok? ==> r.value
    ensures r.Err? ==> r.error == Fatal(pos, NotConvertible(TypeName(v), DeclTypeName(t)))
  {
    var known := v.Int? || v.Real? || v.Bool? || v.Char? || v.Text?;
    if known && KindOf(v) == Some(t) then Ok(true)
    else Err(Fatal(pos, NotConvertible(TypeName(v), DeclTypeName(t))))
  }

  /** Succeeds with `true` exactly when the key is present. */
  function HandleUndeclaredVariableError<V>(pos: Pos, dictionary: map<string, V>, key: string): (r: Result<bool>)
    ensures r.Ok? <==> key in dictionary
    ensures r.Ok? ==> r.value
    ensures r.Err? ==> r.error == Fatal(pos, UndeclaredVariable(key))
  {
    if key in dictionary then Ok(true) else Err(Fatal(pos, UndeclaredVariable(key)))
  }

  /** The words after the position in a diagnostic line. */
  function Message(d: Diagnostic): string {
    match d
    case UndefinedVariable(name) => "variable '" + name + "' is not defined.\n"
    case NotConvertibleToBoolean(shown) => "cannot convert " + shown + " to boolean. "
    case NotConvertible(from, to) => "cannot convert " + from + " to " + to + "."
    case UndeclaredVariable(name) => "variable '" + name + "' has not been declared."
    case InvalidScanInputs(expected, got) =>
      "invalid number of inputs. Expected between 1 and " + IntText(expected) + ", but got " + IntText(got) + "."
    case InvalidScanFormat(input, typeName) =>
      "input '" + input + "' is not in the expected format for data type " + typeName + "."
    case InvalidOperands(verb, left, right) => "cannot " + verb + " values of types " + left + " and " + right
    case InvalidComparison(left, right, op) =>
      "cannot compare values of types " + left + " and " + right + " with '" + op + "' operator"
    case NotBoolean => "argument must be of boolean value."
    case InvalidUnary(symbol) => "cannot get unary value for symbol " + symbol
    case InvalidEscapeSequence(shown) => "invalid escape sequence character: " + shown
    case InfiniteLoop => "infinite loop detected."
  }

  /** The line a fatal handler prints: `Error: <line>:<col> -> <message>`,
      except the scan-format error, which names its location and line only. */
  function DiagnosticLine(pos: Pos, d: Diagnostic): (line: string)
    ensures |line| > 7 + |Message(d)| && line[..7] == "Error: "
    ensures line[|line| - |Message(d)|..] == Message(d)
  {
    if d.InvalidScanFormat? then "Error: in Input Scan, in line " + IntText(pos.line) + " -> " + Message(d)
    else "Error: " + IntText(pos.line) + ":" + IntText(pos.col) + " -> " + Message(d)
  }

  /** Two lines of the usual `line:col` form for the same diagnostic are equal
      only when the positions are, so a printed line names its position. */
  lemma DiagnosticLineNamesPosition(p1: Pos, p2: Pos, d: Diagnostic)
    requires !d.InvalidScanFormat?
    requires DiagnosticLine(p1, d) == DiagnosticLine(p2, d)
    ensures p1 == p2
  {
    var m := " -> " + Message(d);
    var x1 := IntText(p1.line) + ":" + IntText(p1.col);
    var x2 := IntText(p2.line) + ":" + IntText(p2.col);
    LineShape(p1, d);
    LineShape(p2, d);
    Unaffix("Error: ", x1, x2, m);
    IntTextNoColon(p1.line);
    IntTextNoColon(p2.line);
    SplitAtColon(IntText(p1.line), IntText(p1.col), IntText(p2.line), IntText(p2.col));
    IntTextInjective(p1.line, p2.line);
    IntTextInjective(p1.col, p2.col);
  }

  /** A scan-format line for a given diagnostic names the line it comes from. */
  lemma ScanFormatLineNamesLine(p1: Pos, p2: Pos, d: Diagnostic)
    requires d.InvalidScanFormat?
    requires DiagnosticLine(p1, d) == DiagnosticLine(p2, d)
    ensures p1.line == p2.line
  {
    var h := "Error: in Input Scan, in line ";
    var m := " -> " + Message(d);
    LineShape(p1, d);
    LineShape(p2, d);
    Unaffix(h, IntText(p1.line), IntText(p2.line), m);
    IntTextInjective(p1.line, p2.line);
  }

  /** The three parts of a diagnostic line: a fixed head, the position, and the message. */
  lemma LineShape(pos: Pos, d: Diagnostic)
    ensures d.InvalidScanFormat? ==>
      DiagnosticLine(pos, d) == "Error: in Input Scan, in line " + IntText(pos.line) + (" -> " + Message(d))
    ensures !d.InvalidScanFormat? ==>
      DiagnosticLine(pos, d) == "Error: " + (IntText(pos.line) + ":" + IntText(pos.col)) + (" -> " + Message(d))
  {
  }

  /** The middle of a text is fixed by its two ends. */
  lemma Unaffix(h: string, x1: string, x2: string, m: string)
    requires h + x1 + m == h + x2 + m
    ensures x1 == x2
  {
    assert |x1| == |x2|;
    assert x1 == (h + x1 + m)[|h|..|h| + |x1|];
    assert x2 == (h + x2 + m)[|h|..|h| + |x2|];
  }

  /** A printed number never contains a colon. */
  lemma IntTextNoColon(i: int)
    ensures ':' !in IntText(i)
  {
    var s := IntText(i);
    if i >= 0 {
      assert forall k :: 0 <= k < |s| ==> IsDigit(s[k]);
    } else {
      assert forall k :: 1 <= k < |s| ==> IsDigit(s[k]);
    }
  }

  /** Text joined at a colon splits back at its first colon. */
  lemma SplitAtColon(a1: string, b1: string, a2: string, b2: string)
    requires ':' !in a1 && ':' !in a2
    requires a1 + ":" + b1 == a2 + ":" + b2
    ensures a1 == a2 && b1 == b2
  {
    var x := a1 + ":" + b1;
    assert |a1| == |a2| by {
      assert x[|a1|] == ':' && x[|a2|] == ':';
    }
    assert a1 == x[..|a1|] == a2;
    assert b1 == x[|a1| + 1..] == b2;
  }
}
