# CODE interpreter core in Dafny

CODE is a small, strongly typed teaching language. Its programs declare `INT`,
`FLOAT`, `BOOL`, `CHAR` and `STRING` variables and use `DISPLAY:` and `SCAN:`.
They also have `IF` / `ELSE IF` / `ELSE`, `WHILE` and `DO WHILE` loops,
arithmetic, comparison and logical operators, concatenation with `&`, escape
codes in brackets and `$` for a newline. An ANTLR parse tree is walked by a
visitor. The visitor keeps two tables: the symbol table (name to value) and the
type table (name to declared type).

This project models that visitor and the helpers it calls:

- the operator semantics of the evaluator;
- the literal decoding and conversions of the constant helpers;
- the diagnostics of the error handler, where every fatal report ends the run
  with exit code 400.

The modules, in dependency order:

- `Values`: the tagged runtime value (`Empty` for C# `null`, `Int` for a 32-bit
  `int`, `Real` for the bits of a `float`, `Bool`, `Char`, `Text`). Also
  32-bit wrap-around, `object.Equals`, .NET type names, and decimal text.
- `Host`: the .NET services the core calls but whose code is not modelled. These
  are `float` arithmetic, comparison and formatting, and the `int`, `float` and
  `bool` parsers. They are one `Platform` record of functions, so every result
  holds for any runtime.
- `ErrorHandler`: source positions, the diagnostics, the two ways a run can end
  abnormally (`Fatal`, a reported error followed by exit 400, and `Crash`, an
  unhandled .NET exception), and the checking handlers.
- `Evaluator`: the unary, arithmetic, relational, logical and escape operators.
- `CodeConstant`: literal decoding, type keywords, display text, concatenation,
  checked lookup, `Convert.ChangeType`, and the `Split` / `Trim` the scan uses.
- `Syntax`: the statement and expression trees that stand in for the parse tree.
- `Expressions`: the expression visitors, as one evaluation function.
- `Statements`: the store and the semantics of the simple statements.
- `Control`: blocks, the if chain, the two loops with their iteration cap, and
  whole programs.
- `Visitor`: the class `CodeVisitor`, whose fields are the two tables and the
  console. Its visit methods update those fields in place. Each method is proved
  to end in exactly the state, and with exactly the error, that the matching
  specification function of `Statements` or `Control` gives.

A run's state is a `Store`:

- the symbol table;
- the type table;
- the console lines still to be read;
- the text written so far.

A statement ends in `Next(store)` or `Halt(error, store)`. The cap
`MAX_LOOP_ITERATIONS` is a positive parameter.

## Model

| member | source | states |
|---|---|---|
| Values.Wrap32 | CodeInterpreter.Generators/Evaluators/Evaluator.cs:27-28 | The result is an `int` congruent to the exact value modulo 2^32, and equals it when it already fits: C#'s unchecked `int` arithmetic. |
| Values.Negate | CodeInterpreter.Generators/Evaluators/Evaluator.cs:19 | Negating a `float` keeps its magnitude bits and flips its sign bit. |
| Values.KindOf | CodeInterpreter.Generators/ErrorHandlers/ErrorHandler.cs:34-36 | Each value kind corresponds to exactly one declared type, and `null` to none. |
| Values.SingleEquals | CodeInterpreter.Generators/Evaluators/Evaluator.cs:176-183 | `Single.Equals` on two floats: NaN equals NaN, the two zeros are equal, and otherwise the bits must agree; its properties are the two lemmas below. |
| Values.ObjectEquals | CodeInterpreter.Generators/Evaluators/Evaluator.cs:176-183 | `left.Equals(right)` on a non-null boxed value: equal only to a value of the same kind, floats through `SingleEquals`; its properties are the two lemmas below. |
| Values.ObjectEqualsIsEquivalence | CodeInterpreter.Generators/Evaluators/Evaluator.cs:176-183 | `left.Equals(right)` is reflexive and symmetric, and holds only between values of the same kind. |
| Values.ObjectEqualsTransitive | CodeInterpreter.Generators/Evaluators/Evaluator.cs:176-183 | `left.Equals(right)` is transitive, NaN and the two zeros included, so with the lemma above it is an equivalence. |
| Values.TypeName | CodeInterpreter.Generators/ErrorHandlers/ErrorHandler.cs:44 | The .NET type name printed in a diagnostic is empty exactly for `null`. |
| Values.DeclTypeName | CodeInterpreter.Generators/ErrorHandlers/ErrorHandler.cs:44 | The name printed for a declared type is the name printed for every value of that type. |
| Values.NatText | CodeInterpreter.Generators/ErrorHandlers/ErrorHandler.cs:10-12 | The decimal text of a line or column number is non-empty and all digits. |
| Values.NatTextRoundTrip | CodeInterpreter.Generators/ErrorHandlers/ErrorHandler.cs:10-12 | Reading the printed digits back gives the number printed. |
| Values.NatTextInjective | CodeInterpreter.Generators/ErrorHandlers/ErrorHandler.cs:10-12 | Distinct natural numbers print differently. |
| Values.Utf16Length | CodeInterpreter.Generators/CodeConstants/CodeConstant.cs:103 | .NET's `string.Length`: between one and two units per character, and exactly one unit only for a single character of the Basic Multilingual Plane. |
| Values.IntText | CodeInterpreter.Generators/CodeConstants/CodeConstant.cs:122 | `int.ToString()`: a minus sign for a negative number, then its decimal digits; its properties are `IntTextSign` and `IntTextInjective`. |
| Values.IntTextSign | CodeInterpreter.Generators/CodeConstants/CodeConstant.cs:88 | A printed `int` is non-empty and starts with `-` exactly when it is negative. |
| Values.IntTextInjective | CodeInterpreter.Generators/CodeConstants/CodeConstant.cs:88 | Distinct integers print differently, so the display of an `int` identifies it. |
| Host.DefaultText | CodeInterpreter.Generators/CodeConstants/CodeConstant.cs:122 | The text `$"{v}"` gives a value: empty for `null`, `True`/`False` for a Boolean, the decimal text for an `int`, the character or string itself; `AppendVersusAdd` and `IntTextInjective` are stated about it. |
| ErrorHandler.HandleLogicError | CodeInterpreter.Generators/ErrorHandlers/ErrorHandler.cs:16-30 | Succeeds exactly on a Boolean and returns it; anything else is the fatal "cannot convert … to boolean" at the given position. |
| ErrorHandler.HandleTypeError | CodeInterpreter.Generators/ErrorHandlers/ErrorHandler.cs:32-57 | Succeeds exactly when the value's kind is the declared type; otherwise the fatal "cannot convert" naming both type names, `null` included. |
| ErrorHandler.HandleUndeclaredVariableError | CodeInterpreter.Generators/ErrorHandlers/ErrorHandler.cs:69-83 | Succeeds exactly when the key is in the table; otherwise the fatal undeclared-variable error for that key. |
| ErrorHandler.DiagnosticLine | CodeInterpreter.Generators/ErrorHandlers/ErrorHandler.cs:8-164 | Every printed diagnostic starts with `Error: ` and ends with the handler's message; the position between them is pinned down by the next two lemmas. |
| ErrorHandler.Message | CodeInterpreter.Generators/ErrorHandlers/ErrorHandler.cs:12-161 | The words each handler prints after `->`, one per diagnostic, with the handler's own spacing and punctuation (the trailing newline of the undefined-variable message and the trailing space of the Boolean-conversion message included); `DiagnosticLine` ends with it. |
| ErrorHandler.DiagnosticLineNamesPosition | CodeInterpreter.Generators/ErrorHandlers/ErrorHandler.cs:10-12 | Two `Error: <line>:<col> -> <message>` lines for the same diagnostic are equal only when the line and column are, so the printed line identifies the start token's position. |
| ErrorHandler.ScanFormatLineNamesLine | CodeInterpreter.Generators/ErrorHandlers/ErrorHandler.cs:94-101 | Two scan-format lines for the same diagnostic are equal only when their line numbers are, so the printed line identifies the line of the scan. |
| Evaluator.Unary | CodeInterpreter.Generators/Evaluators/Evaluator.cs:9-23 | `+` returns its operand unchanged. `-` succeeds exactly on a number. It negates an `int` modulo 2^32, exactly except at `int.MinValue`, and flips a `float`'s sign bit. Any other operand is the fatal unary error. |
| Evaluator.UnaryMinusInvolutive | CodeInterpreter.Generators/Evaluators/Evaluator.cs:9-23 | Applying `-` twice to any number gives it back, `int.MinValue` included. |
| Evaluator.Add | CodeInterpreter.Generators/Evaluators/Evaluator.cs:25-44 | Succeeds exactly on two numbers or when either side is a string. Two `int`s give their wrapped sum. A mixed pair is promoted to `float`. Otherwise the result is string concatenation. The error names both type names. |
| Evaluator.Subtract | CodeInterpreter.Generators/Evaluators/Evaluator.cs:46-61 | Succeeds exactly on two numbers: the wrapped `int` difference, or the `float` difference after promotion; otherwise the fatal operand error. |
| Evaluator.Multiply | CodeInterpreter.Generators/Evaluators/Evaluator.cs:63-78 | Succeeds exactly on two numbers: the wrapped `int` product, or the `float` product after promotion; otherwise the fatal operand error. |
| Evaluator.TruncDiv | CodeInterpreter.Generators/Evaluators/Evaluator.cs:82-83 | C#'s `int` `/`, rounding toward zero; characterised independently by `TruncDivRem`. |
| Evaluator.TruncRem | CodeInterpreter.Generators/Evaluators/Evaluator.cs:100-101 | C#'s `int` `%`, what remains after the truncated quotient; characterised independently by `TruncDivRem`. |
| Evaluator.TruncDivRem | CodeInterpreter.Generators/Evaluators/Evaluator.cs:82-83 | C# integer division truncates toward zero: `a == b*q + r`, the remainder is smaller than the divisor in absolute value and takes the sign of `a`, and the quotient is no larger than `a` in absolute value. |
| Evaluator.TruncDivInRange | CodeInterpreter.Generators/Evaluators/Evaluator.cs:82-83 | For 32-bit operands, other than a zero divisor or `int.MinValue / -1`, the quotient and remainder fit in 32 bits. |
| Evaluator.Divide | CodeInterpreter.Generators/Evaluators/Evaluator.cs:80-95 | Two `int`s give the truncated quotient. A zero divisor is a `DivideByZeroException`, and `int.MinValue / -1` an `OverflowException`. Mixed numbers are divided as `float`s. Non-numbers are the fatal operand error. |
| Evaluator.Modulo | CodeInterpreter.Generators/Evaluators/Evaluator.cs:97-112 | The same cases as division, with the truncated remainder: on two `int`s it fails only for a zero divisor (`DivideByZeroException`) or `int.MinValue % -1` (`OverflowException`). |
| Evaluator.DivideModuloAgree | CodeInterpreter.Generators/Evaluators/Evaluator.cs:80-112 | On two `int`s, `/` and `%` fail together, and when they succeed `a == b * (a / b) + a % b`. |
| Evaluator.Relational | CodeInterpreter.Generators/Evaluators/Evaluator.cs:114-188 | An ordering succeeds exactly on two `int`s or two `float`s, gives a Boolean, and compares mathematically or through the platform. `==` and `<>` use `Equals` and give `null` for a `null` left side. The errors are the fatal comparison errors. |
| Evaluator.EqualityAcrossKinds | CodeInterpreter.Generators/Evaluators/Evaluator.cs:176-183 | Values of different kinds are never `==` (so `1 == 1.0` is false). `<>` is the negation of `==`, and every non-null value equals itself. |
| Evaluator.ToBoolean | CodeInterpreter.Generators/Evaluators/Evaluator.cs:193 | `Convert.ToBoolean` returns a Boolean as it is, `null` as false and an `int` as non-zero; it throws exactly on a `char` or on a string the `bool` parser rejects. |
| Evaluator.Negation | CodeInterpreter.Generators/Evaluators/Evaluator.cs:191-203 | `NOT` succeeds exactly on a Boolean and negates it; a convertible non-Boolean is the fatal "argument must be of boolean value". |
| Evaluator.BoolOperation | CodeInterpreter.Generators/Evaluators/Evaluator.cs:205-216 | On Booleans `AND` / `OR` are conjunction and disjunction. A false left side decides `AND` and a true one decides `OR`, whatever the right is. Failures are only conversion exceptions. |
| Evaluator.Escape | CodeInterpreter.Generators/Evaluators/Evaluator.cs:218-229 | An escape yields the one-character string of its bracketed character; a missing character is the fatal escape-sequence error. |
| CodeConstant.DropEscapes | CodeInterpreter.Generators/CodeConstants/CodeConstant.cs:51 | `Regex.Replace(text, @"\\(.)", "$1")` drops escape backslashes: the result is never longer than the text and at least half as long, since each kept character uses up at most one backslash. `Data` reaches this branch only for a STRING token whose text is not wrapped in double quotes, so an ordinary quoted string literal never goes through it. |
| CodeConstant.DropEscapesRoundTrip | CodeInterpreter.Generators/CodeConstants/CodeConstant.cs:51 | Removing backslash escapes inverts escaping every backslash and quote. |
| CodeConstant.DropEscapesNoBackslash | CodeInterpreter.Generators/CodeConstants/CodeConstant.cs:51 | A text without backslashes passes through unchanged. |
| CodeConstant.Data | CodeInterpreter.Generators/CodeConstants/CodeConstant.cs:25-62 | Text in double quotes becomes the string between them, whatever its token. Text in single quotes becomes the character at index 1. Only then are `INT` and `FLOAT` parsed to their kinds. |
| CodeConstant.ConstantExpressionParser | CodeInterpreter.Generators/CodeConstants/CodeConstant.cs:138-151 | A BOOL constant is true exactly when its text is `"TRUE"`. A STRING constant is its text minus the first and last characters. A CHAR constant is its index-1 character. INT and FLOAT constants are what the platform parser returns. |
| CodeConstant.DecodersCompared | CodeInterpreter.Generators/CodeConstants/CodeConstant.cs:25-151 | The two decoders agree on every double-quoted string, backslashes included: for the literal `"a\"b"`, `Data` keeps `a\"b`, backslash and all. But `"TRUE"` is a string to one and a Boolean to the other. |
| CodeConstant.KeywordType | CodeInterpreter.Generators/CodeConstants/CodeConstant.cs:64-81 | Succeeds exactly on the five type keywords; anything else is a `NotImplementedException`. |
| CodeConstant.KeywordTypeBijective | CodeInterpreter.Generators/CodeConstants/CodeConstant.cs:64-81 | The keyword-to-type mapping is a bijection between the five keywords and the five types. |
| CodeConstant.UpperBooleanText | CodeInterpreter.Generators/CodeConstants/CodeConstant.cs:86 | Upper-casing `True` and `False` gives `TRUE` and `FALSE`. |
| CodeConstant.DisplayText | CodeInterpreter.Generators/CodeConstants/CodeConstant.cs:83-92 | A Boolean is shown as `TRUE` / `FALSE`; every other value as its default C# text. |
| CodeConstant.Append | CodeInterpreter.Generators/CodeConstants/CodeConstant.cs:114-123 | `&` always gives a string: the left side's display text followed by the right side's. |
| CodeConstant.AppendVersusAdd | CodeInterpreter.Generators/CodeConstants/CodeConstant.cs:114-123 | `&` shows a Boolean as `TRUE`/`FALSE`, whereas the default text (used by `+` with a string) is `True`/`False`. |
| CodeConstant.Identifier | CodeInterpreter.Generators/CodeConstants/CodeConstant.cs:125-136 | Lookup succeeds exactly for a bound name and returns its value; otherwise the fatal undefined-variable error. |
| CodeConstant.VariableDeclarations | CodeInterpreter.Generators/CodeConstants/CodeConstant.cs:12-23 | The same checked lookup, for a declared-variable reference. |
| CodeConstant.ChangeType | CodeInterpreter.Generators/CodeConstants/CodeConstant.cs:163 | A converted value always has the requested type. A string is taken as is. A `char` needs a piece of exactly one UTF-16 unit, as `Convert.ToChar` demands, so a character outside the Basic Multilingual Plane is a format error. `int`, `float` and `bool` convert exactly when their parsers accept. |
| CodeConstant.TrimStart | CodeInterpreter.Generators/CodeVisitor.cs:303 | The result is a suffix of the input, after only white space, and does not start with white space. |
| CodeConstant.TrimEnd | CodeInterpreter.Generators/CodeVisitor.cs:303 | The result is a prefix of the input, followed by only white space, and does not end with white space. |
| CodeConstant.Trim | CodeInterpreter.Generators/CodeVisitor.cs:303 | The result is the slice of the input left after removing white space at the two ends only: everything before it and after it is white space, and it neither starts nor ends with white space. |
| CodeConstant.Split | CodeInterpreter.Generators/CodeVisitor.cs:303 | Splitting gives at least one piece, and no piece contains the separator. |
| CodeConstant.SplitJoin | CodeInterpreter.Generators/CodeVisitor.cs:303 | Joining the pieces with the separator gives the line back, so splitting loses nothing. |
| Expressions.Eval | CodeInterpreter.Generators/CodeVisitor.cs:99-298 | An identifier evaluates exactly when it is bound, and otherwise gives the undefined-variable error at its position. `&` gives a string. `NOT` and `AND`/`OR` give Booleans. `$` is a newline. An escape evaluates exactly when it has a character after its bracket. |
| Expressions.EvalFrame | CodeInterpreter.Generators/CodeVisitor.cs:99-193 | Evaluation depends only on the names the expression reads: two tables that agree on them give the same result. |
| Expressions.EvalIgnoresOtherNames | CodeInterpreter.Generators/CodeVisitor.cs:107-111 | Storing a name the expression does not read leaves its value unchanged. |
| Expressions.ParenAndNot | CodeInterpreter.Generators/CodeVisitor.cs:173-183 | Parentheses do not change a value, and `NOT NOT` gives back a Boolean. |
| Statements.Declare | CodeInterpreter.Generators/CodeVisitor.cs:21-59 | A declaration, with the corrected initialiser pairing of Findings: the type keyword is checked first (anything else than the five keywords is a `NotImplementedException`), then the declarators run in order through `Statements.DeclareFrom`. Its properties are the declaration lemmas below. |
| Statements.DeclareOne | CodeInterpreter.Generators/CodeVisitor.cs:35-56 | One declarator: a bound name only adds its redefinition line; a fresh name without `=` is bound to `null` under the type; a fresh name with `=` and an initialiser gets a value of exactly the declared type; with `=` but no initialiser left nothing changes; a halt changes nothing; no other name changes. |
| Statements.DeclareFrom | CodeInterpreter.Generators/CodeVisitor.cs:33-57 | The declarators from a given index on, each with its positionally paired initialiser (the corrected pairing of Findings); stops at the first failing type check. Its properties: `PairingInOrder`, `DeclareRedefinition`, `DeclareAllBound`, `DeclareKeepsBound`, `DeclareWithoutInit`, `DeclareWithInit`, `DeclareWellTyped`. |
| Statements.DeclareAsWritten | CodeInterpreter.Generators/CodeVisitor.cs:33-57 | The declaration loop as the source writes it, where a redeclared name does not advance the initialiser counter; `RedeclaredInitialiserShift` shows where it differs from `DeclareFrom`. |
| Statements.PairingInOrder | CodeInterpreter.Generators/CodeVisitor.cs:40-50 | Initialisers go to the `=` declarators in textual order, and each such declarator gets one when the counts match. |
| Statements.DeclareKeepsBound | CodeInterpreter.Generators/CodeVisitor.cs:35-39 | A name bound before a declaration keeps its value and type; a redeclaration changes neither. |
| Statements.DeclareRedefinition | CodeInterpreter.Generators/CodeVisitor.cs:35-39 | A name declared a second time adds its `Error: Redefinition of variable` line to the output and the declaration goes on with the next declarator, tables unchanged. |
| Statements.DeclareAllBound | CodeInterpreter.Generators/CodeVisitor.cs:33-39 | A declaration whose names are all bound already never halts: it writes one redefinition line per declarator, in order, and changes neither table. |
| Statements.DeclareWithoutInit | CodeInterpreter.Generators/CodeVisitor.cs:52-56 | A fresh name declared without `=` ends up bound to `null` under the declared type. |
| Statements.DeclareWithInit | CodeInterpreter.Generators/CodeVisitor.cs:40-50 | Under the corrected pairing (see Findings), for an initialiser that reads no name the declaration itself introduces (so `INT a = 1, b = a` is outside it): when the declaration completes, a fresh name declared with `=` holds the value its paired initialiser has in the state before the declaration, and that value has the declared type. |
| Statements.DeclareWellTyped | CodeInterpreter.Generators/CodeVisitor.cs:21-59 | A declaration keeps the two tables on the same names, each value `null` or of its declared type. |
| Statements.RedeclaredInitialiserShift | CodeInterpreter.Generators/CodeVisitor.cs:35-50 | With `a` already bound, `BOOL a = "FALSE", b = "TRUE"` as written gives `b` the value false, where positional pairing gives true. |
| Statements.AssignOne | CodeInterpreter.Generators/CodeVisitor.cs:61-74 | One target is stored exactly when the expression evaluates, the target has a declared type and the value has that type. On success only that name changes; on failure nothing changes. |
| Statements.AssignFrom | CodeInterpreter.Generators/CodeVisitor.cs:61-74 | The targets from a given index on, each stored through `AssignOne` in the state left by the previous one; its properties are `AssignFrame`, `AssignFromKeeps`, `AssignTargetsTyped`, `AssignSameValue` and `AssignWellTyped`. |
| Statements.AssignFrame | CodeInterpreter.Generators/CodeVisitor.cs:61-74 | An assignment changes only its targets: types, input and output stay, and every other bound name keeps its value. |
| Statements.AssignFromKeeps | CodeInterpreter.Generators/CodeVisitor.cs:61-74 | A bound name that is not a remaining target keeps its value. |
| Statements.AssignTargetsTyped | CodeInterpreter.Generators/CodeVisitor.cs:61-74 | After a completed assignment every target holds a value of exactly its declared type. |
| Statements.AssignSameValue | CodeInterpreter.Generators/CodeVisitor.cs:61-74 | When the expression reads none of the targets, a completed chained assignment gives every target the expression's value in the starting state. |
| Statements.AssignWellTyped | CodeInterpreter.Generators/CodeVisitor.cs:61-74 | Assignment keeps every bound value within its declared type. |
| Statements.VariableAssign | CodeInterpreter.Generators/CodeVisitor.cs:118-124 | Succeeds exactly on a type keyword. The name then gets that type and `null`. Every other name keeps its value and its type, the input and output are unchanged, and typing is preserved. Any other keyword is a `NotImplementedException` that changes nothing. |
| Statements.DisplayStmt | CodeInterpreter.Generators/CodeVisitor.cs:88-92 | Succeeds exactly when the expression evaluates. The output then grows by exactly the value's display text, and the tables and input are unchanged. |
| Statements.Pieces | CodeInterpreter.Generators/CodeVisitor.cs:302-303 | An input line gives one trimmed piece per comma-separated part, and at least one. |
| Statements.ScanValue | CodeInterpreter.Generators/CodeConstants/CodeConstant.cs:153-171 | A stored piece replaces only the identifier's value, with the piece converted to its declared type; a failure changes nothing. |
| Statements.ScanValueOutcome | CodeInterpreter.Generators/CodeConstants/CodeConstant.cs:153-171 | Storing a piece succeeds exactly when the identifier has a type and the piece converts to it. An undeclared identifier and a wrong format are the two reported errors. |
| Statements.ScanFrom | CodeInterpreter.Generators/CodeVisitor.cs:310-318 | The pieces from a given index on, each stored to the identifier in the same position; an identifier missing from the symbol table ends the scan through the undeclared check. Its properties are the `ScanFrom` lemmas below. |
| Statements.ScanStmt | CodeInterpreter.Generators/CodeVisitor.cs:300-321 | A scan statement: no line left is a `NullReferenceException`, a wrong number of pieces is the input-count error after the line is consumed, otherwise `ScanFrom`. Its properties: `ScanPieceCount`, `ScanFromFrame`, `ScanAssignsPositionally`, `ScanStopsAtUndeclared`. |
| Statements.ScanPieceCount | CodeInterpreter.Generators/CodeVisitor.cs:302-308 | A line always has a piece, and more pieces than identifiers is the input-count error before anything is stored. |
| Statements.ScanFromFrame | CodeInterpreter.Generators/CodeVisitor.cs:310-318 | Scanning touches only the scanned names and never changes the types, the remaining input or the output. |
| Statements.ScanFromWellTyped | CodeInterpreter.Generators/CodeVisitor.cs:310-318 | Scanning keeps every bound value within its declared type. |
| Statements.ScanFromKeeps | CodeInterpreter.Generators/CodeVisitor.cs:310-318 | A bound name not among the remaining identifiers keeps its value. |
| Statements.ScanAssignsPositionally | CodeInterpreter.Generators/CodeVisitor.cs:310-318 | With distinct identifiers, a completed scan gives the i-th identifier the i-th piece converted to its declared type. |
| Statements.ScanStopsAtUndeclared | CodeInterpreter.Generators/CodeVisitor.cs:310-318 | An undeclared identifier stops the scan with its error, and the pieces stored before it stay stored. |
| Control.ExecStmt | CodeInterpreter.Generators/CodeVisitor.cs:21-298 | One statement, dispatched to its semantics; a condition is evaluated and checked with `HandleLogicError` at the statement's position. Its properties are the if-chain, loop and typing lemmas below. |
| Control.ExecBlock | CodeInterpreter.Generators/CodeVisitor.cs:203-207 | The statements of a block in order, up to the first that halts; `ExecBlockWellTyped` is its invariant. |
| Control.ElseIfChain | CodeInterpreter.Generators/CodeVisitor.cs:209-234 | The else-if branches from a given index on, then the else block; `ElseIfSkipAll`, `IfFirstMatch`, `IfNoneMatch` and `IfNonBoolean` state its behaviour. |
| Control.WhileFrom | CodeInterpreter.Generators/CodeVisitor.cs:239-262 | A while body never runs more than `MAX_LOOP_ITERATIONS` times. |
| Control.DoWhileFrom | CodeInterpreter.Generators/CodeVisitor.cs:264-287 | A do-while body runs at least once and never more than `MAX_LOOP_ITERATIONS` times. |
| Control.ElseIfSkipAll | CodeInterpreter.Generators/CodeVisitor.cs:211-224 | Else-if branches whose conditions are false are passed over in order. |
| Control.IfFirstMatch | CodeInterpreter.Generators/CodeVisitor.cs:195-224 | The block of the first true condition of the chain runs, and only it. |
| Control.IfNoneMatch | CodeInterpreter.Generators/CodeVisitor.cs:209-234 | When every condition is false, the else block runs (none at all when there is no else part). |
| Control.IfNonBoolean | CodeInterpreter.Generators/CodeVisitor.cs:198-215 | The first condition of the chain that is not a Boolean stops the program with "cannot convert … to boolean" at the if statement's position. |
| Control.WhileAlwaysTrue | CodeInterpreter.Generators/CodeVisitor.cs:244-249 | With a condition that never becomes false, the body runs exactly `MAX_LOOP_ITERATIONS` times, and then comes the infinite-loop error. |
| Control.DoWhileAlwaysTrue | CodeInterpreter.Generators/CodeVisitor.cs:269-284 | The same for do-while: exactly `MAX_LOOP_ITERATIONS` runs, then the infinite-loop error. |
| Control.DoWhileCapIgnoresCondition | CodeInterpreter.Generators/CodeVisitor.cs:276-284 | The cap-th run of a do-while body is the infinite-loop error even when the condition has just become false. One run fewer ends normally. |
| Control.ExecStmtWellTyped | CodeInterpreter.Generators/CodeVisitor.cs:21-321 | Every statement keeps every bound value `null` or of its declared type. |
| Control.ExecBlockWellTyped | CodeInterpreter.Generators/CodeVisitor.cs:203-233 | So does every block. |
| Control.ElseIfChainWellTyped | CodeInterpreter.Generators/CodeVisitor.cs:211-234 | So does every else-if chain. |
| Control.WhileWellTyped | CodeInterpreter.Generators/CodeVisitor.cs:239-262 | So does every while loop. |
| Control.DoWhileWellTyped | CodeInterpreter.Generators/CodeVisitor.cs:264-287 | So does every do-while loop. |
| Control.Run | CodeInterpreter.Generators/CodeVisitor.cs:13-19 | A whole program, started with empty tables on the given input lines; `RunWellTyped` is its invariant. |
| Control.RunWellTyped | CodeInterpreter.Generators/CodeVisitor.cs:13-19 | A whole program, however it ends, leaves a symbol table in which every value is `null` or of its declared type. |
| Visitor.CodeVisitor.constructor | CodeInterpreter.Generators/CodeVisitor.cs:13-14 | A new visitor starts with empty tables, the given input and no output. |
| Visitor.CodeVisitor.VisitDeclarations | CodeInterpreter.Generators/CodeVisitor.cs:21-59 | The in-place loop over the declarators ends in exactly the state and error of `Statements.Declare`, with initialisers paired positionally. |
| Visitor.CodeVisitor.VisitAssignment | CodeInterpreter.Generators/CodeVisitor.cs:61-74 | The in-place loop over the targets ends in exactly the state and error of `Statements.AssignFrom`. |
| Visitor.CodeVisitor.VisitVariableAssignment | CodeInterpreter.Generators/CodeVisitor.cs:118-124 | Updates the tables exactly as `Statements.VariableAssign`. |
| Visitor.CodeVisitor.VisitBuiltinDisplay | CodeInterpreter.Generators/CodeVisitor.cs:88-92 | Appends to the output exactly as `Statements.DisplayStmt`. |
| Visitor.CodeVisitor.ScanValue | CodeInterpreter.Generators/CodeConstants/CodeConstant.cs:153-171 | Stores one piece exactly as `Statements.ScanValue`. |
| Visitor.CodeVisitor.VisitBuiltinScan | CodeInterpreter.Generators/CodeVisitor.cs:300-321 | Reads one line and stores its pieces, ending exactly as `Statements.ScanStmt`. |
| Visitor.CodeVisitor.StorePieces | CodeInterpreter.Generators/CodeVisitor.cs:310-318 | The in-place loop over the pieces ends exactly as `Statements.ScanFrom`. |
| Visitor.CodeVisitor.VisitIfElse | CodeInterpreter.Generators/CodeVisitor.cs:195-237 | The in-place walk of the chain ends exactly as `Control.ExecStmt` on the if statement. |
| Visitor.CodeVisitor.VisitWhile | CodeInterpreter.Generators/CodeVisitor.cs:239-262 | The counted loop ends exactly as `Control.ExecStmt` on the while statement. |
| Visitor.CodeVisitor.VisitDoWhile | CodeInterpreter.Generators/CodeVisitor.cs:264-287 | The counted loop ends exactly as `Control.ExecStmt` on the do-while statement. |
| Visitor.CodeVisitor.Visit | CodeInterpreter.Generators/CodeVisitor.cs:16-19 | Dispatching a statement ends exactly as `Control.ExecStmt`. |
| Visitor.CodeVisitor.VisitBlock | CodeInterpreter.Generators/CodeVisitor.cs:203-207 | Visiting a block's statements in order ends exactly as `Control.ExecBlock`. |

## Left out

- The text-splitting heuristic that decides which declarators carry `=`. In the source it removes the type keyword and splits the declaration's text at commas. Here each declarator records whether it has `=`. The heuristic misreads declarations whose initialisers contain commas or the keyword's letters.
- The parser, the lexer and their error listener and handler, and the program's entry point: the model starts from statement and expression trees.
- Console input and output are the store's list of remaining lines and its output text. The lines printed by fatal handlers are not appended to that text; `ErrorHandler.DiagnosticLine` gives them, and `Fatal` carries the diagnostic.
- `Environment.Exit(400)` is the `Fatal` outcome, and an unhandled .NET exception is the `Crash` outcome. The exit code is the constant `FatalExitCode`.
- `float` arithmetic, comparison, formatting and the `int`/`float`/`bool` parsers are platform functions. Properties of those results are not proved beyond their types.
- The value of `MAX_LOOP_ITERATIONS` is not among the modelled files. It is a positive parameter of the visitor.
- `BuiltinScan` in the constant helpers is a copy of `Scan`, and the visitor calls only `Scan`. It is modelled once, as `Statements.ScanValue`.
- The fallback branches for an unknown operator or Boolean-operator text cannot be reached: operators are enumerated here. Those are the `NotImplementedException` defaults of the term and factor visitors, `HandleBoolOperationError`, and `HandleInvalidOperatorError` with a specifier.
- `VisitVariable_declaration`, `VisitConstant` and `VisitType` are grammar-level visitors. They are modelled through `CodeConstant.VariableDeclarations`, `CodeConstant.Data` and `CodeConstant.KeywordType`. Expression trees use `ConstantExpressionParser` and `Identifier`, as the expression visitors do.
- Visitor.CodeVisitor.VisitDeclarations: evaluates an initialiser once, where the source visits it twice (once for the type check, once to store). Evaluation has no side effects, so the results are equal.
- Visitor.CodeVisitor.VisitDeclarations: pairs initialisers positionally, the corrected behaviour; the code as written is `Statements.DeclareAsWritten` (see Findings).
- Statements.Declare: runs the corrected positional pairing of initialisers, where CodeVisitor.cs:35-50 as written hands a redeclared name's initialiser to the next declarator with `=`. `Control.ExecStmt`, `Control.Run` and `Visitor.CodeVisitor.Visit` inherit this. The code as written is `Statements.DeclareAsWritten` (see Findings).
- Statements.DeclareFrom: pairs each declarator with its own initialiser, the corrected behaviour; `Statements.DeclareAsWritten` is the loop as written, and `Statements.RedeclaredInitialiserShift` shows where they differ.
- Statements.DeclareWithInit: is stated for the corrected pairing `PairedInit`; under the code as written, a fresh name that follows a redeclared name with `=` receives the next initialiser instead.
- CodeConstant.Data: strings are sequences of Unicode scalar values, not of UTF-16 units. A CHAR literal (here and in `CodeConstant.ConstantExpressionParser`) whose character lies outside the Basic Multilingual Plane yields that whole character from index 1, where .NET yields the high surrogate. `Evaluator.Escape` likewise carries a whole character. Only `CodeConstant.ChangeType` counts UTF-16 units, through `Values.Utf16Length`.
- Values.TypeName: type names are upper-cased as in the invariant culture (`SINGLE`, `STRING`); `ToUpper()` under a culture such as tr-TR prints other letters.
- Statements.RedefinitionLine: the line end `Console.WriteLine` writes after the redefinition message is `Environment.NewLine`; it is modelled as `\n`.

## Findings

| source | as written | input that shows it | evidently intended | confidence | as-written member | corrected member |
|---|---|---|---|---|---|---|
| CodeInterpreter.Generators/CodeVisitor.cs:35-50 | A redeclared name is reported and skipped with `continue` before the initialiser counter `expctr` advances. Its initialiser then goes to the next declarator that carries `=`. | With `a` already bound as `BOOL`, `BOOL a = "FALSE", b = "TRUE"` leaves `b` false. | Each declarator's initialiser stays with it, so `b` is true. | not executed | Statements.DeclareAsWritten, Statements.RedeclaredInitialiserShift | Statements.DeclareFrom, Statements.PairingInOrder, Visitor.CodeVisitor.VisitDeclarations |
