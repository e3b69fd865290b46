/** The tree-walking interpreter as the visitor object it is: the symbol
    table and the type table are fields updated in place, the console is an
    input queue and an output text, and every `Visit` method is proved to
    leave exactly the state (and error) the statement semantics prescribes. */
module Visitor {
  import opened Values
  import opened Host
  import opened ErrorHandler
  import opened CodeConstant
  import opened Syntax
  import opened Expressions
  import opened Statements
  import opened Control

  /** The outcome a visit reports: no error, or the error that ended the run. */
  function Outcome(err: Option<Error>, st: Store): Exec {
    match err
    case None => Next(st)
    case Some(e) => Halt(e, st)
  }

  class CodeVisitor {
    var symbolTable: map<string, Value>
    var types: map<string, DeclType>
    var input: seq<string>
    var output: string
    const platform: Platform
    const maxLoopIterations: Cap

    function State(): Store
      reads this
    {
      Store(symbolTable, types, input, output)
    }

    /** A fresh interpreter: both tables empty, nothing written yet. */
    constructor(platform: Platform, maxLoopIterations: Cap, input: seq<string>)
      ensures State() == Store(map[], map[], input, "")
      ensures this.platform == platform && this.maxLoopIterations == maxLoopIterations
    {
      this.symbolTable := map[];
      this.types := map[];
      this.input := input;
      this.output := "";
      this.platform := platform;
      this.maxLoopIterations := maxLoopIterations;
    }

    /** `VisitDeclarations`, with `expctr` advanced past the initialiser of a
        redeclared name as well, so that initialisers stay paired by position. */
    method VisitDeclarations(pos: Pos, typeName: string, vars: seq<Declarator>, inits: seq<Expr>)
      returns (err: Option<Error>)
      modifies this
      ensures Outcome(err, State()) == Declare(platform, pos, typeName, vars, inits, old(State()))
    {
      var tr := KeywordType(typeName);
      if tr.Err? {
        return Some(tr.error);
      }
      var t := tr.value;
      var expctr := 0;
      for x := 0 to |vars|
        invariant expctr == if InitCount(vars[..x]) < |inits| then InitCount(vars[..x]) else |inits|
        invariant DeclareFrom(platform, pos, t, vars, inits, 0, old(State())) == DeclareFrom(platform, pos, t, vars, inits, x, State())
      {
        InitCountStep(vars, x);
        var name := vars[x].name;
        if name in symbolTable {
          output := output + RedefinitionLine(name);
          if vars[x].hasInit && expctr < |inits| {
            expctr := expctr + 1;
          }
          continue;
        }
        if vars[x].hasInit {
          if expctr < |inits| {
            var v := Eval(platform, symbolTable, inits[expctr]);
            if v.Err? {
              return Some(v.error);
            }
            var ok := HandleTypeError(pos, v.value, t);
            if ok.Err? {
              return Some(ok.error);
            }
            symbolTable := symbolTable[name := v.value];
            types := types[name := t];
            expctr := expctr + 1;
          }
        } else {
          symbolTable := symbolTable[name := Empty];
          types := types[name := t];
        }
      }
      return None;
    }

    /** `VisitAssignment`: every target in turn, the expression evaluated anew each time. */
    method VisitAssignment(pos: Pos, targets: seq<string>, e: Expr) returns (err: Option<Error>)
      modifies this
      ensures Outcome(err, State()) == AssignFrom(platform, pos, targets, e, 0, old(State()))
    {
      for k := 0 to |targets|
        invariant AssignFrom(platform, pos, targets, e, 0, old(State())) == AssignFrom(platform, pos, targets, e, k, State())
      {
        var v := Eval(platform, symbolTable, e);
        if v.Err? {
          return Some(v.error);
        }
        if targets[k] !in types {
          return Some(Crash(KeyNotFound));
        }
        var ok := HandleTypeError(pos, v.value, types[targets[k]]);
        if ok.Err? {
          return Some(ok.error);
        }
        symbolTable := symbolTable[targets[k] := v.value];
      }
      return None;
    }

    /** `VisitVariable_assignment`. */
    method VisitVariableAssignment(typeName: string, name: string) returns (err: Option<Error>)
      modifies this
      ensures Outcome(err, State()) == VariableAssign(typeName, name, old(State()))
    {
      var tr := KeywordType(typeName);
      if tr.Err? {
        return Some(tr.error);
      }
      types := types[name := tr.value];
      symbolTable := symbolTable[name := Empty];
      return None;
    }

    /** `VisitBuiltin_display` with `BuiltinDisplay`. */
    method VisitBuiltinDisplay(e: Expr) returns (err: Option<Error>)
      modifies this
      ensures Outcome(err, State()) == DisplayStmt(platform, e, old(State()))
    {
      var v := Eval(platform, symbolTable, e);
      if v.Err? {
        return Some(v.error);
      }
      output := output + DisplayText(platform, v.value);
      return None;
    }

    /** `CodeConstant.Scan`: store one converted piece under `id`. */
    method ScanValue(pos: Pos, id: string, piece: string) returns (err: Option<Error>)
      modifies this
      ensures Outcome(err, State()) == Statements.ScanValue(platform, pos, old(State()), id, piece)
    {
      if id !in types {
        var r := HandleUndeclaredVariableError(pos, types, id);
        return Some(r.error);
      }
      var t := types[id];
      match ChangeType(platform, piece, t)
      case Parsed(v) =>
        symbolTable := symbolTable[id := v];
        return None;
      case BadFormat =>
        return Some(Fatal(pos, InvalidScanFormat(piece, DeclTypeName(t))));
      case TooLarge =>
        return Some(Crash(Overflow));
    }

    /** `VisitBuiltin_scan`. */
    method VisitBuiltinScan(pos: Pos, ids: seq<string>) returns (err: Option<Error>)
      modifies this
      ensures Outcome(err, State()) == ScanStmt(platform, pos, ids, old(State()))
    {
      if input == [] {
        return Some(Crash(NullReference));
      }
      var line := input[0];
      input := input[1..];
      var pieces := Pieces(line);
      if |pieces| < 1 || |pieces| > |ids| {
        return Some(Fatal(pos, InvalidScanInputs(|ids|, |pieces|)));
      }
      err := StorePieces(pos, ids, pieces);
    }

    /** The loop of `VisitBuiltin_scan` over the pieces of the line, each
        stored under the identifier in the same position. */
    method StorePieces(pos: Pos, ids: seq<string>, pieces: seq<string>) returns (err: Option<Error>)
      requires |pieces| <= |ids|
      modifies this
      ensures Outcome(err, State()) == ScanFrom(platform, pos, ids, pieces, 0, old(State()))
    {
      for i := 0 to |pieces|
        invariant ScanFrom(platform, pos, ids, pieces, 0, old(State())) == ScanFrom(platform, pos, ids, pieces, i, State())
      {
        if ids[i] !in symbolTable {
          var r := HandleUndeclaredVariableError(pos, types, ids[i]);
          if r.Err? {
            return Some(r.error);
          }
          return None;
        }
        err := ScanValue(pos, ids[i], pieces[i]);
        if err.Some? {
          return;
        }
      }
      return None;
    }

    /** `VisitIf_else_statement`. */
    method VisitIfElse(s: Stmt) returns (err: Option<Error>)
      requires s.IfElse?
      modifies this
      ensures Outcome(err, State()) == ExecStmt(platform, maxLoopIterations, s, old(State()))
      decreases s, 1
    {
      var c := Eval(platform, symbolTable, s.cond);
      if c.Err? {
        return Some(c.error);
      }
      var b := HandleLogicError(platform, s.pos, c.value);
      if b.Err? {
        return Some(b.error);
      }
      if b.value {
        err := VisitBlock(s.thenBody);
        return;
      }
      for k := 0 to |s.elseIfs|
        invariant State() == old(State())
        invariant ElseIfChain(platform, maxLoopIterations, s, 0, State()) == ElseIfChain(platform, maxLoopIterations, s, k, State())
      {
        var ck := Eval(platform, symbolTable, s.elseIfs[k].cond);
        if ck.Err? {
          return Some(ck.error);
        }
        var bk := HandleLogicError(platform, s.pos, ck.value);
        if bk.Err? {
          return Some(bk.error);
        }
        if bk.value {
          err := VisitBlock(s.elseIfs[k].body);
          return;
        }
      }
      err := VisitBlock(s.elseBody);
    }

    /** `VisitWhile_statement`. */
    method VisitWhile(s: Stmt) returns (err: Option<Error>)
      requires s.While?
      modifies this
      ensures Outcome(err, State()) == ExecStmt(platform, maxLoopIterations, s, old(State()))
      decreases s, 1
    {
      var c := Eval(platform, symbolTable, s.cond);
      if c.Err? {
        return Some(c.error);
      }
      ghost var start := State();
      var condition := c.value;
      var iterations: nat := 0;
      var b := HandleLogicError(platform, s.pos, condition);
      while b == Ok(true)
        invariant iterations <= maxLoopIterations
        invariant b == HandleLogicError(platform, s.pos, condition)
        invariant WhileFrom(platform, maxLoopIterations, s, 0, c.value, start).exec
               == WhileFrom(platform, maxLoopIterations, s, iterations, condition, State()).exec
        decreases maxLoopIterations - iterations
      {
        if iterations >= maxLoopIterations {
          return Some(Fatal(s.pos, InfiniteLoop));
        }
        err := VisitBlock(s.body);
        if err.Some? {
          return;
        }
        var c1 := Eval(platform, symbolTable, s.cond);
        if c1.Err? {
          return Some(c1.error);
        }
        condition := c1.value;
        iterations := iterations + 1;
        b := HandleLogicError(platform, s.pos, condition);
      }
      if b.Err? {
        return Some(b.error);
      }
      return None;
    }

    /** `VisitDo_while_statement`. */
    method VisitDoWhile(s: Stmt) returns (err: Option<Error>)
      requires s.DoWhile?
      modifies this
      ensures Outcome(err, State()) == ExecStmt(platform, maxLoopIterations, s, old(State()))
      decreases s, 1
    {
      var c := Eval(platform, symbolTable, s.cond);
      if c.Err? {
        return Some(c.error);
      }
      ghost var start := State();
      var iterations: nat := 0;
      var again := true;
      while again
        invariant iterations <= maxLoopIterations
        invariant again ==> (iterations < maxLoopIterations &&
                             DoWhileFrom(platform, maxLoopIterations, s, 0, start).exec
                             == DoWhileFrom(platform, maxLoopIterations, s, iterations, State()).exec)
        invariant !again ==> DoWhileFrom(platform, maxLoopIterations, s, 0, start).exec == Next(State())
        decreases maxLoopIterations - iterations
      {
        err := VisitBlock(s.body);
        if err.Some? {
          return;
        }
        var c1 := Eval(platform, symbolTable, s.cond);
        if c1.Err? {
          return Some(c1.error);
        }
        iterations := iterations + 1;
        if iterations >= maxLoopIterations {
          return Some(Fatal(s.pos, InfiniteLoop));
        }
        var b := HandleLogicError(platform, s.pos, c1.value);
        if b.Err? {
          return Some(b.error);
        }
        again := b.value;
      }
      return None;
    }

    /** One statement, dispatched on its kind. */
    method Visit(s: Stmt) returns (err: Option<Error>)
      modifies this
      ensures Outcome(err, State()) == ExecStmt(platform, maxLoopIterations, s, old(State()))
      decreases s, 2
    {
      match s
      case Declarations(pos, typeName, vars, inits) =>
        err := VisitDeclarations(pos, typeName, vars, inits);
      case Assignment(pos, targets, e) =>
        err := VisitAssignment(pos, targets, e);
      case VariableAssignment(_, typeName, name) =>
        err := VisitVariableAssignment(typeName, name);
      case Display(_, e) =>
        err := VisitBuiltinDisplay(e);
      case Scan(pos, ids) =>
        err := VisitBuiltinScan(pos, ids);
      case IfElse(_, _, _, _, _) =>
        err := VisitIfElse(s);
      case While(_, _, _) =>
        err := VisitWhile(s);
      case DoWhile(_, _, _) =>
        err := VisitDoWhile(s);
    }

    /** The statements of a block, stopping at the first error. */
    method VisitBlock(ss: seq<Stmt>) returns (err: Option<Error>)
      modifies this
      ensures Outcome(err, State()) == ExecBlock(platform, maxLoopIterations, ss, old(State()))
      decreases ss
    {
      for i := 0 to |ss|
        invariant ExecBlock(platform, maxLoopIterations, ss, old(State())) == ExecBlock(platform, maxLoopIterations, ss[i..], State())
      {
        assert ss[i..][1..] == ss[i + 1..];
        err := Visit(ss[i]);
        if err.Some? {
          return;
        }
      }
      return None;
    }
  }
}
