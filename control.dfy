/** Statement execution: dispatch over the statement kinds, blocks, the
    if / else-if / else chain, and the two loops with their iteration cap. */
module Control {
  import opened Values
  import opened Host
  import opened ErrorHandler
  import opened CodeConstant
  import opened Syntax
  import opened Expressions
  import opened Statements

  /** `MAX_LOOP_ITERATIONS`: how many times a loop body may run. */
  type Cap = n: nat | n > 0 witness 1

  /** A loop's outcome and how many times its body was started. */
  datatype LoopResult = LoopResult(exec: Exec, runs: nat)

  function ExecStmt(p: Platform, cap: Cap, s: Stmt, st: Store): Exec
    decreases s, 2
  {
    match s
    case Declarations(pos, typeName, vars, inits) => Declare(p, pos, typeName, vars, inits, st)
    case Assignment(pos, targets, e) => AssignFrom(p, pos, targets, e, 0, st)
    case VariableAssignment(_, typeName, name) => VariableAssign(typeName, name, st)
    case Display(_, e) => DisplayStmt(p, e, st)
    case Scan(pos, ids) => ScanStmt(p, pos, ids, st)
    case IfElse(pos, cond, thenBody, _, _) =>
      (match Eval(p, st.symbols, cond)
       case Err(err) => Halt(err, st)
       case Ok(c) =>
         match HandleLogicError(p, pos, c)
         case Err(err) => Halt(err, st)
         case Ok(b) => if b then ExecBlock(p, cap, thenBody, st) else ElseIfChain(p, cap, s, 0, st))
    case While(_, cond, _) =>
      (match Eval(p, st.symbols, cond)
       case Err(err) => Halt(err, st)
       case Ok(c) => WhileFrom(p, cap, s, 0, c, st).exec)
    case DoWhile(_, cond, _) =>
      // the condition is evaluated once before the first run; only its failure matters
      (match Eval(p, st.symbols, cond)
       case Err(err) => Halt(err, st)
       case Ok(_) => DoWhileFrom(p, cap, s, 0, st).exec)
  }

  /** The statements of a block in order, up to the first that halts. */
  function ExecBlock(p: Platform, cap: Cap, ss: seq<Stmt>, st: Store): Exec
    decreases ss
  {
    if ss == [] then Next(st)
    else
      match ExecStmt(p, cap, ss[0], st)
      case Halt(err, s) => Halt(err, s)
      case Next(s) => ExecBlock(p, cap, ss[1..], s)
  }

  /** The else-if branches from `k` on, then the else block. Every condition
      is checked with the position of the whole if statement. */
  function ElseIfChain(p: Platform, cap: Cap, s: Stmt, k: nat, st: Store): Exec
    requires s.IfElse? && k <= |s.elseIfs|
    decreases s, 1, |s.elseIfs| - k
  {
    if k == |s.elseIfs| then ExecBlock(p, cap, s.elseBody, st)
    else
      match Eval(p, st.symbols, s.elseIfs[k].cond)
      case Err(err) => Halt(err, st)
      case Ok(c) =>
        match HandleLogicError(p, s.pos, c)
        case Err(err) => Halt(err, st)
        case Ok(b) => if b then ExecBlock(p, cap, s.elseIfs[k].body, st) else ElseIfChain(p, cap, s, k + 1, st)
  }

  /** `VisitWhile_statement` from iteration `it`, with `c` the condition's
      last value: a false condition ends the loop, a true one at the cap is
      the infinite-loop error, otherwise the body runs and the condition is
      evaluated again. The body never runs more than `cap` times. */
  function WhileFrom(p: Platform, cap: Cap, s: Stmt, it: nat, c: Value, st: Store): (r: LoopResult)
    requires s.While? && it <= cap
    ensures it <= r.runs <= cap
    decreases s, 1, cap - it
  {
    match HandleLogicError(p, s.pos, c)
    case Err(err) => LoopResult(Halt(err, st), it)
    case Ok(b) =>
      if !b then LoopResult(Next(st), it)
      else if it >= cap then LoopResult(Halt(Fatal(s.pos, InfiniteLoop), st), it)
      else
        match ExecBlock(p, cap, s.body, st)
        case Halt(err, st1) => LoopResult(Halt(err, st1), it + 1)
        case Next(st1) =>
          match Eval(p, st1.symbols, s.cond)
          case Err(err) => LoopResult(Halt(err, st1), it + 1)
          case Ok(c1) => WhileFrom(p, cap, s, it + 1, c1, st1)
  }

  /** `VisitDo_while_statement` from iteration `it`: the body runs, the
      condition is evaluated, and reaching the cap is the infinite-loop error
      before the condition is even checked. The body runs at least once and
      never more than `cap` times. */
  function DoWhileFrom(p: Platform, cap: Cap, s: Stmt, it: nat, st: Store): (r: LoopResult)
    requires s.DoWhile? && it < cap
    ensures it < r.runs <= cap
    decreases s, 1, cap - it
  {
    match ExecBlock(p, cap, s.body, st)
    case Halt(err, st1) => LoopResult(Halt(err, st1), it + 1)
    case Next(st1) =>
      match Eval(p, st1.symbols, s.cond)
      case Err(err) => LoopResult(Halt(err, st1), it + 1)
      case Ok(c) =>
        if it + 1 >= cap then LoopResult(Halt(Fatal(s.pos, InfiniteLoop), st1), it + 1)
        else
          match HandleLogicError(p, s.pos, c)
          case Err(err) => LoopResult(Halt(err, st1), it + 1)
          case Ok(b) => if b then DoWhileFrom(p, cap, s, it + 1, st1) else LoopResult(Next(st1), it + 1)
  }

  /** A whole program, started with empty tables on the given input lines. */
  function Run(p: Platform, cap: Cap, program: seq<Stmt>, input: seq<string>): Exec {
    ExecBlock(p, cap, program, Store(map[], map[], input, ""))
  }

  // ---------------------------------------------------------------------------
  // The if / else-if / else chain

  /** The chain's `k`-th condition in textual order: the if condition, then
      the else-if conditions. */
  function Guard(s: Stmt, k: nat): Expr
    requires s.IfElse? && k <= |s.elseIfs|
  {
    if k == 0 then s.cond else s.elseIfs[k - 1].cond
  }

  /** The block the `k`-th condition guards. */
  function Block(s: Stmt, k: nat): seq<Stmt>
    requires s.IfElse? && k <= |s.elseIfs|
  {
    if k == 0 then s.thenBody else s.elseIfs[k - 1].body
  }

  /** A false else-if condition moves on to the next one. */
  lemma ElseIfSkip(p: Platform, cap: Cap, s: Stmt, i: nat, st: Store)
    requires s.IfElse? && i < |s.elseIfs|
    requires Eval(p, st.symbols, s.elseIfs[i].cond) == Ok(Bool(false))
    ensures ElseIfChain(p, cap, s, i, st) == ElseIfChain(p, cap, s, i + 1, st)
  {
  }

  /** A true else-if condition runs its block. */
  lemma ElseIfTaken(p: Platform, cap: Cap, s: Stmt, i: nat, st: Store)
    requires s.IfElse? && i < |s.elseIfs|
    requires Eval(p, st.symbols, s.elseIfs[i].cond) == Ok(Bool(true))
    ensures ElseIfChain(p, cap, s, i, st) == ExecBlock(p, cap, s.elseIfs[i].body, st)
  {
  }

  /** An else-if condition that is not a Boolean ends the run. */
  lemma ElseIfRejects(p: Platform, cap: Cap, s: Stmt, i: nat, st: Store, v: Value)
    requires s.IfElse? && i < |s.elseIfs|
    requires Eval(p, st.symbols, s.elseIfs[i].cond) == Ok(v) && !v.Bool?
    ensures ElseIfChain(p, cap, s, i, st) == Halt(Fatal(s.pos, NotConvertibleToBoolean(DefaultText(p, v))), st)
  {
  }

  /** Else-if conditions `i` to `k - 1` all false: the chain goes straight on to `k`. */
  lemma {:induction false} ElseIfSkipAll(p: Platform, cap: Cap, s: Stmt, i: nat, k: nat, st: Store)
    requires s.IfElse? && i <= k <= |s.elseIfs|
    requires forall j :: i <= j < k ==> Eval(p, st.symbols, s.elseIfs[j].cond) == Ok(Bool(false))
    ensures ElseIfChain(p, cap, s, i, st) == ElseIfChain(p, cap, s, k, st)
    decreases k - i
  {
    if i < k {
      ElseIfSkip(p, cap, s, i, st);
      ElseIfSkipAll(p, cap, s, i + 1, k, st);
    }
  }

  /** The conditions before `k` are all false; then the chain starts at the
      else-if that `k` numbers. */
  lemma IfSkipTo(p: Platform, cap: Cap, s: Stmt, k: nat, st: Store)
    requires s.IfElse? && 0 < k <= |s.elseIfs| + 1
    requires forall j :: 0 <= j < k ==> Eval(p, st.symbols, Guard(s, j)) == Ok(Bool(false))
    ensures ExecStmt(p, cap, s, st) == ElseIfChain(p, cap, s, k - 1, st)
  {
    assert Eval(p, st.symbols, Guard(s, 0)) == Ok(Bool(false));
    forall j | 0 <= j < k - 1
      ensures Eval(p, st.symbols, s.elseIfs[j].cond) == Ok(Bool(false))
    {
      assert Guard(s, j + 1) == s.elseIfs[j].cond;
    }
    ElseIfSkipAll(p, cap, s, 0, k - 1, st);
  }

  /** Exactly one block runs: the one guarded by the first condition that is
      true, all earlier ones being false. */
  lemma IfFirstMatch(p: Platform, cap: Cap, s: Stmt, k: nat, st: Store)
    requires s.IfElse? && k <= |s.elseIfs|
    requires forall j :: 0 <= j < k ==> Eval(p, st.symbols, Guard(s, j)) == Ok(Bool(false))
    requires Eval(p, st.symbols, Guard(s, k)) == Ok(Bool(true))
    ensures ExecStmt(p, cap, s, st) == ExecBlock(p, cap, Block(s, k), st)
  {
    if k > 0 {
      IfSkipTo(p, cap, s, k, st);
      ElseIfTaken(p, cap, s, k - 1, st);
    }
  }

  /** The else block runs only when every condition is false. */
  lemma IfNoneMatch(p: Platform, cap: Cap, s: Stmt, st: Store)
    requires s.IfElse?
    requires forall j :: 0 <= j <= |s.elseIfs| ==> Eval(p, st.symbols, Guard(s, j)) == Ok(Bool(false))
    ensures ExecStmt(p, cap, s, st) == ExecBlock(p, cap, s.elseBody, st)
  {
    IfSkipTo(p, cap, s, |s.elseIfs| + 1, st);
  }

  /** The first condition that is not false must be a Boolean: otherwise the
      run ends, at the if statement's position, before any block runs. */
  lemma IfNonBoolean(p: Platform, cap: Cap, s: Stmt, k: nat, st: Store, v: Value)
    requires s.IfElse? && k <= |s.elseIfs|
    requires forall j :: 0 <= j < k ==> Eval(p, st.symbols, Guard(s, j)) == Ok(Bool(false))
    requires Eval(p, st.symbols, Guard(s, k)) == Ok(v) && !v.Bool?
    ensures ExecStmt(p, cap, s, st) == Halt(Fatal(s.pos, NotConvertibleToBoolean(DefaultText(p, v))), st)
  {
    if k > 0 {
      IfSkipTo(p, cap, s, k, st);
      ElseIfRejects(p, cap, s, k - 1, st, v);
    }
  }

  // ---------------------------------------------------------------------------
  // Loops

  /** A condition that is always true and a body that always completes: the
      body runs exactly `cap` times, then the infinite-loop error. */
  lemma {:induction false} WhileAlwaysTrue(p: Platform, cap: Cap, s: Stmt, it: nat, st: Store)
    requires s.While? && it <= cap
    requires forall m :: Eval(p, m, s.cond) == Ok(Bool(true))
    requires forall t :: ExecBlock(p, cap, s.body, t).Next?
    ensures var r := WhileFrom(p, cap, s, it, Bool(true), st);
      r.runs == cap && r.exec.Halt? && r.exec.err == Fatal(s.pos, InfiniteLoop)
    decreases cap - it
  {
    if it < cap {
      var st1 := ExecBlock(p, cap, s.body, st).st;
      assert Eval(p, st1.symbols, s.cond) == Ok(Bool(true));
      WhileAlwaysTrue(p, cap, s, it + 1, st1);
    }
  }

  /** The same for do-while: exactly `cap` runs, then the infinite-loop error. */
  lemma {:induction false} DoWhileAlwaysTrue(p: Platform, cap: Cap, s: Stmt, it: nat, st: Store)
    requires s.DoWhile? && it < cap
    requires forall m :: Eval(p, m, s.cond) == Ok(Bool(true))
    requires forall t :: ExecBlock(p, cap, s.body, t).Next?
    ensures var r := DoWhileFrom(p, cap, s, it, st);
      r.runs == cap && r.exec.Halt? && r.exec.err == Fatal(s.pos, InfiniteLoop)
    decreases cap - it
  {
    var st1 := ExecBlock(p, cap, s.body, st).st;
    assert Eval(p, st1.symbols, s.cond) == Ok(Bool(true));
    if it + 1 < cap {
      DoWhileAlwaysTrue(p, cap, s, it + 1, st1);
    }
  }

  /** The cap-th run of a do-while body is an error whatever the condition
      says, even when it has become false. */
  lemma DoWhileCapIgnoresCondition(p: Platform, cap: Cap, s: Stmt, st: Store, st1: Store)
    requires s.DoWhile? && cap >= 1
    requires ExecBlock(p, cap, s.body, st) == Next(st1)
    requires Eval(p, st1.symbols, s.cond) == Ok(Bool(false))
    ensures DoWhileFrom(p, cap, s, cap - 1, st) == LoopResult(Halt(Fatal(s.pos, InfiniteLoop), st1), cap)
    ensures cap > 1 ==> DoWhileFrom(p, cap, s, cap - 2, st) == LoopResult(Next(st1), cap - 1)
  {
  }

  // ---------------------------------------------------------------------------
  // Typing invariant

  /** Every statement keeps every bound value within its declared type. */
  lemma {:induction false} ExecStmtWellTyped(p: Platform, cap: Cap, s: Stmt, st: Store)
    requires WellTyped(st)
    ensures WellTyped(ExecStmt(p, cap, s, st).st)
    decreases s, 2
  {
    match s
    case Declarations(pos, typeName, vars, inits) =>
      if KeywordType(typeName).Ok? {
        DeclareWellTyped(p, pos, KeywordType(typeName).value, vars, inits, 0, st);
      }
    case Assignment(pos, targets, e) => AssignWellTyped(p, pos, targets, e, 0, st);
    case VariableAssignment(_, _, _) =>
    case Display(_, _) =>
    case Scan(pos, ids) =>
      if st.input != [] && |Pieces(st.input[0])| <= |ids| {
        ScanFromWellTyped(p, pos, ids, Pieces(st.input[0]), 0, st.(input := st.input[1..]));
      }
    case IfElse(pos, cond, thenBody, _, _) =>
      var c := Eval(p, st.symbols, cond);
      if c.Ok? && c.value.Bool? {
        if c.value.b {
          ExecBlockWellTyped(p, cap, thenBody, st);
        } else {
          ElseIfChainWellTyped(p, cap, s, 0, st);
        }
      }
    case While(_, cond, _) =>
      var c := Eval(p, st.symbols, cond);
      if c.Ok? {
        WhileWellTyped(p, cap, s, 0, c.value, st);
      }
    case DoWhile(_, cond, _) =>
      if Eval(p, st.symbols, cond).Ok? {
        DoWhileWellTyped(p, cap, s, 0, st);
      }
  }

  lemma {:induction false} ExecBlockWellTyped(p: Platform, cap: Cap, ss: seq<Stmt>, st: Store)
    requires WellTyped(st)
    ensures WellTyped(ExecBlock(p, cap, ss, st).st)
    decreases ss
  {
    if ss != [] {
      ExecStmtWellTyped(p, cap, ss[0], st);
      var r := ExecStmt(p, cap, ss[0], st);
      if r.Next? {
        ExecBlockWellTyped(p, cap, ss[1..], r.st);
      }
    }
  }

  lemma {:induction false} ElseIfChainWellTyped(p: Platform, cap: Cap, s: Stmt, k: nat, st: Store)
    requires s.IfElse? && k <= |s.elseIfs| && WellTyped(st)
    ensures WellTyped(ElseIfChain(p, cap, s, k, st).st)
    decreases s, 1, |s.elseIfs| - k
  {
    if k == |s.elseIfs| {
      ExecBlockWellTyped(p, cap, s.elseBody, st);
    } else {
      var c := Eval(p, st.symbols, s.elseIfs[k].cond);
      if c.Ok? && c.value.Bool? {
        if c.value.b {
          ExecBlockWellTyped(p, cap, s.elseIfs[k].body, st);
        } else {
          ElseIfChainWellTyped(p, cap, s, k + 1, st);
        }
      }
    }
  }

  lemma {:induction false} WhileWellTyped(p: Platform, cap: Cap, s: Stmt, it: nat, c: Value, st: Store)
    requires s.While? && it <= cap && WellTyped(st)
    ensures WellTyped(WhileFrom(p, cap, s, it, c, st).exec.st)
    decreases s, 1, cap - it
  {
    if c == Bool(true) && it < cap {
      ExecBlockWellTyped(p, cap, s.body, st);
      var r := ExecBlock(p, cap, s.body, st);
      if r.Next? {
        var c1 := Eval(p, r.st.symbols, s.cond);
        if c1.Ok? {
          WhileWellTyped(p, cap, s, it + 1, c1.value, r.st);
        }
      }
    }
  }

  lemma {:induction false} DoWhileWellTyped(p: Platform, cap: Cap, s: Stmt, it: nat, st: Store)
    requires s.DoWhile? && it < cap && WellTyped(st)
    ensures WellTyped(DoWhileFrom(p, cap, s, it, st).exec.st)
    decreases s, 1, cap - it
  {
    ExecBlockWellTyped(p, cap, s.body, st);
    var r := ExecBlock(p, cap, s.body, st);
    if r.Next? && it + 1 < cap {
      var c := Eval(p, r.st.symbols, s.cond);
      if c.Ok? && c == Ok(Bool(true)) {
        DoWhileWellTyped(p, cap, s, it + 1, r.st);
      }
    }
  }

  /** Throughout a run, every variable holds nothing or a value of its declared type. */
  lemma RunWellTyped(p: Platform, cap: Cap, program: seq<Stmt>, input: seq<string>)
    ensures WellTyped(Run(p, cap, program, input).st)
  {
    ExecBlockWellTyped(p, cap, program, Store(map[], map[], input, ""));
  }
}
