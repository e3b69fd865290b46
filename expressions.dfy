/** The expression visitors: each evaluates its operands left to right and
    hands them to the evaluator, so the first failing operand decides the
    error. Evaluation reads the symbol table and changes nothing. */
module Expressions {
  import opened Values
  import opened Host
  import opened ErrorHandler
  import opened Evaluator
  import opened CodeConstant
  import opened Syntax

  function Eval(p: Platform, symbols: map<string, Value>, e: Expr): (res: Result<Value>)
    ensures e.IdentifierExpr? ==> (res.Ok? <==> e.name in symbols)
    ensures e.IdentifierExpr? && res.Err? ==> res.error == Fatal(e.pos, UndefinedVariable(e.name))
    ensures e.ConcatExpr? && res.Ok? ==> res.value.Text?
    ensures (e.NotExpr? || e.BooleanExpr?) && res.Ok? ==> res.value.Bool?
    ensures e.NewlineExpr? ==> res == Ok(Text("\n"))
    ensures e.EscapeExpr? ==> (res.Ok? <==> |e.text| >= 2)
    decreases e
  {
    match e
    case ConstantExpr(_, lit) => ConstantExpressionParser(p, lit)
    case IdentifierExpr(pos, name) => Identifier(pos, symbols, name)
    case UnaryExpr(pos, op, a) =>
      var v :- Eval(p, symbols, a);
      Unary(pos, op, v)
    case TermExpr(pos, op, a, b) =>
      var l :- Eval(p, symbols, a);
      var r :- Eval(p, symbols, b);
      (match op
       case AddOp => Add(p, pos, l, r)
       case SubOp => Subtract(p, pos, l, r))
    case FactorExpr(pos, op, a, b) =>
      var l :- Eval(p, symbols, a);
      var r :- Eval(p, symbols, b);
      (match op
       case MulOp => Multiply(p, pos, l, r)
       case DivOp => Divide(p, pos, l, r)
       case ModOp => Modulo(p, pos, l, r))
    case RelationalExpr(pos, op, a, b) =>
      var l :- Eval(p, symbols, a);
      var r :- Eval(p, symbols, b);
      Relational(p, pos, l, r, op)
    case ConcatExpr(_, a, b) =>
      var l :- Eval(p, symbols, a);
      var r :- Eval(p, symbols, b);
      Ok(Append(p, l, r))
    case ParenExpr(_, a) => Eval(p, symbols, a)
    case NotExpr(pos, a) =>
      var v :- Eval(p, symbols, a);
      Negation(p, pos, v)
    case BooleanExpr(pos, op, a, b) =>
      var l :- Eval(p, symbols, a);
      var r :- Eval(p, symbols, b);
      BoolOperation(p, pos, l, r, op)
    case EscapeExpr(pos, text) =>
      if |text| >= 2 then Escape(pos, Some(text[1])) else Err(Crash(IndexOutOfRange))
    case NewlineExpr(_) => Ok(Text("\n"))
  }

  /** The two tables bind the same names among `names`, to the same values. */
  predicate AgreeOn(m1: map<string, Value>, m2: map<string, Value>, names: set<string>) {
    forall x :: x in names ==> (x in m1 <==> x in m2) && (x in m1 ==> m1[x] == m2[x])
  }

  /** Two tables that agree on the names an expression reads give it the same result. */
  lemma {:induction false} EvalFrame(p: Platform, m1: map<string, Value>, m2: map<string, Value>, e: Expr)
    requires AgreeOn(m1, m2, FreeNames(e))
    ensures Eval(p, m1, e) == Eval(p, m2, e)
    decreases e, 1
  {
    match e
    case ConstantExpr(_, _) =>
    case IdentifierExpr(_, _) =>
    case UnaryExpr(_, _, a) => EvalFrame(p, m1, m2, a);
    case ParenExpr(_, a) => EvalFrame(p, m1, m2, a);
    case NotExpr(_, a) => EvalFrame(p, m1, m2, a);
    case EscapeExpr(_, _) =>
    case NewlineExpr(_) =>
    case _ => EvalFrameBinary(p, m1, m2, e);
  }

  /** `EvalFrame` for the operators with two operands. */
  lemma {:induction false} EvalFrameBinary(p: Platform, m1: map<string, Value>, m2: map<string, Value>, e: Expr)
    requires e.TermExpr? || e.FactorExpr? || e.RelationalExpr? || e.ConcatExpr? || e.BooleanExpr?
    requires AgreeOn(m1, m2, FreeNames(e))
    ensures Eval(p, m1, e) == Eval(p, m2, e)
    decreases e, 0
  {
    EvalFrame(p, m1, m2, e.left);
    EvalFrame(p, m1, m2, e.right);
  }

  /** Writing a name the expression does not read leaves its result unchanged. */
  lemma EvalIgnoresOtherNames(p: Platform, symbols: map<string, Value>, e: Expr, x: string, v: Value)
    requires x !in FreeNames(e)
    ensures Eval(p, symbols[x := v], e) == Eval(p, symbols, e)
  {
    EvalFrame(p, symbols[x := v], symbols, e);
  }

  /** Parentheses change nothing, and `NOT` is involutive on a Boolean. */
  lemma ParenAndNot(p: Platform, symbols: map<string, Value>, pos: Pos, e: Expr)
    ensures Eval(p, symbols, ParenExpr(pos, e)) == Eval(p, symbols, e)
    ensures Eval(p, symbols, e).Ok? && Eval(p, symbols, e).value.Bool? ==>
      Eval(p, symbols, NotExpr(pos, NotExpr(pos, e))) == Eval(p, symbols, e)
  {
  }
}
