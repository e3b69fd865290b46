/** The abstract syntax the interpreter walks, in place of the ANTLR parse
    tree. Every node that can report an error carries the position of its
    start token. Operators are enumerated, so the interpreter's fallback
    branches for an unknown operator text have no counterpart here. */
module Syntax {
  import opened ErrorHandler
  import opened Evaluator
  import opened CodeConstant

  datatype TermOp = AddOp | SubOp
  datatype FactorOp = MulOp | DivOp | ModOp

  /** One alternative per labelled expression rule of the grammar. */
  datatype Expr =
    | ConstantExpr(pos: Pos, lit: Literal)
    | IdentifierExpr(pos: Pos, name: string)
    | UnaryExpr(pos: Pos, uop: UnaryOp, operand: Expr)
    | TermExpr(pos: Pos, top: TermOp, left: Expr, right: Expr)
    | FactorExpr(pos: Pos, fop: FactorOp, left: Expr, right: Expr)
    | RelationalExpr(pos: Pos, rop: RelOp, left: Expr, right: Expr)
    | ConcatExpr(pos: Pos, left: Expr, right: Expr)
    | ParenExpr(pos: Pos, operand: Expr)
    | NotExpr(pos: Pos, operand: Expr)
    | BooleanExpr(pos: Pos, bop: BoolOp, left: Expr, right: Expr)
    | EscapeExpr(pos: Pos, text: string)
    | NewlineExpr(pos: Pos)

  /** One identifier of a declaration list, and whether it carries `= expression`. */
  datatype Declarator = Declarator(name: string, hasInit: bool)

  datatype ElseIf = ElseIf(cond: Expr, body: seq<Stmt>)

  /** The executable statements. A declaration keeps its identifiers and its
      initialiser expressions as two lists, as the parse tree does. An if
      statement without an else part has an empty else block, which runs
      nothing just as a missing one does. */
  datatype Stmt =
    | Declarations(pos: Pos, typeName: string, vars: seq<Declarator>, inits: seq<Expr>)
    | Assignment(pos: Pos, targets: seq<string>, value: Expr)
    | VariableAssignment(pos: Pos, typeName: string, name: string)
    | Display(pos: Pos, shown: Expr)
    | Scan(pos: Pos, ids: seq<string>)
    | IfElse(pos: Pos, cond: Expr, thenBody: seq<Stmt>, elseIfs: seq<ElseIf>, elseBody: seq<Stmt>)
    | While(pos: Pos, cond: Expr, body: seq<Stmt>)
    | DoWhile(pos: Pos, cond: Expr, body: seq<Stmt>)

  /** The names an expression reads. */
  function FreeNames(e: Expr): set<string> {
    match e
    case ConstantExpr(_, _) => {}
    case IdentifierExpr(_, name) => {name}
    case UnaryExpr(_, _, a) => FreeNames(a)
    case TermExpr(_, _, a, b) => FreeNames(a) + FreeNames(b)
    case FactorExpr(_, _, a, b) => FreeNames(a) + FreeNames(b)
    case RelationalExpr(_, _, a, b) => FreeNames(a) + FreeNames(b)
    case ConcatExpr(_, a, b) => FreeNames(a) + FreeNames(b)
    case ParenExpr(_, a) => FreeNames(a)
    case NotExpr(_, a) => FreeNames(a)
    case BooleanExpr(_, _, a, b) => FreeNames(a) + FreeNames(b)
    case EscapeExpr(_, _) => {}
    case NewlineExpr(_) => {}
  }
}
