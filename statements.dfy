/** The interpreter's state and the statements that change it without
    nesting other statements: declarations, assignment, re-typing, display
    and scan. Each statement either continues with a new state or halts with
    an error, keeping whatever it had changed before the error. */
module Statements {
  import opened Values
  import opened Host
  import opened ErrorHandler
  import opened CodeConstant
  import opened Syntax
  import opened Expressions

  /** `SymbolTable`, `Types`, the console lines not yet read, and the text written so far. */
  datatype Store = Store(symbols: map<string, Value>, types: map<string, DeclType>, input: seq<string>, output: string)

  datatype Exec = Next(st: Store) | Halt(err: Error, st: Store)

  /** Every bound name has a declared type, and holds either nothing or a value of that type. */
  predicate WellTyped(st: Store) {
    st.symbols.Keys == st.types.Keys &&
    forall x :: x in st.symbols ==> st.symbols[x].Empty? || KindOf(st.symbols[x]) == Some(st.types[x])
  }

  /** `Environment` with both tables updated for one name. */
  function Bind(st: Store, name: string, v: Value, t: DeclType): Store {
    st.(symbols := st.symbols[name := v], types := st.types[name := t])
  }

  // ---------------------------------------------------------------------------
  // Declarations

  /** The line written for a name declared a second time. */
  function RedefinitionLine(name: string): string {
    "Error: Redefinition of variable " + name + "\n"
  }

  /** How many of the declarators carry an initialiser. */
  function InitCount(vars: seq<Declarator>): (n: nat)
    ensures n <= |vars|
  {
    if vars == [] then 0 else InitCount(vars[..|vars| - 1]) + (if vars[|vars| - 1].hasInit then 1 else 0)
  }

  /** The initialiser of declarator `k`: the expression whose index is the
      number of declarators before `k` that carry one, if there is such an expression. */
  function PairedInit(vars: seq<Declarator>, inits: seq<Expr>, k: nat): Option<Expr>
    requires k < |vars|
  {
    var j := InitCount(vars[..k]);
    if vars[k].hasInit && j < |inits| then Some(inits[j]) else None
  }

  /** One declarator: a name already bound is reported and skipped; a name
      with an initialiser is bound to its value once the value has the
      declared type; a name without one is bound to nothing. */
  function DeclareOne(p: Platform, pos: Pos, t: DeclType, st: Store, d: Declarator, init: Option<Expr>): (r: Exec)
    ensures r.st.input == st.input
    ensures r.Halt? ==> r.st == st && d.name !in st.symbols && d.hasInit && init.Some?
    ensures d.name in st.symbols ==>
      r.Next? && r.st.symbols == st.symbols && r.st.types == st.types &&
      r.st.output == st.output + RedefinitionLine(d.name)
    ensures d.name !in st.symbols ==> r.st.output == st.output
    ensures r.Next? && d.name !in st.symbols && (init.Some? || !d.hasInit) ==>
      r.st.types == st.types[d.name := t] && d.name in r.st.symbols &&
      (r.st.symbols[d.name].Empty? <==> !d.hasInit) &&
      (d.hasInit ==> KindOf(r.st.symbols[d.name]) == Some(t)) &&
      forall x :: x in st.symbols ==> x in r.st.symbols && r.st.symbols[x] == st.symbols[x]
    ensures r.Next? && d.name !in st.symbols && d.hasInit && init.None? ==> r.st == st
  {
    if d.name in st.symbols then Next(st.(output := st.output + RedefinitionLine(d.name)))
    else if d.hasInit then
      match init
      case None => Next(st)
      case Some(e) =>
        match Eval(p, st.symbols, e)
        case Err(err) => Halt(err, st)
        case Ok(v) =>
          match HandleTypeError(pos, v, t)
          case Err(err) => Halt(err, st)
          case Ok(_) => Next(Bind(st, d.name, v, t))
    else Next(Bind(st, d.name, Empty, t))
  }

  /** The declarators from `k` on, each with its positional initialiser. */
  function DeclareFrom(p: Platform, pos: Pos, t: DeclType, vars: seq<Declarator>, inits: seq<Expr>, k: nat, st: Store): Exec
    requires k <= |vars|
    decreases |vars| - k
  {
    if k == |vars| then Next(st)
    else
      match DeclareOne(p, pos, t, st, vars[k], PairedInit(vars, inits, k))
      case Halt(err, s) => Halt(err, s)
      case Next(s) => DeclareFrom(p, pos, t, vars, inits, k + 1, s)
  }

  /** `VisitDeclarations`: the type keyword first, then every declarator in order. */
  function Declare(p: Platform, pos: Pos, typeName: string, vars: seq<Declarator>, inits: seq<Expr>, st: Store): Exec {
    match KeywordType(typeName)
    case Err(err) => Halt(err, st)
    case Ok(t) => DeclareFrom(p, pos, t, vars, inits, 0, st)
  }

  /** The declaration loop as the interpreter writes it: `expctr` moves on
      only when an initialiser is used, so a redeclared name that carries
      one does not consume it. */
  function DeclareAsWritten(p: Platform, pos: Pos, t: DeclType, vars: seq<Declarator>, inits: seq<Expr>,
                            k: nat, expctr: nat, st: Store): Exec
    requires k <= |vars| && expctr <= |inits|
    decreases |vars| - k
  {
    if k == |vars| then Next(st)
    else if vars[k].name in st.symbols then
      DeclareAsWritten(p, pos, t, vars, inits, k + 1, expctr, st.(output := st.output + RedefinitionLine(vars[k].name)))
    else if vars[k].hasInit then
      if expctr < |inits| then
        match DeclareOne(p, pos, t, st, vars[k], Some(inits[expctr]))
        case Halt(err, s) => Halt(err, s)
        case Next(s) => DeclareAsWritten(p, pos, t, vars, inits, k + 1, expctr + 1, s)
      else DeclareAsWritten(p, pos, t, vars, inits, k + 1, expctr, st)
    else DeclareAsWritten(p, pos, t, vars, inits, k + 1, expctr, Bind(st, vars[k].name, Empty, t))
  }

  lemma InitCountStep(vars: seq<Declarator>, k: nat)
    requires k < |vars|
    ensures InitCount(vars[..k + 1]) == InitCount(vars[..k]) + (if vars[k].hasInit then 1 else 0)
  {
    assert vars[..k + 1][..k] == vars[..k];
  }

  /** Initialisers go out in textual order, one to each declarator carrying
      `=`: a later such declarator always gets a later expression, and when
      there are as many expressions as `=` signs, every one of them gets one. */
  lemma {:induction false} PairingInOrder(vars: seq<Declarator>, inits: seq<Expr>, j: nat, k: nat)
    requires j < k < |vars| && vars[j].hasInit
    ensures InitCount(vars[..j]) < InitCount(vars[..k])
    ensures InitCount(vars[..k]) < InitCount(vars) || !vars[k].hasInit
    ensures vars[k].hasInit && |inits| == InitCount(vars) ==> PairedInit(vars, inits, k).Some?
    decreases k - j
  {
    InitCountStep(vars, j);
    InitCountMonotone(vars, j + 1, k);
    InitCountMonotone(vars, k + 1, |vars|);
    InitCountStep(vars, k);
    assert vars[..|vars|] == vars;
  }

  lemma {:induction false} InitCountMonotone(vars: seq<Declarator>, i: nat, k: nat)
    requires i <= k <= |vars|
    ensures InitCount(vars[..i]) <= InitCount(vars[..k])
    decreases k - i
  {
    if i < k {
      InitCountMonotone(vars, i, k - 1);
      InitCountStep(vars, k - 1);
    }
  }

  /** A name bound before the declaration keeps its value and its type. */
  lemma {:induction false} DeclareKeepsBound(p: Platform, pos: Pos, t: DeclType, vars: seq<Declarator>, inits: seq<Expr>,
                                             k: nat, st: Store, x: string)
    requires k <= |vars| && x in st.symbols && x in st.types
    ensures var r := DeclareFrom(p, pos, t, vars, inits, k, st);
      x in r.st.symbols && x in r.st.types && r.st.symbols[x] == st.symbols[x] && r.st.types[x] == st.types[x]
    decreases |vars| - k
  {
    if k < |vars| {
      var r1 := DeclareOne(p, pos, t, st, vars[k], PairedInit(vars, inits, k));
      if r1.Next? {
        DeclareKeepsBound(p, pos, t, vars, inits, k + 1, r1.st, x);
      }
    }
  }

  /** A name declared a second time is reported on the output and the
      declaration goes on with the next declarator, tables unchanged. */
  lemma DeclareRedefinition(p: Platform, pos: Pos, t: DeclType, vars: seq<Declarator>, inits: seq<Expr>,
                            k: nat, st: Store)
    requires k < |vars| && vars[k].name in st.symbols
    ensures DeclareFrom(p, pos, t, vars, inits, k, st) ==
      DeclareFrom(p, pos, t, vars, inits, k + 1, st.(output := st.output + RedefinitionLine(vars[k].name)))
  {
  }

  /** The redefinition lines for the declarators from `k` on, in order. */
  function RedefinitionLines(vars: seq<Declarator>, k: nat): string
    requires k <= |vars|
    decreases |vars| - k
  {
    if k == |vars| then "" else RedefinitionLine(vars[k].name) + RedefinitionLines(vars, k + 1)
  }

  /** A declaration whose names are all bound already never halts: it writes
      one redefinition line per declarator and changes neither table. */
  lemma {:induction false} DeclareAllBound(p: Platform, pos: Pos, t: DeclType, vars: seq<Declarator>, inits: seq<Expr>,
                                           k: nat, st: Store)
    requires k <= |vars|
    requires forall j :: k <= j < |vars| ==> vars[j].name in st.symbols
    ensures DeclareFrom(p, pos, t, vars, inits, k, st) == Next(st.(output := st.output + RedefinitionLines(vars, k)))
    decreases |vars| - k
  {
    if k < |vars| {
      var st1 := st.(output := st.output + RedefinitionLine(vars[k].name));
      DeclareAllBound(p, pos, t, vars, inits, k + 1, st1);
      assert st1.output + RedefinitionLines(vars, k + 1) == st.output + RedefinitionLines(vars, k);
    }
  }

  /** A fresh name declared without `=` is bound to nothing under the declared type. */
  lemma {:induction false} DeclareWithoutInit(p: Platform, pos: Pos, t: DeclType, vars: seq<Declarator>, inits: seq<Expr>,
                                              i: nat, k: nat, st: Store)
    requires i <= k < |vars| && !vars[k].hasInit
    requires vars[k].name !in st.symbols
    requires forall j :: i <= j < k ==> vars[j].name != vars[k].name
    ensures var r := DeclareFrom(p, pos, t, vars, inits, i, st);
      r.Next? ==> (vars[k].name in r.st.symbols && vars[k].name in r.st.types &&
                   r.st.symbols[vars[k].name] == Empty && r.st.types[vars[k].name] == t)
    decreases k - i
  {
    var r1 := DeclareOne(p, pos, t, st, vars[i], PairedInit(vars, inits, i));
    if r1.Next? {
      if i == k {
        DeclareKeepsBound(p, pos, t, vars, inits, k + 1, r1.st, vars[k].name);
      } else {
        DeclareWithoutInit(p, pos, t, vars, inits, i + 1, k, r1.st);
      }
    }
  }

  /** A fresh name declared with `=` receives the value of its paired
      initialiser, when that expression reads no name the declaration itself
      introduces. */
  lemma {:induction false} DeclareWithInit(p: Platform, pos: Pos, t: DeclType, vars: seq<Declarator>, inits: seq<Expr>,
                                           i: nat, k: nat, e: Expr, st: Store)
    requires i <= k < |vars| && PairedInit(vars, inits, k) == Some(e)
    requires vars[k].name !in st.symbols
    requires forall j :: i <= j < k ==> vars[j].name != vars[k].name
    requires forall j :: i <= j < |vars| ==> vars[j].name !in FreeNames(e)
    ensures var r := DeclareFrom(p, pos, t, vars, inits, i, st);
      var v := Eval(p, st.symbols, e);
      r.Next? ==> (v.Ok? && vars[k].name in r.st.symbols && vars[k].name in r.st.types &&
                   r.st.symbols[vars[k].name] == v.value && r.st.types[vars[k].name] == t && KindOf(v.value) == Some(t))
    decreases k - i
  {
    var r1 := DeclareOne(p, pos, t, st, vars[i], PairedInit(vars, inits, i));
    if r1.Next? {
      if i == k {
        DeclareOneWithInit(p, pos, t, st, vars[k], e);
        DeclareKeepsBound(p, pos, t, vars, inits, k + 1, r1.st, vars[k].name);
      } else {
        DeclareOneKeepsEval(p, pos, t, st, vars[i], PairedInit(vars, inits, i), e, vars[k].name);
        DeclareWithInit(p, pos, t, vars, inits, i + 1, k, e, r1.st);
      }
    }
  }

  /** One fresh declarator with an initialiser holds that initialiser's value. */
  lemma DeclareOneWithInit(p: Platform, pos: Pos, t: DeclType, st: Store, d: Declarator, e: Expr)
    requires d.hasInit && d.name !in st.symbols
    ensures var r1 := DeclareOne(p, pos, t, st, d, Some(e));
      var v := Eval(p, st.symbols, e);
      r1.Next? ==> (v.Ok? && d.name in r1.st.symbols && d.name in r1.st.types &&
                    r1.st.symbols[d.name] == v.value && r1.st.types[d.name] == t && KindOf(v.value) == Some(t))
  {
  }

  /** One declarator changes neither the value of an expression that does not
      read it nor the absence of another name. */
  lemma DeclareOneKeepsEval(p: Platform, pos: Pos, t: DeclType, st: Store, d: Declarator, init: Option<Expr>, e: Expr, y: string)
    requires d.name !in FreeNames(e) && y !in st.symbols && d.name != y
    ensures var r1 := DeclareOne(p, pos, t, st, d, init);
      Eval(p, r1.st.symbols, e) == Eval(p, st.symbols, e) && y !in r1.st.symbols
  {
    var r1 := DeclareOne(p, pos, t, st, d, init);
    if d.name in r1.st.symbols && d.name !in st.symbols {
      EvalIgnoresOtherNames(p, st.symbols, e, d.name, r1.st.symbols[d.name]);
      assert r1.st.symbols == st.symbols[d.name := r1.st.symbols[d.name]];
    } else {
      assert r1.st.symbols == st.symbols;
    }
  }

  /** Declaring keeps every bound value within its declared type. */
  lemma {:induction false} DeclareWellTyped(p: Platform, pos: Pos, t: DeclType, vars: seq<Declarator>, inits: seq<Expr>,
                                            k: nat, st: Store)
    requires k <= |vars| && WellTyped(st)
    ensures WellTyped(DeclareFrom(p, pos, t, vars, inits, k, st).st)
    decreases |vars| - k
  {
    if k < |vars| {
      var r1 := DeclareOne(p, pos, t, st, vars[k], PairedInit(vars, inits, k));
      assert WellTyped(r1.st);
      if r1.Next? {
        DeclareWellTyped(p, pos, t, vars, inits, k + 1, r1.st);
      }
    }
  }

  /** With `a` already bound, `BOOL a = "FALSE", b = "TRUE"` leaves `b` false
      in the loop as written, because the skipped `a` does not consume
      `"FALSE"`; positional pairing gives `b` the value true. */
  lemma RedeclaredInitialiserShift(p: Platform, pos: Pos)
    ensures var st := Store(map["a" := Bool(true)], map["a" := BoolType], [], "");
      var vars := [Declarator("a", true), Declarator("b", true)];
      var inits := [ConstantExpr(pos, Literal(BoolToken, "\"FALSE\"")), ConstantExpr(pos, Literal(BoolToken, "\"TRUE\""))];
      var written := DeclareAsWritten(p, pos, BoolType, vars, inits, 0, 0, st);
      var paired := DeclareFrom(p, pos, BoolType, vars, inits, 0, st);
      written.Next? && paired.Next? && "b" in written.st.symbols && "b" in paired.st.symbols &&
      written.st.symbols["b"] == Bool(false) && paired.st.symbols["b"] == Bool(true)
  {
    var st := Store(map["a" := Bool(true)], map["a" := BoolType], [], "");
    var vars := [Declarator("a", true), Declarator("b", true)];
    var f := ConstantExpr(pos, Literal(BoolToken, "\"FALSE\""));
    var t := ConstantExpr(pos, Literal(BoolToken, "\"TRUE\""));
    var inits := [f, t];
    var st1 := st.(output := st.output + RedefinitionLine("a"));
    assert "b" != "a";
    assert "\"FALSE\"" != "\"TRUE\"";
    assert Eval(p, st1.symbols, f) == Ok(Bool(false));
    assert Eval(p, st1.symbols, t) == Ok(Bool(true));
    assert DeclareAsWritten(p, pos, BoolType, vars, inits, 0, 0, st) == DeclareAsWritten(p, pos, BoolType, vars, inits, 1, 0, st1);
    assert DeclareAsWritten(p, pos, BoolType, vars, inits, 1, 0, st1) == Next(Bind(st1, "b", Bool(false), BoolType));
    assert vars[..1] == [Declarator("a", true)];
    assert InitCount(vars[..1]) == 1 by {
      assert vars[..1][..0] == [];
    }
    assert PairedInit(vars, inits, 1) == Some(t);
    assert DeclareFrom(p, pos, BoolType, vars, inits, 0, st) == DeclareFrom(p, pos, BoolType, vars, inits, 1, st1);
    assert DeclareFrom(p, pos, BoolType, vars, inits, 1, st1) == Next(Bind(st1, "b", Bool(true), BoolType));
  }

  // ---------------------------------------------------------------------------
  // Assignment

  /** One target: evaluate the expression in the current state and store its
      value once it has the target's declared type; a target without a
      declared type is an unhandled `KeyNotFoundException`. */
  function AssignOne(p: Platform, pos: Pos, target: string, e: Expr, st: Store): (r: Exec)
    ensures r.Next? <==> (Eval(p, st.symbols, e).Ok? && target in st.types &&
                          KindOf(Eval(p, st.symbols, e).value) == Some(st.types[target]))
    ensures r.Next? ==> r.st == st.(symbols := st.symbols[target := Eval(p, st.symbols, e).value])
    ensures r.Halt? ==> r.st == st
  {
    match Eval(p, st.symbols, e)
    case Err(err) => Halt(err, st)
    case Ok(v) =>
      if target !in st.types then Halt(Crash(KeyNotFound), st)
      else
        match HandleTypeError(pos, v, st.types[target])
        case Err(err) => Halt(err, st)
        case Ok(_) => Next(st.(symbols := st.symbols[target := v]))
  }

  /** The targets from `k` on, each in the state the earlier targets left. */
  function AssignFrom(p: Platform, pos: Pos, targets: seq<string>, e: Expr, k: nat, st: Store): Exec
    requires k <= |targets|
    decreases |targets| - k
  {
    if k == |targets| then Next(st)
    else
      match AssignOne(p, pos, targets[k], e, st)
      case Halt(err, s) => Halt(err, s)
      case Next(s) => AssignFrom(p, pos, targets, e, k + 1, s)
  }

  /** Assignment changes only the values of its targets: types, input and
      output stay, and every other binding keeps its value. */
  lemma {:induction false} AssignFrame(p: Platform, pos: Pos, targets: seq<string>, e: Expr, k: nat, st: Store)
    requires k <= |targets|
    ensures var r := AssignFrom(p, pos, targets, e, k, st);
      r.st.types == st.types && r.st.input == st.input && r.st.output == st.output &&
      st.symbols.Keys <= r.st.symbols.Keys &&
      forall x :: x in st.symbols && x !in targets[k..] ==> r.st.symbols[x] == st.symbols[x]
    decreases |targets| - k
  {
    if k < |targets| {
      var r1 := AssignOne(p, pos, targets[k], e, st);
      if r1.Next? {
        AssignFrame(p, pos, targets, e, k + 1, r1.st);
      }
    }
  }

  /** A bound name that no target from `k` on refers to keeps its value. */
  lemma {:induction false} AssignFromKeeps(p: Platform, pos: Pos, targets: seq<string>, e: Expr, k: nat, st: Store, x: string)
    requires k <= |targets| && x in st.symbols
    requires forall j :: k <= j < |targets| ==> targets[j] != x
    ensures var r := AssignFrom(p, pos, targets, e, k, st);
      x in r.st.symbols && r.st.symbols[x] == st.symbols[x]
    decreases |targets| - k
  {
    if k < |targets| {
      var r1 := AssignOne(p, pos, targets[k], e, st);
      if r1.Next? {
        AssignFromKeeps(p, pos, targets, e, k + 1, r1.st, x);
      }
    }
  }

  /** After a completed assignment every target holds a value of exactly its declared type. */
  lemma {:induction false} AssignTargetsTyped(p: Platform, pos: Pos, targets: seq<string>, e: Expr, k: nat, st: Store)
    requires k <= |targets|
    ensures var r := AssignFrom(p, pos, targets, e, k, st);
      r.Next? ==> forall j :: k <= j < |targets| ==>
        targets[j] in r.st.symbols && targets[j] in r.st.types && KindOf(r.st.symbols[targets[j]]) == Some(r.st.types[targets[j]])
    decreases |targets| - k
  {
    if k < |targets| {
      var r1 := AssignOne(p, pos, targets[k], e, st);
      if r1.Next? {
        AssignTargetsTyped(p, pos, targets, e, k + 1, r1.st);
        AssignFrame(p, pos, targets, e, k + 1, r1.st);
        if forall j :: k + 1 <= j < |targets| ==> targets[j] != targets[k] {
          AssignFromKeeps(p, pos, targets, e, k + 1, r1.st, targets[k]);
        } else {
          var j :| k + 1 <= j < |targets| && targets[j] == targets[k];
        }
      }
    }
  }

  /** When the expression reads none of the targets, every target receives the same value. */
  lemma {:induction false} AssignSameValue(p: Platform, pos: Pos, targets: seq<string>, e: Expr, k: nat, st: Store)
    requires k <= |targets|
    requires forall j :: k <= j < |targets| ==> targets[j] !in FreeNames(e)
    ensures var r := AssignFrom(p, pos, targets, e, k, st);
      r.Next? && k < |targets| ==>
        (Eval(p, st.symbols, e).Ok? &&
         forall j :: k <= j < |targets| ==> targets[j] in r.st.symbols && r.st.symbols[targets[j]] == Eval(p, st.symbols, e).value)
    decreases |targets| - k
  {
    if k < |targets| {
      var r1 := AssignOne(p, pos, targets[k], e, st);
      if r1.Next? {
        var v := Eval(p, st.symbols, e).value;
        EvalIgnoresOtherNames(p, st.symbols, e, targets[k], v);
        AssignSameValue(p, pos, targets, e, k + 1, r1.st);
        if forall j :: k + 1 <= j < |targets| ==> targets[j] != targets[k] {
          AssignFromKeeps(p, pos, targets, e, k + 1, r1.st, targets[k]);
        } else {
          var j :| k + 1 <= j < |targets| && targets[j] == targets[k];
        }
      }
    }
  }

  /** Assignment keeps every bound value within its declared type. */
  lemma {:induction false} AssignWellTyped(p: Platform, pos: Pos, targets: seq<string>, e: Expr, k: nat, st: Store)
    requires k <= |targets| && WellTyped(st)
    ensures WellTyped(AssignFrom(p, pos, targets, e, k, st).st)
    decreases |targets| - k
  {
    if k < |targets| {
      var r1 := AssignOne(p, pos, targets[k], e, st);
      if r1.Next? {
        AssignWellTyped(p, pos, targets, e, k + 1, r1.st);
      }
    }
  }

  // ---------------------------------------------------------------------------
  // Re-typing and display

  /** `VisitVariable_assignment`: the name gets the new type and loses its value. */
  function VariableAssign(typeName: string, name: string, st: Store): (r: Exec)
    ensures r.Next? <==> KeywordType(typeName).Ok?
    ensures r.Next? ==> (r.st.symbols.Keys == st.symbols.Keys + {name} && r.st.types.Keys == st.types.Keys + {name} &&
                         r.st.symbols[name] == Empty && r.st.types[name] == KeywordType(typeName).value)
    ensures r.Next? ==> forall x :: x in st.symbols && x != name ==> r.st.symbols[x] == st.symbols[x]
    ensures r.Next? ==> (r.st.input == st.input && r.st.output == st.output &&
                         forall x :: x in st.types && x != name ==> r.st.types[x] == st.types[x])
    ensures r.Next? && WellTyped(st) ==> WellTyped(r.st)
    ensures r.Halt? ==> r == Halt(Crash(NotImplemented), st)
  {
    match KeywordType(typeName)
    case Err(err) => Halt(err, st)
    case Ok(t) => Next(Bind(st, name, Empty, t))
  }

  /** `VisitBuiltin_display`: the value's display text is written, nothing else changes. */
  function DisplayStmt(p: Platform, e: Expr, st: Store): (r: Exec)
    ensures r.Next? <==> Eval(p, st.symbols, e).Ok?
    ensures r.Next? ==> (|r.st.output| >= |st.output| && r.st.output[..|st.output|] == st.output &&
                         r.st.output[|st.output|..] == DisplayText(p, Eval(p, st.symbols, e).value))
    ensures r.st.symbols == st.symbols && r.st.types == st.types && r.st.input == st.input
  {
    match Eval(p, st.symbols, e)
    case Err(err) => Halt(err, st)
    case Ok(v) => Next(st.(output := st.output + DisplayText(p, v)))
  }

  // ---------------------------------------------------------------------------
  // Scan

  /** The input line cut at every comma, each piece trimmed. */
  function Pieces(line: string): (ps: seq<string>)
    ensures |ps| == |Split(line, ',')| >= 1
    ensures forall i :: 0 <= i < |ps| ==> ps[i] == Trim(Split(line, ',')[i])
  {
    var raw := Split(line, ',');
    seq(|raw|, i requires 0 <= i < |raw| => Trim(raw[i]))
  }

  /** `CodeConstant.Scan`: convert one input piece to the declared type of
      `id` and store it. Only `id`'s value changes, and only on success. */
  function ScanValue(p: Platform, pos: Pos, st: Store, id: string, input: string): (r: Exec)
    ensures r.Next? ==> (id in st.types && ChangeType(p, input, st.types[id]).Parsed? &&
                         r.st == st.(symbols := st.symbols[id := ChangeType(p, input, st.types[id]).value]))
    ensures r.Halt? ==> r.st == st
  {
    if id !in st.types then
      var r := HandleUndeclaredVariableError(pos, st.types, id);
      Halt(r.error, st)
    else
      var t := st.types[id];
      match ChangeType(p, input, t)
      case Parsed(v) => Next(st.(symbols := st.symbols[id := v]))
      case BadFormat => Halt(Fatal(pos, InvalidScanFormat(input, DeclTypeName(t))), st)
      case TooLarge => Halt(Crash(Overflow), st)
  }

  /** A scan of one piece succeeds exactly when `id` has a declared type and
      the piece converts to it, and then stores a value of that type; an
      undeclared `id` and a piece in the wrong format are the two reported errors. */
  lemma ScanValueOutcome(p: Platform, pos: Pos, st: Store, id: string, input: string)
    ensures var r := ScanValue(p, pos, st, id, input);
      (r.Next? <==> id in st.types && ChangeType(p, input, st.types[id]).Parsed?) &&
      (r.Next? ==> KindOf(r.st.symbols[id]) == Some(st.types[id])) &&
      (id !in st.types ==> r.err == Fatal(pos, UndeclaredVariable(id))) &&
      (id in st.types && ChangeType(p, input, st.types[id]).BadFormat? ==>
        r.err == Fatal(pos, InvalidScanFormat(input, DeclTypeName(st.types[id]))))
  {
  }

  /** The pieces from `i` on, each to the identifier in the same position. An
      identifier missing from the symbol table ends the scan through the
      undeclared-variable check on the type table. */
  function ScanFrom(p: Platform, pos: Pos, ids: seq<string>, pieces: seq<string>, i: nat, st: Store): Exec
    requires |pieces| <= |ids| && i <= |pieces|
    decreases |pieces| - i
  {
    if i == |pieces| then Next(st)
    else if ids[i] !in st.symbols then
      match HandleUndeclaredVariableError(pos, st.types, ids[i])
      case Err(err) => Halt(err, st)
      case Ok(_) => Next(st)
    else
      match ScanValue(p, pos, st, ids[i], pieces[i])
      case Halt(err, s) => Halt(err, s)
      case Next(s) => ScanFrom(p, pos, ids, pieces, i + 1, s)
  }

  /** `VisitBuiltin_scan`: read one line (none left is a null dereference),
      check the number of pieces, then store them. */
  function ScanStmt(p: Platform, pos: Pos, ids: seq<string>, st: Store): Exec {
    if st.input == [] then Halt(Crash(NullReference), st)
    else
      var pieces := Pieces(st.input[0]);
      var st1 := st.(input := st.input[1..]);
      if |pieces| < 1 || |pieces| > |ids| then Halt(Fatal(pos, InvalidScanInputs(|ids|, |pieces|)), st1)
      else ScanFrom(p, pos, ids, pieces, 0, st1)
  }

  /** More pieces than identifiers is an error before anything is stored,
      and no line ever gives fewer than one piece. */
  lemma ScanPieceCount(p: Platform, pos: Pos, ids: seq<string>, st: Store)
    requires st.input != []
    ensures |Pieces(st.input[0])| >= 1
    ensures |Pieces(st.input[0])| > |ids| ==>
      ScanStmt(p, pos, ids, st) == Halt(Fatal(pos, InvalidScanInputs(|ids|, |Pieces(st.input[0])|)), st.(input := st.input[1..]))
  {
  }

  /** Scanning touches only the scanned names and never changes types,
      the remaining input or the output. */
  lemma {:induction false} ScanFromFrame(p: Platform, pos: Pos, ids: seq<string>, pieces: seq<string>, i: nat, st: Store)
    requires |pieces| <= |ids| && i <= |pieces|
    ensures var r := ScanFrom(p, pos, ids, pieces, i, st);
      r.st.types == st.types && r.st.input == st.input && r.st.output == st.output &&
      forall x :: x in st.symbols && x !in ids[i..|pieces|] ==> x in r.st.symbols && r.st.symbols[x] == st.symbols[x]
    decreases |pieces| - i
  {
    if i < |pieces| && ids[i] in st.symbols {
      var r1 := ScanValue(p, pos, st, ids[i], pieces[i]);
      if r1.Next? {
        ScanFromFrame(p, pos, ids, pieces, i + 1, r1.st);
      }
    }
  }

  /** Scanning keeps every bound value within its declared type. */
  lemma {:induction false} ScanFromWellTyped(p: Platform, pos: Pos, ids: seq<string>, pieces: seq<string>, i: nat, st: Store)
    requires |pieces| <= |ids| && i <= |pieces| && WellTyped(st)
    ensures WellTyped(ScanFrom(p, pos, ids, pieces, i, st).st)
    decreases |pieces| - i
  {
    if i < |pieces| && ids[i] in st.symbols {
      var r1 := ScanValue(p, pos, st, ids[i], pieces[i]);
      if r1.Next? {
        ScanFromWellTyped(p, pos, ids, pieces, i + 1, r1.st);
      }
    }
  }

  /** A bound name that no identifier from `i` on refers to keeps its value. */
  lemma {:induction false} ScanFromKeeps(p: Platform, pos: Pos, ids: seq<string>, pieces: seq<string>, i: nat, st: Store, x: string)
    requires |pieces| <= |ids| && i <= |pieces| && x in st.symbols
    requires forall j :: i <= j < |pieces| ==> ids[j] != x
    ensures var r := ScanFrom(p, pos, ids, pieces, i, st);
      x in r.st.symbols && r.st.symbols[x] == st.symbols[x]
    decreases |pieces| - i
  {
    if i < |pieces| && ids[i] in st.symbols {
      var r1 := ScanValue(p, pos, st, ids[i], pieces[i]);
      if r1.Next? {
        ScanFromKeeps(p, pos, ids, pieces, i + 1, r1.st, x);
      }
    }
  }

  /** With distinct identifiers, a completed scan gives the i-th identifier
      the i-th piece converted to its declared type. */
  lemma {:induction false} ScanAssignsPositionally(p: Platform, pos: Pos, ids: seq<string>, pieces: seq<string>, i: nat, st: Store)
    requires |pieces| <= |ids| && i <= |pieces| && st.symbols.Keys == st.types.Keys
    requires forall a, b :: 0 <= a < b < |ids| ==> ids[a] != ids[b]
    ensures var r := ScanFrom(p, pos, ids, pieces, i, st);
      r.Next? ==> forall j :: i <= j < |pieces| ==>
        ids[j] in st.types && ChangeType(p, pieces[j], st.types[ids[j]]).Parsed? &&
        ids[j] in r.st.symbols && r.st.symbols[ids[j]] == ChangeType(p, pieces[j], st.types[ids[j]]).value
    decreases |pieces| - i
  {
    if i < |pieces| && ids[i] in st.symbols {
      var r1 := ScanValue(p, pos, st, ids[i], pieces[i]);
      if r1.Next? {
        var v := ChangeType(p, pieces[i], st.types[ids[i]]).value;
        assert r1.st == st.(symbols := st.symbols[ids[i] := v]);
        ScanAssignsPositionally(p, pos, ids, pieces, i + 1, r1.st);
        ScanFromKeeps(p, pos, ids, pieces, i + 1, r1.st, ids[i]);
      }
    }
  }

  /** An undeclared identifier stops the scan with its error, and the pieces
      stored before it stay stored. */
  lemma {:induction false} ScanStopsAtUndeclared(p: Platform, pos: Pos, ids: seq<string>, pieces: seq<string>,
                                                  i: nat, k: nat, st: Store)
    requires |pieces| <= |ids| && i <= k < |pieces| && st.symbols.Keys == st.types.Keys
    requires forall a, b :: 0 <= a < b < |ids| ==> ids[a] != ids[b]
    requires forall j :: i <= j < k ==> ids[j] in st.types && ChangeType(p, pieces[j], st.types[ids[j]]).Parsed?
    requires ids[k] !in st.symbols
    ensures var r := ScanFrom(p, pos, ids, pieces, i, st);
      r.Halt? && r.err == Fatal(pos, UndeclaredVariable(ids[k])) &&
      forall j :: i <= j < k ==> ids[j] in r.st.symbols && r.st.symbols[ids[j]] == ChangeType(p, pieces[j], st.types[ids[j]]).value
    decreases k - i
  {
    if i < k {
      var r1 := ScanValue(p, pos, st, ids[i], pieces[i]);
      ScanValueOutcome(p, pos, st, ids[i], pieces[i]);
      assert r1.Next?;
      assert r1.st.symbols.Keys == st.symbols.Keys;
      ScanStopsAtUndeclared(p, pos, ids, pieces, i + 1, k, r1.st);
      ScanFromKeeps(p, pos, ids, pieces, i + 1, r1.st, ids[i]);
    }
  }
}
