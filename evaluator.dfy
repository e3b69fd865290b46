/** Operator semantics: type-directed dispatch over the runtime values. Every
    operator either yields a value of a determined kind or an error; there is
    no state. */
module Evaluator {
  import opened Values
  import opened Host
  import opened ErrorHandler

  datatype UnaryOp = Plus | Minus
  datatype RelOp = Greater | Less | GreaterEq | LessEq | Equal | NotEqual
  datatype BoolOp = And | Or

  function UnarySymbol(op: UnaryOp): string {
    if op.Plus? then "+" else "-"
  }

  function RelSymbol(op: RelOp): string {
    match op
    case Greater => ">"
    case Less => "<"
    case GreaterEq => ">="
    case LessEq => "<="
    case Equal => "=="
    case NotEqual => "<>"
  }

  /** The four operators that order numbers (as opposed to `==` and `<>`). */
  predicate IsOrdering(op: RelOp) {
    !op.Equal? && !op.NotEqual?
  }

  /** Unary `+` is the identity on every value; unary `-` negates an `int`
      (wrapping) or a `float`, and rejects everything else. */
  function Unary(pos: Pos, op: UnaryOp, v: Value): (res: Result<Value>)
    ensures op.Plus? ==> res == Ok(v)
    ensures op.Minus? ==> (res.Ok? <==> IsNumeric(v))
    ensures op.Minus? && v.Int? ==> res.Ok? && res.value.Int? && (res.value.i + v.i) % Modulus32 == 0
    ensures op.Minus? && v.Int? && v.i != MinInt32 ==> res == Ok(Int(-v.i))
    ensures op.Minus? && v.Real? ==> res.Ok? && res.value.Real? && res.value.f.bits == v.f.bits ^ 0x8000_0000
    ensures res.Err? ==> res.error == Fatal(pos, InvalidUnary("-"))
  {
    if op.Plus? then Ok(v)
    else if v.Int? then Ok(Int(Wrap32(-(v.i as int))))
    else if v.Real? then Ok(Real(Negate(v.f)))
    else Err(Fatal(pos, InvalidUnary(UnarySymbol(op))))
  }

  /** Negating twice gives back the operand, also for `int.MinValue`. */
  lemma UnaryMinusInvolutive(pos: Pos, v: Value)
    requires IsNumeric(v)
    ensures Unary(pos, Minus, Unary(pos, Minus, v).value) == Ok(v)
  {
    if v.Int? {
      if v.i == MinInt32 {
        assert Wrap32(-(v.i as int)) == MinInt32;
      }
    } else {
      assert (v.f.bits ^ 0x8000_0000) ^ 0x8000_0000 == v.f.bits;
    }
  }

  /** An operand of a mixed `int`/`float` operation, promoted to `float`. */
  function ToFloat(p: Platform, v: Value): Float32
    requires IsNumeric(v)
  {
    if v.Int? then p.widen(v.i) else v.f
  }

  predicate NumericPair(left: Value, right: Value) {
    IsNumeric(left) && IsNumeric(right)
  }

  predicate IntPair(left: Value, right: Value) {
    left.Int? && right.Int?
  }

  /** `+`: wrapping `int` addition, `float` addition after promotion, and
      otherwise, when one side is a string, concatenation of the default text
      forms (Booleans stay `True`/`False`). */
  function Add(p: Platform, pos: Pos, left: Value, right: Value): (res: Result<Value>)
    ensures res.Ok? <==> NumericPair(left, right) || left.Text? || right.Text?
    ensures IntPair(left, right) ==>
      res.Ok? && res.value.Int? && (res.value.i - (left.i + right.i)) % Modulus32 == 0
    ensures NumericPair(left, right) && !IntPair(left, right) ==>
      res == Ok(Real(p.add(ToFloat(p, left), ToFloat(p, right))))
    ensures !NumericPair(left, right) && res.Ok? ==>
      res == Ok(Text(DefaultText(p, left) + DefaultText(p, right)))
    ensures res.Err? ==> res.error == Fatal(pos, InvalidOperands("add", TypeName(left), TypeName(right)))
  {
    if IntPair(left, right) then Ok(Int(Wrap32(left.i as int + right.i)))
    else if NumericPair(left, right) then Ok(Real(p.add(ToFloat(p, left), ToFloat(p, right))))
    else if left.Text? || right.Text? then Ok(Text(DefaultText(p, left) + DefaultText(p, right)))
    else Err(Fatal(pos, InvalidOperands("add", TypeName(left), TypeName(right))))
  }

  /** `-`: numbers only, with the same promotion as `+`. */
  function Subtract(p: Platform, pos: Pos, left: Value, right: Value): (res: Result<Value>)
    ensures res.Ok? <==> NumericPair(left, right)
    ensures IntPair(left, right) ==>
      res.Ok? && res.value.Int? && (res.value.i - (left.i - right.i)) % Modulus32 == 0
    ensures NumericPair(left, right) && !IntPair(left, right) ==>
      res == Ok(Real(p.subtract(ToFloat(p, left), ToFloat(p, right))))
    ensures res.Err? ==> res.error == Fatal(pos, InvalidOperands("subtract", TypeName(left), TypeName(right)))
  {
    if IntPair(left, right) then Ok(Int(Wrap32(left.i as int - right.i)))
    else if NumericPair(left, right) then Ok(Real(p.subtract(ToFloat(p, left), ToFloat(p, right))))
    else Err(Fatal(pos, InvalidOperands("subtract", TypeName(left), TypeName(right))))
  }

  /** `*`: numbers only, with the same promotion as `+`. */
  function Multiply(p: Platform, pos: Pos, left: Value, right: Value): (res: Result<Value>)
    ensures res.Ok? <==> NumericPair(left, right)
    ensures IntPair(left, right) ==>
      res.Ok? && res.value.Int? && (res.value.i - left.i * right.i) % Modulus32 == 0
    ensures NumericPair(left, right) && !IntPair(left, right) ==>
      res == Ok(Real(p.multiply(ToFloat(p, left), ToFloat(p, right))))
    ensures res.Err? ==> res.error == Fatal(pos, InvalidOperands("multiply", TypeName(left), TypeName(right)))
  {
    if IntPair(left, right) then Ok(Int(Wrap32(left.i as int * right.i)))
    else if NumericPair(left, right) then Ok(Real(p.multiply(ToFloat(p, left), ToFloat(p, right))))
    else Err(Fatal(pos, InvalidOperands("multiply", TypeName(left), TypeName(right))))
  }

  function Abs(x: int): nat {
    if x < 0 then -x else x
  }

  /** C#'s integer `/`: the quotient rounded toward zero. */
  function TruncDiv(a: int, b: int): int
    requires b != 0
  {
    if (a < 0) == (b < 0) then Abs(a) / Abs(b) else -(Abs(a) / Abs(b))
  }

  /** C#'s integer `%`: what is left of `a` after taking away `b` times the quotient. */
  function TruncRem(a: int, b: int): int
    requires b != 0
  {
    a - b * TruncDiv(a, b)
  }

  /** `k * q <= y * q` for `k <= y`, by counting `q` down. */
  lemma {:induction false} MulMonotone(k: nat, y: nat, q: nat)
    requires k <= y
    ensures k * q <= y * q
  {
    if q > 0 {
      MulMonotone(k, y, q - 1);
      assert k * q == k * (q - 1) + k;
      assert y * q == y * (q - 1) + y;
    }
  }

  lemma DivBounds(x: nat, y: nat)
    requires y >= 1
    ensures x == y * (x / y) + x % y && 0 <= x % y < y
    ensures 0 <= x / y <= x
    ensures y >= 2 ==> 2 * (x / y) <= x
    ensures y == 1 ==> x / y == x
  {
    var q := x / y;
    var m := x % y;
    assert x == y * q + m && 0 <= m < y;
    MulMonotone(1, y, q);
    if y >= 2 {
      MulMonotone(2, y, q);
    }
  }

  /** The remainder is smaller than the divisor in magnitude, is zero or has
      the sign of the dividend, and the quotient never exceeds the dividend. */
  lemma TruncDivRem(a: int, b: int)
    requires b != 0
    ensures a == b * TruncDiv(a, b) + TruncRem(a, b)
    ensures Abs(TruncRem(a, b)) < Abs(b)
    ensures TruncRem(a, b) == 0 || (TruncRem(a, b) < 0 <==> a < 0)
    ensures Abs(TruncDiv(a, b)) <= Abs(a)
  {
    var x: int, y: int := Abs(a), Abs(b);
    var q: int, m: int := x / y, x % y;
    DivBounds(x, y);
    var prod := b * TruncDiv(a, b);
    if (a < 0) == (b < 0) {
      assert prod == b * q;
      if b < 0 {
        assert b * q == -(y * q);
      }
    } else {
      assert prod == b * -q;
      if b < 0 {
        assert b * -q == y * q;
      } else {
        assert b * -q == -(y * q);
      }
    }
    assert prod == (if a < 0 then -(y * q) else y * q);
    assert TruncRem(a, b) == (if a < 0 then -m else m);
  }

  /** The quotient of two 32-bit integers fits in 32 bits except for
      `int.MinValue / -1`. */
  lemma TruncDivInRange(a: int32, b: int32)
    requires b != 0 && !(a == MinInt32 && b == -1)
    ensures MinInt32 <= TruncDiv(a, b) <= MaxInt32
    ensures MinInt32 <= TruncRem(a, b) <= MaxInt32
  {
    TruncDivRem(a, b);
    DivBounds(Abs(a), Abs(b));
  }

  /** `/`: numbers only, with the same promotion as `+`. An `int` divisor of
      zero and `int.MinValue / -1` raise exceptions the interpreter does not catch. */
  function Divide(p: Platform, pos: Pos, left: Value, right: Value): (res: Result<Value>)
    ensures res.Err? ==> !IntPair(left, right) || right.i == 0 || (left.i == MinInt32 && right.i == -1)
    ensures IntPair(left, right) && right.i == 0 ==> res == Err(Crash(DivideByZero))
    ensures IntPair(left, right) && left.i == MinInt32 && right.i == -1 ==> res == Err(Crash(Overflow))
    ensures res.Ok? && IntPair(left, right) ==> res.value.Int? && res.value.i == TruncDiv(left.i, right.i)
    ensures NumericPair(left, right) && !IntPair(left, right) ==>
      res == Ok(Real(p.divide(ToFloat(p, left), ToFloat(p, right))))
    ensures !NumericPair(left, right) ==>
      res == Err(Fatal(pos, InvalidOperands("divide", TypeName(left), TypeName(right))))
  {
    if IntPair(left, right) then
      if right.i == 0 then Err(Crash(DivideByZero))
      else if left.i == MinInt32 && right.i == -1 then Err(Crash(Overflow))
      else
        TruncDivInRange(left.i, right.i);
        Ok(Int(TruncDiv(left.i, right.i)))
    else if NumericPair(left, right) then Ok(Real(p.divide(ToFloat(p, left), ToFloat(p, right))))
    else Err(Fatal(pos, InvalidOperands("divide", TypeName(left), TypeName(right))))
  }

  /** `%`: numbers only, with the same promotion as `+`; the `int` case fails
      exactly where `/` does. */
  function Modulo(p: Platform, pos: Pos, left: Value, right: Value): (res: Result<Value>)
    ensures res.Err? ==> !IntPair(left, right) || right.i == 0 || (left.i == MinInt32 && right.i == -1)
    ensures IntPair(left, right) && right.i == 0 ==> res == Err(Crash(DivideByZero))
    ensures IntPair(left, right) && left.i == MinInt32 && right.i == -1 ==> res == Err(Crash(Overflow))
    ensures res.Ok? && IntPair(left, right) ==> res.value.Int? && res.value.i == TruncRem(left.i, right.i)
    ensures NumericPair(left, right) && !IntPair(left, right) ==>
      res == Ok(Real(p.remainder(ToFloat(p, left), ToFloat(p, right))))
    ensures !NumericPair(left, right) ==>
      res == Err(Fatal(pos, InvalidOperands("get modulo for the", TypeName(left), TypeName(right))))
  {
    if IntPair(left, right) then
      if right.i == 0 then Err(Crash(DivideByZero))
      else if left.i == MinInt32 && right.i == -1 then Err(Crash(Overflow))
      else
        TruncDivInRange(left.i, right.i);
        Ok(Int(TruncRem(left.i, right.i)))
    else if NumericPair(left, right) then Ok(Real(p.remainder(ToFloat(p, left), ToFloat(p, right))))
    else Err(Fatal(pos, InvalidOperands("get modulo for the", TypeName(left), TypeName(right))))
  }

  /** On two `int`s, `/` and `%` succeed together and rebuild the dividend:
      `a == b * (a / b) + a % b`, with `|a % b| < |b|`. */
  lemma DivideModuloAgree(p: Platform, pos: Pos, left: Value, right: Value)
    requires IntPair(left, right)
    ensures Divide(p, pos, left, right).Ok? <==> Modulo(p, pos, left, right).Ok?
    ensures Divide(p, pos, left, right).Ok? ==>
      var q, m := Divide(p, pos, left, right).value.i, Modulo(p, pos, left, right).value.i;
      left.i == right.i * q + m && Abs(m) < Abs(right.i)
  {
    if right.i != 0 {
      TruncDivRem(left.i, right.i);
    }
  }

  function CompareInts(op: RelOp, a: int, b: int): bool
    requires IsOrdering(op)
  {
    if op == Greater then a > b
    else if op == Less then a < b
    else if op == GreaterEq then a >= b
    else a <= b
  }

  /** `a > b` is `b < a` and `a >= b` is `b <= a`, which keeps NaN unordered. */
  function CompareFloats(p: Platform, op: RelOp, a: Float32, b: Float32): bool
    requires IsOrdering(op)
  {
    if op == Greater then p.less(b, a)
    else if op == Less then p.less(a, b)
    else if op == GreaterEq then p.lessOrEqual(b, a)
    else p.lessOrEqual(a, b)
  }

  /** `>`, `<`, `>=`, `<=` compare two `int`s or two `float`s (no promotion
      between them); `==` is `left.Equals(right)`, which is null when the left
      operand is null, and `<>` its negation. */
  function Relational(p: Platform, pos: Pos, left: Value, right: Value, op: RelOp): (res: Result<Value>)
    ensures IsOrdering(op) ==> (res.Ok? <==> IntPair(left, right) || (left.Real? && right.Real?))
    ensures IsOrdering(op) && res.Ok? ==> res.value.Bool?
    ensures IntPair(left, right) ==>
      (op == Greater ==> res == Ok(Bool(left.i > right.i))) &&
      (op == Less ==> res == Ok(Bool(left.i < right.i))) &&
      (op == GreaterEq ==> res == Ok(Bool(left.i >= right.i))) &&
      (op == LessEq ==> res == Ok(Bool(left.i <= right.i)))
    ensures left.Real? && right.Real? ==>
      (op == Greater ==> res == Ok(Bool(p.less(right.f, left.f)))) &&
      (op == Less ==> res == Ok(Bool(p.less(left.f, right.f)))) &&
      (op == GreaterEq ==> res == Ok(Bool(p.lessOrEqual(right.f, left.f)))) &&
      (op == LessEq ==> res == Ok(Bool(p.lessOrEqual(left.f, right.f))))
    ensures !IsOrdering(op) && left.Empty? ==> res == Ok(Empty)
    ensures !IsOrdering(op) && !left.Empty? ==>
      res.Ok? && res.value.Bool? && (res.value.b <==> (op == Equal) == ObjectEquals(left, right))
    ensures res.Err? ==>
      res.error == Fatal(pos, InvalidComparison(TypeName(left), TypeName(right), RelSymbol(op)))
  {
    match op
    case Equal => if left.Empty? then Ok(Empty) else Ok(Bool(ObjectEquals(left, right)))
    case NotEqual => if left.Empty? then Ok(Empty) else Ok(Bool(!ObjectEquals(left, right)))
    case _ =>
      if IntPair(left, right) then Ok(Bool(CompareInts(op, left.i, right.i)))
      else if left.Real? && right.Real? then Ok(Bool(CompareFloats(p, op, left.f, right.f)))
      else Err(Fatal(pos, InvalidComparison(TypeName(left), TypeName(right), RelSymbol(op))))
  }

  /** Values of different kinds are never equal, `<>` always answers the
      opposite of `==`, and every non-null value equals itself. */
  lemma EqualityAcrossKinds(p: Platform, pos: Pos, left: Value, right: Value)
    requires !left.Empty?
    ensures !SameKind(left, right) ==> Relational(p, pos, left, right, Equal) == Ok(Bool(false))
    ensures Relational(p, pos, left, right, NotEqual).value.b == !Relational(p, pos, left, right, Equal).value.b
    ensures Relational(p, pos, left, left, Equal) == Ok(Bool(true))
  {
    if !right.Empty? {
      ObjectEqualsIsEquivalence(left, right);
    }
    ObjectEqualsIsEquivalence(left, left);
  }

  /** `Convert.ToBoolean(object)`: null is false, numbers are true when
      non-zero, strings go through `bool.Parse`, and a `char` cannot be converted. */
  function ToBoolean(p: Platform, v: Value): (res: Result<bool>)
    ensures v.Bool? ==> res == Ok(v.b)
    ensures v.Empty? ==> res == Ok(false)
    ensures v.Int? ==> res == Ok(v.i != 0)
    ensures res.Err? <==> v.Char? || (v.Text? && !p.parseBool(v.s).Parsed?)
  {
    match v
    case Empty => Ok(false)
    case Int(i) => Ok(i != 0)
    case Real(f) => Ok(!IsZero(f))
    case Bool(b) => Ok(b)
    case Char(_) => Err(Crash(InvalidCast))
    case Text(s) =>
      match p.parseBool(s)
      case Parsed(b) => Ok(b)
      case _ => Err(Crash(Format))
  }

  /** `NOT`: the operand is first converted with `Convert.ToBoolean` (which
      may throw), then only a Boolean is accepted, and its negation returned. */
  function Negation(p: Platform, pos: Pos, v: Value): (res: Result<Value>)
    ensures res.Ok? <==> v.Bool?
    ensures v.Bool? ==> res == Ok(Bool(!v.b))
    ensures res.Err? && ToBoolean(p, v).Ok? ==> res.error == Fatal(pos, NotBoolean)
  {
    var _ :- ToBoolean(p, v);
    if v.Bool? then Ok(Bool(!v.b)) else Err(Fatal(pos, NotBoolean))
  }

  /** `AND` and `OR` convert their operands with `Convert.ToBoolean`, the
      right one only when the left one does not decide the answer. They never
      report a diagnostic; only a conversion can fail. */
  function BoolOperation(p: Platform, pos: Pos, left: Value, right: Value, op: BoolOp): (res: Result<Value>)
    ensures res.Ok? ==> res.value.Bool?
    ensures res.Err? ==> res.error.Crash?
    ensures left.Bool? && right.Bool? ==>
      res == Ok(Bool(if op.And? then left.b && right.b else left.b || right.b))
    ensures op.And? && left == Bool(false) ==> res == Ok(Bool(false))
    ensures op.Or? && left == Bool(true) ==> res == Ok(Bool(true))
  {
    var a :- ToBoolean(p, left);
    if op.And? && !a then Ok(Bool(false))
    else if op.Or? && a then Ok(Bool(true))
    else
      var b :- ToBoolean(p, right);
      Ok(Bool(b))
  }

  /** An escape sequence stands for the single character it escapes. */
  function Escape(pos: Pos, sequence: Option<char>): (res: Result<Value>)
    ensures res.Ok? <==> sequence.Some?
    ensures res.Ok? ==> res.value.Text? && |res.value.s| == 1 && res.value.s[0] == sequence.value
    ensures res.Err? ==> res.error == Fatal(pos, InvalidEscapeSequence(""))
  {
    match sequence
    case Some(c) => Ok(Text([c]))
    case None => Err(Fatal(pos, InvalidEscapeSequence("")))
  }
}
