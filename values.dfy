/** The runtime values of a CODE program: the tagged union that replaces the
    interpreter's boxed `object?`, the five declared types, and the
    .NET behaviours of those boxed values that the interpreter relies on
    (32-bit wrap-around, `Equals`, the type name shown in diagnostics). */
module Values {

  datatype Option<+T> = None | Some(value: T)

  const MinInt32: int := -0x8000_0000
  const MaxInt32: int := 0x7FFF_FFFF
  const Modulus32: int := 0x1_0000_0000

  /** The values of C#'s `int`. */
  type int32 = x: int | MinInt32 <= x <= MaxInt32

  /** Two's-complement wrap-around of unchecked `int` arithmetic. */
  function Wrap32(x: int): (r: int32)
    ensures (r - x) % Modulus32 == 0
    ensures MinInt32 <= x <= MaxInt32 ==> r == x
  {
    var m := x % Modulus32;
    if m <= MaxInt32 then m else m - Modulus32
  }

  /** A C# `float` (IEEE 754 single precision), kept as its bit pattern. */
  datatype Float32 = Float32(bits: bv32)

  predicate IsNaN(f: Float32) {
    f.bits & 0x7F80_0000 == 0x7F80_0000 && f.bits & 0x007F_FFFF != 0
  }

  /** +0.0 or -0.0. */
  predicate IsZero(f: Float32) {
    f.bits & 0x7FFF_FFFF == 0
  }

  /** Unary minus on a float flips the sign bit and nothing else. */
  function Negate(f: Float32): (r: Float32)
    ensures r.bits & 0x7FFF_FFFF == f.bits & 0x7FFF_FFFF
    ensures r.bits & 0x8000_0000 != f.bits & 0x8000_0000
  {
    Float32(f.bits ^ 0x8000_0000)
  }

  /** `Single.Equals(object)` for two floats: IEEE equality, except that NaN
      equals NaN. */
  predicate SingleEquals(f: Float32, g: Float32) {
    (IsNaN(f) && IsNaN(g)) || (!IsNaN(f) && !IsNaN(g) && (f.bits == g.bits || (IsZero(f) && IsZero(g))))
  }

  /** Declared types, one per type keyword. */
  datatype DeclType = IntType | FloatType | BoolType | CharType | StringType

  /** A runtime value; `Empty` is the interpreter's `null`. */
  datatype Value =
    | Empty
    | Int(i: int32)
    | Real(f: Float32)
    | Bool(b: bool)
    | Char(c: char)
    | Text(s: string)

  predicate IsNumeric(v: Value) {
    v.Int? || v.Real?
  }

  /** The declared type a runtime value belongs to (`GetType()`); `Empty` has none. */
  function KindOf(v: Value): (k: Option<DeclType>)
    ensures k.None? <==> v.Empty?
    ensures k == Some(IntType) <==> v.Int?
    ensures k == Some(FloatType) <==> v.Real?
    ensures k == Some(BoolType) <==> v.Bool?
    ensures k == Some(CharType) <==> v.Char?
    ensures k == Some(StringType) <==> v.Text?
  {
    match v
    case Empty => None
    case Int(_) => Some(IntType)
    case Real(_) => Some(FloatType)
    case Bool(_) => Some(BoolType)
    case Char(_) => Some(CharType)
    case Text(_) => Some(StringType)
  }

  predicate SameKind(l: Value, r: Value) {
    KindOf(l) == KindOf(r)
  }

  /** `left.Equals(right)` on a non-null boxed value: a value of another
      kind (or null) is never equal; floats compare as `Single.Equals`. */
  predicate ObjectEquals(l: Value, r: Value)
    requires !l.Empty?
  {
    match l
    case Int(i) => r.Int? && r.i == i
    case Real(f) => r.Real? && SingleEquals(f, r.f)
    case Bool(b) => r.Bool? && r.b == b
    case Char(c) => r.Char? && r.c == c
    case Text(s) => r.Text? && r.s == s
  }

  lemma ObjectEqualsIsEquivalence(l: Value, r: Value)
    requires !l.Empty? && !r.Empty?
    ensures ObjectEquals(l, l)
    ensures ObjectEquals(l, r) == ObjectEquals(r, l)
    ensures ObjectEquals(l, r) ==> SameKind(l, r)
  {
  }

  /** `Equals` is transitive as well, NaN and the two zeros included, so it
      is an equivalence on non-null values. */
  lemma ObjectEqualsTransitive(l: Value, m: Value, r: Value)
    requires !l.Empty? && !m.Empty?
    requires ObjectEquals(l, m) && ObjectEquals(m, r)
    ensures ObjectEquals(l, r)
  {
  }

  /** `GetType().Name.ToUpper()`, as the diagnostics print it; null prints as nothing. */
  function TypeName(v: Value): (name: string)
    ensures name == "" <==> v.Empty?
  {
    match v
    case Empty => ""
    case Int(_) => "INT32"
    case Real(_) => "SINGLE"
    case Bool(_) => "BOOLEAN"
    case Char(_) => "CHAR"
    case Text(_) => "STRING"
  }

  /** `Type.Name.ToUpper()` of a declared type. */
  function DeclTypeName(t: DeclType): (name: string)
    ensures forall v :: KindOf(v) == Some(t) ==> TypeName(v) == name
  {
    match t
    case IntType => "INT32"
    case FloatType => "SINGLE"
    case BoolType => "BOOLEAN"
    case CharType => "CHAR"
    case StringType => "STRING"
  }

  predicate IsDigit(c: char) {
    '0' <= c <= '9'
  }

  function DigitChar(d: nat): (c: char)
    requires d < 10
    ensures IsDigit(c) && c as int - '0' as int == d
  {
    ['0', '1', '2', '3', '4', '5', '6', '7', '8', '9'][d]
  }

  /** Decimal digits of a natural number, most significant first. */
  function NatText(n: nat): (s: string)
    ensures |s| >= 1
    ensures forall k :: 0 <= k < |s| ==> IsDigit(s[k])
  {
    if n < 10 then [DigitChar(n)] else NatText(n / 10) + [DigitChar(n % 10)]
  }

  /** `string.Length` in .NET, which counts UTF-16 code units: one for a
      character of the Basic Multilingual Plane, two (a surrogate pair) for
      any other. A string is one unit long exactly when it is a single BMP
      character. */
  function Utf16Length(s: string): (n: nat)
    ensures |s| <= n <= 2 * |s|
    ensures n == 1 <==> |s| == 1 && s[0] as int < 0x1_0000
  {
    if s == [] then 0
    else (if s[0] as int < 0x1_0000 then 1 else 2) + Utf16Length(s[1..])
  }

  /** `int.ToString()`: a minus sign for negatives, then the digits. */
  function IntText(i: int): string {
    if i < 0 then "-" + NatText(-i) else NatText(i)
  }

  function DigitValue(c: char): nat
    requires IsDigit(c)
  {
    c as int - '0' as int
  }

  /** The number a string of decimal digits denotes: the reference reading of NatText. */
  function DigitsValue(s: string): nat
    requires forall k :: 0 <= k < |s| ==> IsDigit(s[k])
  {
    if s == [] then 0 else DigitsValue(s[..|s| - 1]) * 10 + DigitValue(s[|s| - 1])
  }

  lemma {:induction false} NatTextRoundTrip(n: nat)
    ensures DigitsValue(NatText(n)) == n
  {
    if n >= 10 {
      NatTextRoundTrip(n / 10);
      var s := NatText(n);
      assert s[..|s| - 1] == NatText(n / 10);
    }
  }

  lemma NatTextInjective(a: nat, b: nat)
    requires NatText(a) == NatText(b)
    ensures a == b
  {
    NatTextRoundTrip(a);
    NatTextRoundTrip(b);
  }

  lemma IntTextSign(i: int)
    ensures |IntText(i)| >= 1 && (IntText(i)[0] == '-' <==> i < 0)
  {
    if i >= 0 {
      assert IsDigit(NatText(i)[0]);
    }
  }

  /** Different numbers never print alike, so printed numbers identify values. */
  lemma IntTextInjective(i: int, j: int)
    requires IntText(i) == IntText(j)
    ensures i == j
  {
    IntTextSign(i);
    IntTextSign(j);
    if i < 0 && j < 0 {
      assert NatText(-i) == IntText(i)[1..] == NatText(-j);
      NatTextInjective(-i, -j);
    } else if i >= 0 && j >= 0 {
      NatTextInjective(i, j);
    }
  }
}
