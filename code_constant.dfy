/** Literal decoding, the type keywords, rendering for display and
    concatenation, checked lookup, and the text conversions the scan uses. */
module CodeConstant {
  import opened Values
  import opened Host
  import opened ErrorHandler

  /** The lexer token a constant was read from, and its exact text. */
  datatype TokenKind = IntToken | FloatToken | BoolToken | CharToken | StringToken
  datatype Literal = Literal(kind: TokenKind, text: string)

  predicate WrappedIn(s: string, q: char) {
    |s| >= 1 && s[0] == q && s[|s| - 1] == q
  }

  /** The text strictly between the first and the last character. */
  function Inner(s: string): string
    requires |s| >= 2
  {
    s[1..|s| - 1]
  }

  /** `Regex.Replace(text, @"\\(.)", "$1")`: every backslash that is followed
      by a character other than a newline is dropped, scanning left to right. */
  function DropEscapes(s: string): (r: string)
    ensures |r| <= |s| <= 2 * |r|
  {
    if |s| >= 2 && s[0] == '\\' && s[1] != '\n' then [s[1]] + DropEscapes(s[2..])
    else if s == [] then []
    else [s[0]] + DropEscapes(s[1..])
  }

  /** Puts a backslash before every backslash and double quote, as a source
      text would spell them inside a string literal. */
  function EscapeQuoted(t: string): string {
    if t == [] then []
    else if t[0] == '\\' || t[0] == '"' then ['\\', t[0]] + EscapeQuoted(t[1..])
    else [t[0]] + EscapeQuoted(t[1..])
  }

  /** Dropping the escapes of an escaped text gives the text back. */
  lemma {:induction false} DropEscapesRoundTrip(t: string)
    ensures DropEscapes(EscapeQuoted(t)) == t
  {
    if t != [] {
      DropEscapesRoundTrip(t[1..]);
      if t[0] == '\\' || t[0] == '"' {
        var e := EscapeQuoted(t);
        assert e[2..] == EscapeQuoted(t[1..]);
      } else {
        var e := EscapeQuoted(t);
        assert e[1..] == EscapeQuoted(t[1..]);
      }
    }
  }

  /** A text without backslashes is left as it is. */
  lemma {:induction false} DropEscapesNoBackslash(t: string)
    requires '\\' !in t
    ensures DropEscapes(t) == t
  {
    if t != [] {
      assert '\\' !in t[1..];
      DropEscapesNoBackslash(t[1..]);
    }
  }

  function FromParsed<T>(r: Parsed<T>, wrap: T -> Value): Result<Value> {
    match r
    case Parsed(v) => Ok(wrap(v))
    case BadFormat => Err(Crash(Format))
    case TooLarge => Err(Crash(Overflow))
  }

  /** `Data`: the constant's text is inspected before its token kind, so any
      text wrapped in double quotes (a Boolean `"TRUE"` included) becomes the
      string between the quotes, and any text wrapped in single quotes the
      character at index 1. */
  function Data(p: Platform, lit: Literal): (res: Result<Value>)
    ensures WrappedIn(lit.text, '"') && |lit.text| >= 2 ==> res == Ok(Text(Inner(lit.text)))
    ensures WrappedIn(lit.text, '"') && |lit.text| < 2 ==> res == Err(Crash(ArgumentOutOfRange))
    ensures !WrappedIn(lit.text, '"') && WrappedIn(lit.text, '\'') ==>
      res == (if |lit.text| >= 2 then Ok(Char(lit.text[1])) else Err(Crash(IndexOutOfRange)))
    ensures res.Ok? && lit.kind == IntToken && !WrappedIn(lit.text, '"') && !WrappedIn(lit.text, '\'') ==>
      res.value.Int?
    ensures res.Ok? && lit.kind == FloatToken && !WrappedIn(lit.text, '"') && !WrappedIn(lit.text, '\'') ==>
      res.value.Real?
  {
    var c := lit.text;
    if WrappedIn(c, '"') then
      if |c| >= 2 then Ok(Text(Inner(c))) else Err(Crash(ArgumentOutOfRange))
    else if WrappedIn(c, '\'') then
      if |c| >= 2 then Ok(Char(c[1])) else Err(Crash(IndexOutOfRange))
    else
      match lit.kind
      case BoolToken => FromParsed(p.parseBool(c), b => Bool(b))
      case IntToken => FromParsed(p.parseInt(c), i => Int(i))
      case FloatToken => FromParsed(p.parseFloat(c), f => Real(f))
      case StringToken =>
        if |c| >= 2 then Ok(Text(DropEscapes(Inner(c)))) else Err(Crash(ArgumentOutOfRange))
      case CharToken =>
        if |c| >= 2 then Ok(Char(c[1])) else Err(Crash(IndexOutOfRange))
  }

  /** `ConstantExpressionParser`: dispatch on the token kind. A BOOL constant
      is true exactly when its text is `"TRUE"` with the quotes; a STRING
      constant loses its first and last characters and nothing else. */
  function ConstantExpressionParser(p: Platform, lit: Literal): (res: Result<Value>)
    ensures lit.kind == BoolToken ==> res == Ok(Bool(lit.text == "\"TRUE\""))
    ensures lit.kind == StringToken ==>
      (res.Ok? <==> |lit.text| >= 2) &&
      (res.Ok? ==> res.value.Text? && lit.text == [lit.text[0]] + res.value.s + [lit.text[|lit.text| - 1]])
    ensures lit.kind == CharToken ==>
      (res.Ok? <==> |lit.text| >= 2) && (res.Ok? ==> res.value == Char(lit.text[1]))
    ensures lit.kind == IntToken && res.Ok? ==> res.value.Int? && p.parseInt(lit.text) == Parsed(res.value.i)
    ensures lit.kind == FloatToken && res.Ok? ==> res.value.Real? && p.parseFloat(lit.text) == Parsed(res.value.f)
  {
    var c := lit.text;
    match lit.kind
    case IntToken => FromParsed(p.parseInt(c), i => Int(i))
    case FloatToken => FromParsed(p.parseFloat(c), f => Real(f))
    case CharToken => if |c| >= 2 then Ok(Char(c[1])) else Err(Crash(IndexOutOfRange))
    case BoolToken => Ok(Bool(c == "\"TRUE\""))
    case StringToken => if |c| >= 2 then Ok(Text(Inner(c))) else Err(Crash(ArgumentOutOfRange))
  }

  /** The two decoders agree on every double-quoted string literal, escapes
      included: `Data` returns the text between the quotes before it looks at
      the token kind, so its backslash-removing branch is never reached by a
      quoted literal. A BOOL literal decodes to a Boolean in one and to a
      string in the other. */
  lemma DecodersCompared(p: Platform, text: string)
    requires WrappedIn(text, '"') && |text| >= 2
    ensures Data(p, Literal(StringToken, text)) == ConstantExpressionParser(p, Literal(StringToken, text))
    ensures Data(p, Literal(StringToken, "\"a\\\"b\"")) == Ok(Text("a\\\"b"))
    ensures Data(p, Literal(BoolToken, "\"TRUE\"")) == Ok(Text("TRUE"))
    ensures ConstantExpressionParser(p, Literal(BoolToken, "\"TRUE\"")) == Ok(Bool(true))
  {
    assert Inner("\"TRUE\"") == "TRUE";
    assert Inner("\"a\\\"b\"") == "a\\\"b";
  }

  /** The keyword that names each declared type. */
  function Keyword(t: DeclType): string {
    match t
    case IntType => "INT"
    case FloatType => "FLOAT"
    case BoolType => "BOOL"
    case CharType => "CHAR"
    case StringType => "STRING"
  }

  /** `Type`: the five keywords and nothing else name a type. */
  function KeywordType(text: string): (res: Result<DeclType>)
    ensures res.Ok? <==> text in {"INT", "FLOAT", "BOOL", "CHAR", "STRING"}
    ensures res.Err? ==> res.error == Crash(NotImplemented)
  {
    if text == "INT" then Ok(IntType)
    else if text == "FLOAT" then Ok(FloatType)
    else if text == "BOOL" then Ok(BoolType)
    else if text == "CHAR" then Ok(CharType)
    else if text == "STRING" then Ok(StringType)
    else Err(Crash(NotImplemented))
  }

  /** Keywords and types correspond one to one. */
  lemma KeywordTypeBijective(text: string, t: DeclType)
    ensures KeywordType(text) == Ok(t) <==> text == Keyword(t)
  {
  }

  /** `ToUpper()` on the ASCII letters (the only letters `bool.ToString()` produces). */
  function Upper(s: string): (r: string)
    ensures |r| == |s|
  {
    seq(|s|, i requires 0 <= i < |s| => if 'a' <= s[i] <= 'z' then (s[i] as int - 32) as char else s[i])
  }

  lemma UpperBooleanText()
    ensures Upper("True") == "TRUE" && Upper("False") == "FALSE"
  {
    var t := Upper("True");
    assert t[0] == 'T' && t[1] == 'R' && t[2] == 'U' && t[3] == 'E';
    var f := Upper("False");
    assert f[0] == 'F' && f[1] == 'A' && f[2] == 'L' && f[3] == 'S' && f[4] == 'E';
  }

  /** The text a value is displayed or concatenated as: a Boolean's
      `ToString().ToUpper()`, otherwise its default text. */
  function DisplayText(p: Platform, v: Value): (s: string)
    ensures v == Bool(true) ==> s == "TRUE"
    ensures v == Bool(false) ==> s == "FALSE"
    ensures !v.Bool? ==> s == DefaultText(p, v)
  {
    if v.Bool? then UpperBooleanText(); Upper(DefaultText(p, v)) else DefaultText(p, v)
  }

  /** `Append` (the `&` operator): always a string, the left operand's display
      text followed by the right one's. */
  function Append(p: Platform, left: Value, right: Value): (res: Value)
    ensures res.Text?
    ensures |res.s| == |DisplayText(p, left)| + |DisplayText(p, right)|
    ensures res.s[..|DisplayText(p, left)|] == DisplayText(p, left)
    ensures res.s[|DisplayText(p, left)|..] == DisplayText(p, right)
  {
    Text(DisplayText(p, left) + DisplayText(p, right))
  }

  /** `&` and `+` agree on strings unless a Boolean is involved, where `&`
      writes `TRUE`/`FALSE` and `+` writes `True`/`False`. */
  lemma AppendVersusAdd(p: Platform, s: string, b: bool, v: Value)
    requires !v.Bool?
    ensures Append(p, Text(s), v).s == s + DefaultText(p, v)
    ensures Append(p, Text(s), Bool(b)).s == s + (if b then "TRUE" else "FALSE")
    ensures DefaultText(p, Bool(b)) == if b then "True" else "False"
  {
  }

  /** `Identifier`: the stored value of a bound name; an unbound name is fatal. */
  function Identifier(pos: Pos, table: map<string, Value>, name: string): (res: Result<Value>)
    ensures res.Ok? <==> name in table
    ensures res.Ok? ==> res.value == table[name]
    ensures res.Err? ==> res.error == Fatal(pos, UndefinedVariable(name))
  {
    if name in table then Ok(table[name]) else Err(Fatal(pos, UndefinedVariable(name)))
  }

  /** `VariableDeclarations`: the same checked lookup, reached from a
      variable-declaration node. */
  function VariableDeclarations(pos: Pos, table: map<string, Value>, name: string): (res: Result<Value>)
    ensures res.Ok? <==> name in table
    ensures res.Ok? ==> res.value == table[name]
    ensures res.Err? ==> res.error == Fatal(pos, UndefinedVariable(name))
  {
    Identifier(pos, table, name)
  }

  /** `Convert.ChangeType(input, type)` from a string: a string stays as it
      is, a `char` needs a string of exactly one UTF-16 unit (`Convert.ToChar`
      rejects a surrogate pair), the others are parsed. A successful
      conversion always has the requested type. */
  function ChangeType(p: Platform, input: string, t: DeclType): (res: Parsed<Value>)
    ensures res.Parsed? ==> KindOf(res.value) == Some(t)
    ensures t == StringType ==> res == Parsed(Text(input))
    ensures t == CharType ==> (res.Parsed? <==> Utf16Length(input) == 1)
    ensures t == CharType && res.Parsed? ==> res.value == Char(input[0])
    ensures t == IntType ==> (res.Parsed? <==> p.parseInt(input).Parsed?)
    ensures t == FloatType ==> (res.Parsed? <==> p.parseFloat(input).Parsed?)
    ensures t == BoolType ==> (res.Parsed? <==> p.parseBool(input).Parsed?)
  {
    match t
    case StringType => Parsed(Text(input))
    case CharType => if |input| == 1 && input[0] as int < 0x1_0000 then Parsed(Char(input[0])) else BadFormat
    case IntType =>
      (match p.parseInt(input)
       case Parsed(i) => Parsed(Int(i))
       case BadFormat => BadFormat
       case TooLarge => TooLarge)
    case FloatType =>
      (match p.parseFloat(input)
       case Parsed(f) => Parsed(Real(f))
       case BadFormat => BadFormat
       case TooLarge => TooLarge)
    case BoolType =>
      (match p.parseBool(input)
       case Parsed(b) => Parsed(Bool(b))
       case BadFormat => BadFormat
       case TooLarge => TooLarge)
  }

  /** `char.IsWhiteSpace`: the Unicode space separators, line and paragraph
      separators, and the control characters U+0009 to U+000D and U+0085. */
  predicate IsWhiteSpace(c: char) {
    ('\t' <= c <= '\r') || c == ' ' || c == '\U{0085}' || c == '\U{00A0}' || c == '\U{1680}'
    || ('\U{2000}' <= c <= '\U{200A}') || c == '\U{2028}' || c == '\U{2029}' || c == '\U{202F}'
    || c == '\U{205F}' || c == '\U{3000}'
  }

  function TrimStart(s: string): (r: string)
    ensures |r| <= |s| && r == s[|s| - |r|..]
    ensures forall k :: 0 <= k < |s| - |r| ==> IsWhiteSpace(s[k])
    ensures r != [] ==> !IsWhiteSpace(r[0])
  {
    if s != [] && IsWhiteSpace(s[0]) then TrimStart(s[1..]) else s
  }

  function TrimEnd(s: string): (r: string)
    ensures |r| <= |s| && r == s[..|r|]
    ensures forall k :: |r| <= k < |s| ==> IsWhiteSpace(s[k])
    ensures r != [] ==> !IsWhiteSpace(r[|r| - 1])
  {
    if s != [] && IsWhiteSpace(s[|s| - 1]) then TrimEnd(s[..|s| - 1]) else s
  }

  /** `r` occurs in `s` starting at index `i`. */
  predicate IsSliceAt(r: string, s: string, i: int) {
    0 <= i <= |s| - |r| && r == s[i..i + |r|]
  }

  lemma SliceOfSuffix(s: string, i: nat, n: nat)
    requires i + n <= |s|
    ensures s[i..][..n] == s[i..i + n]
  {
  }

  /** `string.Trim()`: the longest stretch that neither starts nor ends with
      white space; only white space is removed, and only at the two ends. */
  function Trim(s: string): (r: string)
    ensures r != [] ==> !IsWhiteSpace(r[0]) && !IsWhiteSpace(r[|r| - 1])
    ensures exists i :: IsSliceAt(r, s, i) && (forall k :: 0 <= k < i ==> IsWhiteSpace(s[k])) &&
                        (forall k :: i + |r| <= k < |s| ==> IsWhiteSpace(s[k]))
  {
    var t := TrimStart(s);
    var r := TrimEnd(t);
    TrimmedTail(s, |s| - |t|, t, r);
    r
  }

  /** What TrimEnd leaves of a suffix of `s` is followed in `s` by white space only. */
  lemma TrimmedTail(s: string, i: nat, t: string, r: string)
    requires i <= |s| && t == s[i..] && |r| <= |t| && r == t[..|r|]
    requires forall k :: |r| <= k < |t| ==> IsWhiteSpace(t[k])
    ensures IsSliceAt(r, s, i)
    ensures forall k :: i + |r| <= k < |s| ==> IsWhiteSpace(s[k])
  {
    SliceOfSuffix(s, i, |r|);
    forall k | i + |r| <= k < |s|
      ensures IsWhiteSpace(s[k])
    {
      assert s[k] == t[k - i];
    }
  }

  /** `string.Split(sep)`: the pieces between separators, always at least one. */
  function Split(s: string, sep: char): (parts: seq<string>)
    ensures |parts| >= 1
    ensures forall k :: 0 <= k < |parts| ==> sep !in parts[k]
  {
    if s == [] then [""]
    else
      var init := Split(s[..|s| - 1], sep);
      var last := s[|s| - 1];
      if last == sep then init + [""]
      else init[..|init| - 1] + [init[|init| - 1] + [last]]
  }

  /** The inverse of Split: the pieces with a separator between each two. */
  function Join(parts: seq<string>, sep: char): string
    requires |parts| >= 1
  {
    if |parts| == 1 then parts[0] else Join(parts[..|parts| - 1], sep) + [sep] + parts[|parts| - 1]
  }

  lemma JoinSnoc(parts: seq<string>, t: string, sep: char)
    requires |parts| >= 1
    ensures Join(parts + [t], sep) == Join(parts, sep) + [sep] + t
  {
    assert (parts + [t])[..|parts|] == parts;
  }

  lemma JoinExtendLast(parts: seq<string>, c: char, sep: char)
    requires |parts| >= 1
    ensures Join(parts[..|parts| - 1] + [parts[|parts| - 1] + [c]], sep) == Join(parts, sep) + [c]
  {
    var n := |parts|;
    var q := parts[..n - 1] + [parts[n - 1] + [c]];
    if n > 1 {
      assert q[..n - 1] == parts[..n - 1];
      var front := Join(parts[..n - 1], sep);
      assert Join(q, sep) == front + [sep] + (parts[n - 1] + [c]);
      assert Join(parts, sep) == front + [sep] + parts[n - 1];
    }
  }

  /** Splitting loses nothing: joining the pieces gives the line back. */
  lemma {:induction false} SplitJoin(s: string, sep: char)
    ensures Join(Split(s, sep), sep) == s
  {
    if s != [] {
      var front := s[..|s| - 1];
      var last := s[|s| - 1];
      SplitJoin(front, sep);
      var parts := Split(front, sep);
      if last == sep {
        JoinSnoc(parts, "", sep);
      } else {
        JoinExtendLast(parts, last, sep);
      }
      assert s == front + [last];
    }
  }
}
