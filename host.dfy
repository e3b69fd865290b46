/** The .NET services the interpreter calls but whose code is not part of
    this model: single-precision arithmetic and comparison, conversion of an
    `int` to a `float`, the text form of a `float`, and the three parsers
    behind `int.Parse`, `float.Parse` and `bool.Parse` (also used by
    `Convert.ChangeType` and `Convert.ToBoolean`). They are given as a record
    of functions so that every result of the model holds for any such
    runtime. */
module Host {
  import opened Values

  /** The outcome of a .NET parse: a value, a `FormatException`, or an
      `OverflowException`. */
  datatype Parsed<+T> = Parsed(value: T) | BadFormat | TooLarge

  datatype Platform = Platform(
    add: (Float32, Float32) -> Float32,
    subtract: (Float32, Float32) -> Float32,
    multiply: (Float32, Float32) -> Float32,
    divide: (Float32, Float32) -> Float32,
    remainder: (Float32, Float32) -> Float32,
    less: (Float32, Float32) -> bool,
    lessOrEqual: (Float32, Float32) -> bool,
    widen: int32 -> Float32,
    format: Float32 -> string,
    parseInt: string -> Parsed<int32>,
    parseFloat: string -> Parsed<Float32>,
    parseBool: string -> Parsed<bool>)

  /** The text C# string interpolation (`$"{v}"`) produces for a boxed value:
      nothing for null, `True`/`False` for a Boolean, the natural form otherwise. */
  function DefaultText(p: Platform, v: Value): string {
    match v
    case Empty => ""
    case Int(i) => IntText(i)
    case Real(f) => p.format(f)
    case Bool(b) => if b then "True" else "False"
    case Char(c) => [c]
    case Text(s) => s
  }
}
