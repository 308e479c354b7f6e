/** Runtime values and their static types (values.rs, literals.rs, the
    basic literal files, namespaces.rs, functions/signature.rs and
    functions/content.rs): what a value is, which type it has, how two
    values compare and how a value is read as a number or a string. */
module Values {
  import opened Wrappers

  /** Rust's `i32`. */
  newtype I32 = x: int | -0x8000_0000 <= x < 0x8000_0000

  const I32Max: int := 0x7FFF_FFFF

  /** `NamespaceValueTypes`: the type tags of namespace handles. */
  datatype NamespaceValueType =
    | DatabaseJsonType | DatabaseCsvType | ModelType | ThreadPoolType

  /** `ValueTypes`: static types. Equality is structural (derived `Eq`). */
  datatype ValueType =
    | BooleanType
    | StringType
    | NumberType
    | NamespaceValType(ns: NamespaceValueType)
    | ListType(elem: ValueType)
    | FuncType(sig: FuncSignature)
    | NoneType

  /** `FuncSignature`: argument types in order and the output type. */
  datatype FuncSignature = FuncSignature(arglist: seq<ValueType>, output: ValueType)

  /** `FuncSignature::empty`: no arguments, output `NoneType`. */
  const EmptySignature: FuncSignature := FuncSignature([], NoneType)

  /** `Literal`: booleans, strings and 32-bit numbers. */
  datatype Literal =
    | Boolean(b: bool)
    | Str(s: string)
    | Number(n: I32)

  /** `NamespaceValue`: the handles a namespace function can produce. A
      thread pool keeps its thread count as a `u8`. */
  datatype NamespaceValue =
    | DatabaseJson(jsonFile: string)
    | DatabaseCsv(csvFile: string)
    | ModelVal(name: string)
    | ThreadPoolVal(threadCount: nat)

  /** The Rust functions a `BuiltInFunc` can point at: the one of
      `Func::empty`, `Database::csv` and `ThreadPool::new`. */
  datatype Builtin = ReturnEmpty | CsvOpen | ThreadPoolNew

  /** `FuncContent`: a built-in, or a user-defined body (never run). */
  datatype FuncContent = BuiltInFunc(builtin: Builtin) | UserDefined

  /** `Func`: a named function with its signature and content. */
  datatype Func = Func(name: string, sig: FuncSignature, content: FuncContent)

  /** `Func::empty`. */
  const EmptyFunc: Func := Func("", EmptySignature, BuiltInFunc(ReturnEmpty))

  /** `Value`. */
  datatype Value =
    | LiteralVal(lit: Literal)
    | NamespaceVal(nsv: NamespaceValue)
    | ListVal(data: seq<Value>, typ: ValueType)
    | Function(f: Func)
    | NoneValue

  /** The runtime exceptions the evaluator raises (Rust panics). */
  datatype Fault =
    | CannotEquate
    | CannotCastToNumber
    | CannotCastToString
    | DebugFormatNotModelled
    | Overflow
    | DivideByZero
    | NegativeExponent
    | StackFull
    | EmptyStackSlot
    | NotAStackRef
    | NotAFrameRef
    | UnknownVar(name: string)
    | RemovalIndexOutOfRange
    | NotImplemented

  /** `Literal::get_type`. */
  function LiteralType(l: Literal): (t: ValueType)
    ensures t == BooleanType <==> l.Boolean?
    ensures t == StringType <==> l.Str?
    ensures t == NumberType <==> l.Number?
  {
    match l
    case Boolean(_) => BooleanType
    case Str(_) => StringType
    case Number(_) => NumberType
  }

  /** `NamespaceValue::convert_to_type`. */
  function NamespaceType(v: NamespaceValue): NamespaceValueType {
    match v
    case DatabaseJson(_) => DatabaseJsonType
    case DatabaseCsv(_) => DatabaseCsvType
    case ModelVal(_) => ModelType
    case ThreadPoolVal(_) => ThreadPoolType
  }

  /** Each namespace handle has its own tag: two handles share a tag exactly
      when they are the same kind of handle. */
  lemma NamespaceTypeMatchesKind(a: NamespaceValue, b: NamespaceValue)
    ensures NamespaceType(a) == NamespaceType(b) <==>
      (a.DatabaseJson? && b.DatabaseJson?) || (a.DatabaseCsv? && b.DatabaseCsv?) ||
      (a.ModelVal? && b.ModelVal?) || (a.ThreadPoolVal? && b.ThreadPoolVal?)
  {
  }

  /** `ValueTypes::convert_to_type`. */
  function ConvertToType(v: Value): (t: ValueType)
    ensures v.ListVal? ==> t == ListType(v.typ)
    ensures v.Function? ==> t == FuncType(v.f.sig)
  {
    match v
    case LiteralVal(l) => LiteralType(l)
    case NamespaceVal(n) => NamespaceValType(NamespaceType(n))
    case ListVal(_, typ) => ListType(typ)
    case Function(f) => FuncType(f.sig)
    case NoneValue => NoneType
  }

  /** A value has one of the three basic types exactly when it is a
      literal, and then the type tells which kind of literal it is. */
  lemma BasicTypesAreLiterals(v: Value)
    ensures ConvertToType(v) in {BooleanType, StringType, NumberType} <==> v.LiteralVal?
    ensures ConvertToType(v) == NoneType <==> v.NoneValue?
    ensures ConvertToType(v).NamespaceValType? <==> v.NamespaceVal?
  {
  }

  /** `BasicValue::eq` for literals (`BoolVal`, `StringVal`, `NumberVal`):
      equal contents when `other` is a literal of the same kind, a fault
      otherwise. */
  function LiteralEq(l: Literal, other: Value): Result<bool, Fault> {
    match other
    case LiteralVal(o) =>
      (match (l, o)
       case (Boolean(x), Boolean(y)) => Success(x == y)
       case (Str(x), Str(y)) => Success(x == y)
       case (Number(x), Number(y)) => Success(x == y)
       case _ => Failure(CannotEquate))
    case _ => Failure(CannotEquate)
  }

  /** `Value::eq`: delegates for a literal left operand, a fault otherwise. */
  function ValueEq(a: Value, b: Value): (r: Result<bool, Fault>)
    ensures r.Success? ==> a.LiteralVal? && b.LiteralVal?
    ensures r == Success(true) ==> a == b
  {
    match a
    case LiteralVal(l) => LiteralEq(l, b)
    case _ => Failure(CannotEquate)
  }

  /** `==` at run time succeeds exactly on two literals of the same type, and
      then answers true exactly on equal values. */
  lemma ValueEqMeaning(a: Value, b: Value)
    ensures ValueEq(a, b).Success? <==>
      a.LiteralVal? && b.LiteralVal? && LiteralType(a.lit) == LiteralType(b.lit)
    ensures ValueEq(a, b) == Success(true) <==> a.LiteralVal? && a == b
    ensures ValueEq(a, b).Success? ==> ValueEq(b, a) == ValueEq(a, b)
  {
  }

  /** `NumberVal::implicit_cast_to`, used by `get_val::<NumberVal>`. */
  function ImplicitNumber(v: Value): (r: Result<I32, Fault>)
    ensures r.Success? <==> ConvertToType(v) == NumberType
    ensures r.Success? ==> v == LiteralVal(Number(r.value))
  {
    match v
    case LiteralVal(Number(n)) => Success(n)
    case _ => Failure(CannotCastToNumber)
  }

  /** `StringVal::implicit_cast_to`: only a String value passes. */
  function ImplicitString(v: Value): (r: Result<string, Fault>)
    ensures r.Success? <==> ConvertToType(v) == StringType
    ensures r.Success? ==> v == LiteralVal(Str(r.value))
  {
    match v
    case LiteralVal(Str(s)) => Success(s)
    case _ => Failure(CannotCastToString)
  }

  /** The decimal digits of a natural number, most significant first. */
  function NatDecimal(n: nat): (r: string)
    ensures |r| > 0
    decreases n
  {
    if n < 10 then [DigitChar(n)] else NatDecimal(n / 10) + [DigitChar(n % 10)]
  }

  function DigitChar(d: nat): char
    requires d < 10
  {
    (('0' as int) + d) as char
  }

  predicate IsDigit(c: char) { '0' <= c <= '9' }

  predicate AllDigits(s: string) { forall i :: 0 <= i < |s| ==> IsDigit(s[i]) }

  /** The number a string of decimal digits spells. */
  function DigitsValue(s: string): nat
    requires AllDigits(s)
  {
    if s == [] then 0
    else DigitsValue(s[..|s| - 1]) * 10 + ((s[|s| - 1] as int) - ('0' as int))
  }

  /** `i32::to_string`: decimal, with a leading `-` for negative numbers. */
  function IntDecimal(n: int): string {
    if n < 0 then "-" + NatDecimal(-n) else NatDecimal(n)
  }

  /** Reading back the decimal rendering of a natural number gives the
      number: `NatDecimal` is all digits and `DigitsValue` inverts it. */
  lemma {:induction false} DecimalRoundTrip(n: nat)
    ensures AllDigits(NatDecimal(n))
    ensures DigitsValue(NatDecimal(n)) == n
    decreases n
  {
    if n >= 10 {
      DecimalRoundTrip(n / 10);
      var s := NatDecimal(n);
      assert s[..|s| - 1] == NatDecimal(n / 10);
    }
  }

  /** Rust's `str::parse::<i32>` on a string the caller has already checked
      to be made of digits only: empty strings and values above `i32::MAX`
      are refused. */
  function ParseDigitsI32(s: string): (r: Option<I32>)
    requires AllDigits(s)
    ensures r.Some? <==> s != [] && DigitsValue(s) <= I32Max
    ensures r.Some? ==> r.value as int == DigitsValue(s)
  {
    if s != [] && DigitsValue(s) <= I32Max then Some(DigitsValue(s) as I32) else None
  }

  /** The decimal rendering of every non-negative `i32` parses back to it. */
  lemma ParseRendersBack(n: I32)
    requires n >= 0
    ensures AllDigits(NatDecimal(n as nat))
    ensures ParseDigitsI32(NatDecimal(n as nat)) == Some(n)
  {
    DecimalRoundTrip(n as nat);
  }

  /** `StringVal::explicit_cast_to`: strings unchanged, numbers in decimal,
      booleans as "true"/"false". The `Debug` rendering used for other
      values is not modelled. */
  function ExplicitString(v: Value): (r: Result<string, Fault>)
    ensures r.Success? <==> v.LiteralVal?
    ensures r.Success? && v.lit.Str? ==> r.value == v.lit.s
    ensures r.Success? && v.lit.Boolean? ==> r.value == (if v.lit.b then "true" else "false")
  {
    match v
    case LiteralVal(Str(s)) => Success(s)
    case LiteralVal(Number(n)) => Success(IntDecimal(n as int))
    case LiteralVal(Boolean(b)) => Success(if b then "true" else "false")
    case _ => Failure(DebugFormatNotModelled)
  }

  /** The explicit cast of a non-negative number reads back as that number,
      and a negative one is its magnitude with a `-` in front. */
  lemma ExplicitNumberReadsBack(n: I32)
    ensures n >= 0 ==>
              AllDigits(ExplicitString(LiteralVal(Number(n))).value) &&
              ParseDigitsI32(ExplicitString(LiteralVal(Number(n))).value) == Some(n)
    ensures n < 0 ==> ExplicitString(LiteralVal(Number(n))).value == "-" + NatDecimal(-(n as int))
  {
    if n >= 0 { ParseRendersBack(n); }
  }

  /** `ThreadPool::new(count)`: the count is cast `as u8`, keeping its low 8
      bits (two's complement), which is the Euclidean remainder by 256. */
  function ThreadPoolOf(count: I32): (v: NamespaceValue)
    ensures v.ThreadPoolVal? && v.threadCount < 256
    ensures 0 <= count < 256 ==> v.threadCount == count as nat
  {
    ThreadPoolVal(((count as int) % 256) as nat)
  }

  /** The `as u8` cast wraps: counts 256 apart give the same pool, and
      negative counts wrap around from 255. */
  lemma ThreadPoolWraps(count: I32)
    ensures count as int + 256 <= I32Max ==> ThreadPoolOf(count) == ThreadPoolOf((count as int + 256) as I32)
    ensures -256 <= count < 0 ==> ThreadPoolOf(count).threadCount == count as int + 256
  {
  }
}
