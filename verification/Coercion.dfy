/** Values of a changeset, what they become as arguments, and how the preview shows them
    (internal/dataedit/coerce.go and displayLiteral of internal/dataedit/builder.go). */
module Coercion {
  import opened Sequences
  import opened Options
  import opened Quoting
  import opened CqlLexer
  import opened Texts
  import opened JsonNumbers

  /** A JSON value: null, a boolean, a number, a string, or an array or object with its %v text. */
  datatype Value = Null | Bool(b: bool) | Num(n: Float) | Text(s: string) | Compound(shown: string)

  /** An argument bound to a placeholder.  `code` stands for the value a library makes of a text. */
  datatype Datum = NoValue | TextDatum(s: string) | Truth(b: bool) | Whole(n: int) | Parsed(base: BaseType, code: int)

  datatype BaseType = TextType | UuidType | BooleanType | IntType | SmallintType | TinyintType | BigintType | CounterType
    | VarintType | DecimalType | FloatType | DoubleType | TimestampType | DateType | BlobType | InetType | OtherType

  const MIN64 := -0x8000_0000_0000_0000
  const MAX64 := 0x7FFF_FFFF_FFFF_FFFF

  type Long = n: int | MIN64 <= n <= MAX64

  /** The parsers of other packages are partial functions of the text; a JSON number always converts to a float.
      What the conversion of one to an integer makes of those out of range depends on the machine. */
  datatype Library = Library(
    parse: (BaseType, string) -> Option<int>, float: (BaseType, Number) -> int, outOfRange: Number -> Long)

  datatype Problem = Unsupported | Invalid

  datatype Result<+T, +E> = Ok(value: T) | Err(error: E)

  // ----- texts -----

  function TrimLeft(s: string): string {
    if s != "" && Space(s[0]) then TrimLeft(s[1..]) else s
  }

  function TrimRight(s: string): string {
    if s != "" && Space(s[|s| - 1]) then TrimRight(s[..|s| - 1]) else s
  }

  function Trim(s: string): string {
    TrimRight(TrimLeft(s))
  }

  function BaseName(t: string): string {
    Lower(Trim(t))
  }

  function BaseOf(t: string): BaseType {
    var low := BaseName(t);
    if low == "text" || low == "varchar" || low == "ascii" then TextType
    else if low == "uuid" || low == "timeuuid" then UuidType
    else if low == "boolean" then BooleanType
    else if low == "int" then IntType
    else if low == "smallint" then SmallintType
    else if low == "tinyint" then TinyintType
    else if low == "bigint" then BigintType
    else if low == "counter" then CounterType
    else if low == "varint" then VarintType
    else if low == "decimal" then DecimalType
    else if low == "float" then FloatType
    else if low == "double" then DoubleType
    else if low == "timestamp" then TimestampType
    else if low == "date" then DateType
    else if low == "blob" then BlobType
    else if low == "inet" then InetType
    else OtherType
  }

  function ParseBool(s: string): Option<bool> {
    if s == "1" || s == "t" || s == "T" || s == "TRUE" || s == "true" || s == "True" then Some(true)
    else if s == "0" || s == "f" || s == "F" || s == "FALSE" || s == "false" || s == "False" then Some(false)
    else None
  }

  /** The names of the special floats, in any case. */
  predicate SpecialFloat(s: string) {
    IsWord(s) && Lower(s) in {"inf", "infinity", "nan"}
  }

  // ----- coercion -----

  function AsString(v: Value): Option<string> {
    match v
    case Text(s) => Some(s)
    case Num(n) => Some(Plain(n))
    case Bool(b) => Some(if b then "true" else "false")
    case _ => None
  }

  function ToInt64(lib: Library, v: Value): Option<int> {
    match v
    case Num(n) => Some(if MIN64 <= Truncated(n) <= MAX64 then Truncated(n) else lib.outOfRange(n))
    case Text(s) =>
      (match Integer(Trim(s))
       case None => None
       case Some(n) => if MIN64 <= n <= MAX64 then Some(n) else None)
    case _ => None
  }

  function Bounded(lib: Library, v: Value, limit: int): Result<Datum, Problem> {
    match ToInt64(lib, v)
    case None => Err(Invalid)
    case Some(n) => if n < -limit || n > limit - 1 then Err(Invalid) else Ok(Whole(n))
  }

  function CallLibrary(lib: Library, base: BaseType, s: string): Result<Datum, Problem> {
    match lib.parse(base, s)
    case None => Err(Invalid)
    case Some(code) => Ok(Parsed(base, code))
  }

  /** The decimal and float parsers accept nothing but numbers, in which two dashes never stand together, and the
      latter the special floats. */
  function ParseReal(lib: Library, base: BaseType, s: string): Result<Datum, Problem> {
    if IsNumber(s) || (base != DecimalType && SpecialFloat(s)) then CallLibrary(lib, base, s) else Err(Invalid)
  }

  /** coerceValue. */
  function Coerce(lib: Library, cqlType: string, v: Value): Result<Datum, Problem> {
    if v == Null then Ok(NoValue) else CoerceBase(lib, BaseOf(cqlType), v)
  }

  function CoerceBase(lib: Library, base: BaseType, v: Value): Result<Datum, Problem> {
    match base
    case BooleanType =>
      (match v
       case Bool(b) => Ok(Truth(b))
       case Text(s) => (match ParseBool(s) case None => Err(Invalid) case Some(b) => Ok(Truth(b)))
       case _ => Err(Invalid))
    case IntType => Bounded(lib, v, 0x8000_0000)
    case SmallintType => Bounded(lib, v, 0x8000)
    case TinyintType => Bounded(lib, v, 0x80)
    case BigintType => CoerceLong(lib, v)
    case CounterType => CoerceLong(lib, v)
    case FloatType => CoerceFloat(lib, base, v)
    case DoubleType => CoerceFloat(lib, base, v)
    case OtherType => Err(Unsupported)
    case _ => (match AsString(v) case None => Err(Invalid) case Some(s) => CoerceText(lib, base, s))
  }

  function CoerceLong(lib: Library, v: Value): Result<Datum, Problem> {
    match ToInt64(lib, v)
    case None => Err(Invalid)
    case Some(n) => Ok(Whole(n))
  }

  function CoerceFloat(lib: Library, base: BaseType, v: Value): Result<Datum, Problem> {
    match v
    case Num(n) => Ok(Parsed(base, lib.float(base, n)))
    case Text(s) => ParseReal(lib, base, Trim(s))
    case _ => Err(Invalid)
  }

  function CoerceText(lib: Library, base: BaseType, s: string): Result<Datum, Problem> {
    match base
    case TextType => Ok(TextDatum(s))
    case UuidType => CallLibrary(lib, base, s)
    case VarintType => (match Integer(Trim(s)) case None => Err(Invalid) case Some(n) => Ok(Whole(n)))
    case DecimalType => ParseReal(lib, base, Trim(s))
    case _ => CallLibrary(lib, base, Trim(s))
  }

  // ----- the literal shown -----

  /** fmt's %v. */
  function Shown(v: Value): string {
    match v
    case Null => "<nil>"
    case Bool(b) => if b then "true" else "false"
    case Num(n) => JsonNumbers.Shown(n)
    case Text(s) => s
    case Compound(shown) => shown
  }

  predicate ShownBare(base: BaseType) {
    base in {IntType, SmallintType, TinyintType, BigintType, VarintType, DecimalType, FloatType, DoubleType, CounterType, BooleanType}
  }

  function DisplayLiteral(cqlType: string, v: Value): string {
    if v == Null then "null"
    else if ShownBare(BaseOf(cqlType)) then Shown(v)
    else QuotedString(Shown(v))
  }

  /** The one token a shown literal is. */
  function LiteralToken(cqlType: string, v: Value): Token {
    if v == Null then Word("null")
    else if ShownBare(BaseOf(cqlType)) then Word(Trim(Shown(v)))
    else Str(Shown(v))
  }

  // ----- an accepted value is shown as a single token -----

  lemma {:induction false} AllSpaceCons(c: char, s: string)
    requires Space(c) && AllSpace(s)
    ensures AllSpace([c] + s)
    decreases |s|
  {
    if s == "" {
      assert [c] + s == [c] && [c][..0] == "";
    } else {
      AllSpaceCons(c, s[..|s| - 1]);
      assert ([c] + s)[..|s|] == [c] + s[..|s| - 1];
    }
  }

  lemma {:induction false} TrimLeftSplits(s: string) returns (before: string)
    ensures s == before + TrimLeft(s) && AllSpace(before)
  {
    if s != "" && Space(s[0]) {
      var rest := TrimLeftSplits(s[1..]);
      AllSpaceCons(s[0], rest);
      before := [s[0]] + rest;
      HeadTail(s);
    } else {
      before := "";
    }
  }

  lemma {:induction false} TrimRightSplits(s: string) returns (after: string)
    ensures s == TrimRight(s) + after && AllSpace(after)
  {
    if s != "" && Space(s[|s| - 1]) {
      var rest := TrimRightSplits(s[..|s| - 1]);
      after := rest + [s[|s| - 1]];
      assert after[..|after| - 1] == rest;
      assert s == s[..|s| - 1] + [s[|s| - 1]];
    } else {
      after := "";
    }
  }

  lemma {:induction false} CoreLexes(core: string)
    requires IsNumber(core) || IsWord(core)
    ensures LexesOpen(core, [Word(core)])
  {
    if IsNumber(core) {
      NumberLexes(core);
    } else {
      WordLexes(core);
    }
  }

  lemma {:induction false} TrimSplits(s: string) returns (before: string, after: string)
    ensures s == before + Trim(s) + after && AllSpace(before) && AllSpace(after)
  {
    before := TrimLeftSplits(s);
    after := TrimRightSplits(TrimLeft(s));
    assert before + (Trim(s) + after) == before + Trim(s) + after;
  }

  lemma {:induction false} TrimmedLexes(s: string)
    requires IsNumber(Trim(s)) || IsWord(Trim(s))
    ensures LexesOpen(s, [Word(Trim(s))])
  {
    var before, after := TrimSplits(s);
    CoreLexes(Trim(s));
    PaddedLexes(before, Trim(s), [Word(Trim(s))], after);
  }

  lemma {:induction false} IntegerIsNumber(s: string)
    requires Integer(s).Some?
    ensures IsNumber(s)
  {
    var signed := s[0] == '+' || s[0] == '-';
    var digits := if signed then s[1..] else s;
    assert Digits(digits).Some?;
    forall i | 0 <= i < |s| ensures NumberChar(s[i]) && (i > 0 ==> s[i] != '-') {
      assert i > 0 || !signed ==> Digit(if signed then digits[i - 1] else digits[i]);
    }
    NumberCharsAll(s);
  }

  lemma {:induction false} TrimUnspaced(s: string)
    requires s != "" && !Space(s[0]) && !Space(s[|s| - 1])
    ensures Trim(s) == s
  {
  }

  lemma {:induction false} AllWordCharsIn(s: string, i: nat)
    requires i < |s| && AllNumberChars(s)
    ensures NumberChar(s[i])
    decreases |s|
  {
    if i < |s| - 1 {
      AllWordCharsIn(s[..|s| - 1], i);
    }
  }

  lemma {:induction false} NumberUntrimmed(s: string)
    requires IsNumber(s)
    ensures Trim(s) == s
  {
    AllWordCharsIn(s, 0);
    AllWordCharsIn(s, |s| - 1);
    TrimUnspaced(s);
  }

  lemma {:induction false} WordCharsAll(s: string)
    requires forall i :: 0 <= i < |s| ==> WordChar(s[i])
    ensures AllWordChars(s) && AllNumberChars(s)
    decreases |s|
  {
    if s != "" {
      WordCharsAll(s[..|s| - 1]);
    }
  }

  // The spellings of a boolean are single tokens, without spaces.
  lemma {:induction false} BoolSpelling(s: string)
    requires ParseBool(s).Some?
    ensures (IsNumber(s) || IsWord(s)) && Trim(s) == s
  {
    WordCharsAll(s);
    TrimUnspaced(s);
  }

  /** An accepted value is shown as a single token, which is the literal without spaces or quotes: nothing in it
      can end the literal early. */
  lemma {:induction false} LiteralLexes(lib: Library, cqlType: string, v: Value)
    requires Coerce(lib, cqlType, v).Ok?
    ensures LexesOpen(DisplayLiteral(cqlType, v), [LiteralToken(cqlType, v)])
  {
    if v == Null {
      WordCharsAll("null");
      WordLexes("null");
    } else if ShownBare(BaseOf(cqlType)) {
      BareLexes(lib, BaseOf(cqlType), v);
    } else {
      StringLexes(Shown(v));
    }
  }

  lemma {:induction false} BareLexes(lib: Library, base: BaseType, v: Value)
    requires v != Null && ShownBare(base) && CoerceBase(lib, base, v).Ok?
    ensures LexesOpen(Shown(v), [Word(Trim(Shown(v)))])
  {
    match v {
      case Num(n) =>
        ShownNumber(n);
        NumberUntrimmed(JsonNumbers.Shown(n));
      case Bool(b) =>
        TruthIsNoNumber(b);
        BoolSpelling(Shown(v));
      case Text(s) =>
        if base == BooleanType {
          BoolSpelling(s);
        } else if Integer(Trim(s)).Some? {
          IntegerIsNumber(Trim(s));
        }
    }
    TrimmedLexes(Shown(v));
  }

  lemma TruthIsNoNumber(b: bool)
    ensures var s := if b then "true" else "false"; Trim(s) == s && !IsNumber(s) && Integer(s) == None
  {
    TrimUnspaced("true");
    TrimUnspaced("false");
    assert Digits("true") == None && Digits("false") == None;
  }

  // ----- what is shown and what is bound -----

  /** What the preview shows of a text is the text that will be bound, unless it is a JSON number whose exponent is
      below -4 or above 5: that is bound without an exponent but shown with one. */
  lemma {:induction false} TextShownAsBound(lib: Library, cqlType: string, v: Value)
    requires BaseOf(cqlType) == TextType && v != Null && Coerce(lib, cqlType, v).Ok?
    ensures Coerce(lib, cqlType, v) == Ok(TextDatum(Shown(v))) <==> (v.Num? ==> -4 <= v.n.point - 1 <= 5)
  {
    if v.Num? {
      SameText(v.n);
    }
  }

  predicate IntegerType(base: BaseType) {
    base in {IntType, SmallintType, TinyintType, BigintType, CounterType, VarintType}
  }

  lemma {:induction false} VarintText(lib: Library, text: string)
    requires IsNumber(text)
    ensures CoerceText(lib, VarintType, text)
      == match Integer(text) case None => Err(Invalid) case Some(n) => Ok(Whole(n))
  {
    NumberUntrimmed(text);
  }

  lemma ByText(lib: Library, v: Value, s: string)
    requires AsString(v) == Some(s)
    ensures CoerceBase(lib, VarintType, v) == CoerceText(lib, VarintType, s)
  {
  }

  lemma {:induction false} VarintBound(lib: Library, n: Float, k: int)
    requires CoerceBase(lib, VarintType, Num(n)) == Ok(Whole(k))
    ensures |n.digits| <= n.point && k == Truncated(n)
  {
    ByText(lib, Num(n), Plain(n));
    PlainNumber(n);
    VarintText(lib, Plain(n));
    PlainAsInteger(n);
  }

  lemma {:induction false} LongBound(lib: Library, base: BaseType, n: Float, k: int)
    requires IntegerType(base) && base != VarintType && CoerceBase(lib, base, Num(n)) == Ok(Whole(k))
    ensures ToInt64(lib, Num(n)) == Some(k)
  {
  }

  lemma {:induction false} BelowMillion(n: Float)
    requires |n.digits| <= n.point <= 6
    ensures MIN64 <= Truncated(n) <= MAX64
  {
    NumberFits(WholePart(n), 6);
    assert Power(6) == 1000000;
  }

  function Power(n: nat): (p: nat)
    ensures p > 0
  {
    if n == 0 then 1 else 10 * Power(n - 1)
  }

  lemma {:induction false} NumberFits(s: string, n: nat)
    requires AllDigits(s) && |s| <= n
    ensures Texts.Number(s) < Power(n)
    decreases n
  {
    if s != "" {
      NumberFits(s[..|s| - 1], n - 1);
    }
  }

  /** The integer shown is the integer bound, unless the value is a JSON number with a fraction, which is shown but cut
      off when bound, or one of a million or more, which is shown with an exponent. */
  lemma {:induction false} IntegerShownAsBound(lib: Library, base: BaseType, v: Value, k: int)
    requires IntegerType(base) && CoerceBase(lib, base, v) == Ok(Whole(k))
    ensures Integer(Trim(Shown(v))) == Some(k) <==> (v.Num? ==> |v.n.digits| <= v.n.point <= 6)
  {
    if v.Num? {
      ShownNumber(v.n);
      NumberUntrimmed(Shown(v));
      ShownAsInteger(v.n);
      if base == VarintType {
        VarintBound(lib, v.n, k);
      } else {
        LongBound(lib, base, v.n, k);
      }
      if |v.n.digits| <= v.n.point <= 6 {
        BelowMillion(v.n);
      }
    }
  }

  const MILLION: Float := Number(false, "1", 7)
  const ALMOST_TWO: Float := Number(false, "19", 1)

  /** A million in a text column is shown as `1e+06` and bound as `1000000`. */
  lemma MillionInText(lib: Library, cqlType: string)
    requires BaseOf(cqlType) == TextType
    ensures Shown(Num(MILLION)) == "1e+06" && Coerce(lib, cqlType, Num(MILLION)) == Ok(TextDatum("1000000"))
  {
    assert Decimal(6) == "6" && Zeros(6) == "000000";
    assert Plain(MILLION) == "1000000";
  }

  /** 1.9 in an integer column is shown as it is and bound as 1. */
  lemma FractionInInteger(lib: Library)
    ensures Shown(Num(ALMOST_TWO)) == "1.9" && CoerceBase(lib, IntType, Num(ALMOST_TWO)) == Ok(Whole(1))
  {
    assert "19"[..1] == "1" && "19"[1..] == "9" && "1"[..0] == "";
    assert Texts.Number("1") == 1;
  }
}
