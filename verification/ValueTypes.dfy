/** Type by type, by the names of the types: which values are accepted, what they are bound as and how they are shown
    (internal/dataedit/coerce.go and displayLiteral of internal/dataedit/builder.go). */
module ValueTypes {
  import opened Options
  import opened Sequences
  import opened Quoting
  import opened Texts
  import opened CqlLexer
  import JsonNumbers
  import opened Coercion
  import opened TableSchema
  import opened Dml
  import opened DmlAcceptance
  import NameOrder

  /** The name of a type as it is compared: lower-cased, without spaces around it. */
  function TypeName(cqlType: string): string {
    Lower(Trim(cqlType))
  }

  /** What is cut off is spaces, all of those at the ends and nothing else. */
  lemma {:induction false} TrimExactly(s: string) returns (before: string, after: string)
    ensures s == before + Trim(s) + after && AllSpace(before) && AllSpace(after)
    ensures Trim(s) != "" ==> !Space(Trim(s)[0]) && !Space(Trim(s)[|Trim(s)| - 1])
  {
    before, after := TrimSplits(s);
    LeftTrimmed(s);
    RightTrimmed(TrimLeft(s));
  }

  lemma {:induction false} LeftTrimmed(s: string)
    ensures TrimLeft(s) != "" ==> !Space(TrimLeft(s)[0])
  {
    if s != "" && Space(s[0]) {
      LeftTrimmed(s[1..]);
    }
  }

  lemma {:induction false} RightTrimmed(s: string)
    ensures TrimRight(s) != "" ==> !Space(TrimRight(s)[|TrimRight(s)| - 1]) && TrimRight(s)[0] == s[0]
  {
    if s != "" && Space(s[|s| - 1]) {
      RightTrimmed(s[..|s| - 1]);
    }
  }

  // ----- the names of the types -----

  /** The names of each type that is known. */
  function NamesOf(base: BaseType): set<string> {
    match base
    case TextType => {"text", "varchar", "ascii"}
    case UuidType => {"uuid", "timeuuid"}
    case BooleanType => {"boolean"}
    case IntType => {"int"}
    case SmallintType => {"smallint"}
    case TinyintType => {"tinyint"}
    case BigintType => {"bigint"}
    case CounterType => {"counter"}
    case VarintType => {"varint"}
    case DecimalType => {"decimal"}
    case FloatType => {"float"}
    case DoubleType => {"double"}
    case TimestampType => {"timestamp"}
    case DateType => {"date"}
    case BlobType => {"blob"}
    case InetType => {"inet"}
    case OtherType => {}
  }

  lemma FirstNames(base: BaseType, cqlType: string)
    requires base.TextType? || base.UuidType? || base.BooleanType? || base.IntType? || base.SmallintType? || base.TinyintType?
    ensures TypeName(cqlType) in NamesOf(base) <==> BaseOf(cqlType) == base
  {
  }

  lemma MiddleNames(base: BaseType, cqlType: string)
    requires base.BigintType? || base.CounterType? || base.VarintType? || base.DecimalType? || base.FloatType?
    ensures TypeName(cqlType) in NamesOf(base) <==> BaseOf(cqlType) == base
  {
  }

  lemma LastNames(base: BaseType, cqlType: string)
    requires base.DoubleType? || base.TimestampType? || base.DateType? || base.BlobType? || base.InetType?
    ensures TypeName(cqlType) in NamesOf(base) <==> BaseOf(cqlType) == base
  {
  }

  /** A type is treated as the one of its name, whatever the case and the spaces around it, and as none if it has none
      of the names. */
  lemma TypesByName(base: BaseType, cqlType: string)
    requires base != OtherType
    ensures BaseOf(cqlType) == base <==> TypeName(cqlType) in NamesOf(base)
  {
    match base {
      case TextType | UuidType | BooleanType | IntType | SmallintType | TinyintType => FirstNames(base, cqlType);
      case BigintType | CounterType | VarintType | DecimalType | FloatType => MiddleNames(base, cqlType);
      case _ => LastNames(base, cqlType);
    }
  }

  // ----- booleans -----

  const TRUE_TEXTS: set<string> := {"1", "t", "T", "true", "TRUE", "True"}
  const FALSE_TEXTS: set<string> := {"0", "f", "F", "false", "FALSE", "False"}

  lemma LowerOne(c: char)
    ensures Lower([c]) == [LowerChar(c)]
  {
  }

  lemma TrueLowered(s: string)
    requires s in TRUE_TEXTS
    ensures Lower(s) in {"1", "t", "true"}
  {
    if |s| == 1 {
      LowerOne(s[0]);
    } else {
      assert Lower(s) == "true";
    }
  }

  lemma FalseLowered(s: string)
    requires s in FALSE_TEXTS
    ensures Lower(s) in {"0", "f", "false"}
  {
    if |s| == 1 {
      LowerOne(s[0]);
    } else {
      assert Lower(s) == "false";
    }
  }

  lemma TruthTextsDiffer(s: string)
    ensures !(s in {"1", "t", "true"} && s in {"0", "f", "false"})
  {
  }

  /** Into a boolean column go booleans and twelve texts; what is bound is true exactly if what is shown is, in any case,
      `1`, `t` or `true`, and false exactly if it is `0`, `f` or `false`. */
  lemma BooleanShownAsBound(lib: Library, cqlType: string, v: Value)
    requires TypeName(cqlType) == "boolean" && v != Null
    ensures Coerce(lib, cqlType, v).Ok? <==> v.Bool? || (v.Text? && (v.s in TRUE_TEXTS || v.s in FALSE_TEXTS))
    ensures Coerce(lib, cqlType, v).Ok? ==>
      var d := Coerce(lib, cqlType, v).value;
      && d.Truth?
      && (d.b <==> Lower(Shown(v)) in {"1", "t", "true"})
      && (!d.b <==> Lower(Shown(v)) in {"0", "f", "false"})
  {
    TypesByName(BooleanType, cqlType);
    BooleanBase(lib, v);
  }

  lemma BooleanBase(lib: Library, v: Value)
    requires v != Null
    ensures CoerceBase(lib, BooleanType, v).Ok? <==> v.Bool? || (v.Text? && (v.s in TRUE_TEXTS || v.s in FALSE_TEXTS))
    ensures CoerceBase(lib, BooleanType, v).Ok? ==>
      var d := CoerceBase(lib, BooleanType, v).value;
      && d.Truth?
      && (d.b <==> Lower(Shown(v)) in {"1", "t", "true"})
      && (!d.b <==> Lower(Shown(v)) in {"0", "f", "false"})
  {
    var s := Shown(v);
    TruthTextsDiffer(Lower(s));
    if v.Bool? || v.Text? {
      if s in TRUE_TEXTS {
        TrueLowered(s);
      }
      if s in FALSE_TEXTS {
        FalseLowered(s);
      }
    }
  }

  // ----- integers -----

  /** The range of the integer types, by name. */
  function LowestOf(name: string): int {
    if name == "tinyint" then -128
    else if name == "smallint" then -32768
    else if name == "int" then -2147483648
    else -9223372036854775808
  }

  function HighestOf(name: string): int {
    if name == "tinyint" then 127
    else if name == "smallint" then 32767
    else if name == "int" then 2147483647
    else 9223372036854775807
  }

  const BOUNDED: set<string> := {"tinyint", "smallint", "int", "bigint", "counter"}

  /** The integer a value stands for: the number of a text, or a JSON number cut off at its point, where 64 bits hold it. */
  function IntegerOf(lib: Library, v: Value): Option<int> {
    match v
    case Text(s) => JsonNumbers.Integer(Trim(s))
    case Num(n) =>
      if -9223372036854775808 <= JsonNumbers.Truncated(n) <= 9223372036854775807 then Some(JsonNumbers.Truncated(n)) else Some(lib.outOfRange(n))
    case _ => None
  }

  function BoundedBase(name: string): BaseType {
    if name == "tinyint" then TinyintType
    else if name == "smallint" then SmallintType
    else if name == "int" then IntType
    else if name == "bigint" then BigintType
    else CounterType
  }

  lemma BoundedNamed(name: string)
    requires name in BOUNDED
    ensures name in NamesOf(BoundedBase(name))
  {
  }

  /** An integer column accepts exactly the integers in its range, and binds the integer. */
  lemma IntegersExactly(lib: Library, cqlType: string, v: Value)
    requires TypeName(cqlType) in BOUNDED && v != Null
    ensures var name, k := TypeName(cqlType), IntegerOf(lib, v);
      Coerce(lib, cqlType, v)
        == if k.Some? && LowestOf(name) <= k.value <= HighestOf(name) then Ok(Whole(k.value)) else Err(Invalid)
  {
    var name := TypeName(cqlType);
    BoundedNamed(name);
    TypesByName(BoundedBase(name), cqlType);
    IntegersOf(lib, name, v);
  }

  /** The widths by type. */
  function Limit(base: BaseType): int {
    match base
    case TinyintType => 0x80
    case SmallintType => 0x8000
    case IntType => 0x8000_0000
    case _ => 0x8000_0000_0000_0000
  }

  lemma LimitsByName(name: string)
    requires name in BOUNDED
    ensures LowestOf(name) == -Limit(BoundedBase(name)) && HighestOf(name) == Limit(BoundedBase(name)) - 1
    ensures IsBounded(BoundedBase(name))
  {
  }

  predicate IsBounded(base: BaseType) {
    base.TinyintType? || base.SmallintType? || base.IntType? || base.BigintType? || base.CounterType?
  }

  lemma IntegersOfBase(lib: Library, base: BaseType, v: Value)
    requires IsBounded(base)
    ensures var k := IntegerOf(lib, v);
      CoerceBase(lib, base, v)
        == if k.Some? && -Limit(base) <= k.value <= Limit(base) - 1 then Ok(Whole(k.value)) else Err(Invalid)
  {
  }

  lemma IntegersOf(lib: Library, name: string, v: Value)
    requires name in BOUNDED
    ensures var k := IntegerOf(lib, v);
      CoerceBase(lib, BoundedBase(name), v)
        == if k.Some? && LowestOf(name) <= k.value <= HighestOf(name) then Ok(Whole(k.value)) else Err(Invalid)
  {
    LimitsByName(name);
    IntegersOfBase(lib, BoundedBase(name), v);
  }

  // ----- texts and unbounded integers -----

  /** A text column accepts texts, numbers and booleans, and binds a text as it is. */
  lemma TextsExactly(lib: Library, cqlType: string, v: Value)
    requires TypeName(cqlType) in NamesOf(TextType) && v != Null
    ensures Coerce(lib, cqlType, v) ==
      match v
      case Text(s) => Ok(TextDatum(s))
      case Bool(b) => Ok(TextDatum(if b then "true" else "false"))
      case Num(n) => Ok(TextDatum(JsonNumbers.Plain(n)))
      case _ => Err(Invalid)
  {
    TypesByName(TextType, cqlType);
  }

  /** A varint column accepts a text exactly if, without the spaces around it, it is an integer of whatever size, and
      binds that. */
  lemma VarintsExactly(lib: Library, cqlType: string, s: string)
    requires TypeName(cqlType) == "varint"
    ensures var n := JsonNumbers.Integer(Trim(s)); Coerce(lib, cqlType, Text(s)) == if n.Some? then Ok(Whole(n.value)) else Err(Invalid)
  {
    TypesByName(VarintType, cqlType);
  }

  /** Types whose values are read by a library: all but identifiers without the spaces around the text. */
  const READ_BY_LIBRARY: set<string> := {"uuid", "timeuuid", "timestamp", "date", "blob", "inet"}

  /** A value of such a type is accepted exactly if the library takes the text it is shown as, and is bound as what the
      library makes of it. */
  lemma LibraryExactly(lib: Library, cqlType: string, s: string, code: int)
    requires TypeName(cqlType) in READ_BY_LIBRARY
    ensures Coerce(lib, cqlType, Text(s)) == Ok(Parsed(BaseOf(cqlType), code))
      <==> lib.parse(BaseOf(cqlType), if TypeName(cqlType) in {"uuid", "timeuuid"} then s else Trim(s)) == Some(code)
    ensures Coerce(lib, cqlType, Text(s)).Ok? ==> Coerce(lib, cqlType, Text(s)).value.Parsed?
  {
    LibraryTypes(cqlType);
    LibraryOf(lib, BaseOf(cqlType), s, code);
  }

  lemma LibraryOf(lib: Library, base: BaseType, s: string, code: int)
    requires base.UuidType? || base.TimestampType? || base.DateType? || base.BlobType? || base.InetType?
    ensures CoerceBase(lib, base, Text(s)) == Ok(Parsed(base, code))
      <==> lib.parse(base, if base.UuidType? then s else Trim(s)) == Some(code)
    ensures CoerceBase(lib, base, Text(s)).Ok? ==> CoerceBase(lib, base, Text(s)).value.Parsed?
  {
  }

  lemma LibraryTypes(cqlType: string)
    requires TypeName(cqlType) in READ_BY_LIBRARY
    ensures var base := BaseOf(cqlType);
      && (base.UuidType? || base.TimestampType? || base.DateType? || base.BlobType? || base.InetType?)
      && (base.UuidType? <==> TypeName(cqlType) in {"uuid", "timeuuid"})
  {
    TypesByName(UuidType, cqlType);
    TypesByName(TimestampType, cqlType);
    TypesByName(DateType, cqlType);
    TypesByName(BlobType, cqlType);
    TypesByName(InetType, cqlType);
  }

  /** A text goes into a decimal, float or double column exactly if, without the spaces around it, it is a number, or for
      the latter two one of the special floats, and the library takes it. */
  lemma RealsExactly(lib: Library, cqlType: string, s: string, code: int)
    requires TypeName(cqlType) in {"decimal", "float", "double"}
    ensures Coerce(lib, cqlType, Text(s)) == Ok(Parsed(BaseOf(cqlType), code)) <==>
      && (IsNumber(Trim(s))
          || (TypeName(cqlType) != "decimal" && IsWord(Trim(s)) && Lower(Trim(s)) in {"inf", "infinity", "nan"}))
      && lib.parse(BaseOf(cqlType), Trim(s)) == Some(code)
  {
    RealTypes(cqlType);
    RealsOf(lib, BaseOf(cqlType), s, code);
  }

  lemma RealsOf(lib: Library, base: BaseType, s: string, code: int)
    requires base.DecimalType? || base.FloatType? || base.DoubleType?
    ensures CoerceBase(lib, base, Text(s)) == Ok(Parsed(base, code)) <==>
      && (IsNumber(Trim(s)) || (!base.DecimalType? && IsWord(Trim(s)) && Lower(Trim(s)) in {"inf", "infinity", "nan"}))
      && lib.parse(base, Trim(s)) == Some(code)
  {
  }

  lemma RealTypes(cqlType: string)
    requires TypeName(cqlType) in {"decimal", "float", "double"}
    ensures BaseOf(cqlType).DecimalType? || BaseOf(cqlType).FloatType? || BaseOf(cqlType).DoubleType?
    ensures BaseOf(cqlType).DecimalType? <==> TypeName(cqlType) == "decimal"
  {
    TypesByName(DecimalType, cqlType);
    TypesByName(FloatType, cqlType);
    TypesByName(DoubleType, cqlType);
  }

  // ----- how values are shown -----

  const BARE_TYPES: set<string> :=
    {"int", "smallint", "tinyint", "bigint", "varint", "decimal", "float", "double", "counter", "boolean"}

  lemma BareByName(cqlType: string)
    ensures ShownBare(BaseOf(cqlType)) <==> TypeName(cqlType) in BARE_TYPES
  {
    var base := BaseOf(cqlType);
    if base != OtherType {
      TypesByName(BaseOf(cqlType), cqlType);
    }
    if TypeName(cqlType) in BARE_TYPES {
      BareNames(TypeName(cqlType), cqlType);
    }
  }

  lemma BareNames(name: string, cqlType: string)
    requires name == TypeName(cqlType) && name in BARE_TYPES
    ensures ShownBare(BaseOf(cqlType))
  {
    var base :| base in {IntType, SmallintType, TinyintType, BigintType, VarintType, DecimalType, FloatType, DoubleType,
      CounterType, BooleanType} && name in NamesOf(base);
    TypesByName(base, cqlType);
  }

  /** Values of numeric types, counters and booleans are shown as they are, null as `null`, all others in quotes. */
  lemma ShownByName(cqlType: string, v: Value)
    ensures DisplayLiteral(cqlType, v) ==
      if v == Null then "null" else if TypeName(cqlType) in BARE_TYPES then Shown(v) else QuotedString(Shown(v))
  {
    BareByName(cqlType);
  }

  // ----- what is never written -----

  /** Collections, tuples and frozen types. */
  predicate IsCollection(name: string) {
    "set<" <= name || "list<" <= name || "map<" <= name || "tuple<" <= name || "frozen<" <= name
  }

  lemma Angled(prefix: string, name: string)
    requires prefix != "" && prefix[|prefix| - 1] == '<' && prefix <= name
    ensures '<' in name
  {
    assert name[|prefix| - 1] == '<';
  }

  lemma NamesHaveNoAngle(base: BaseType, name: string)
    requires name in NamesOf(base)
    ensures '<' !in name
  {
  }

  lemma CollectionAngled(name: string)
    requires IsCollection(name)
    ensures '<' in name
  {
    if "set<" <= name {
      Angled("set<", name);
    } else if "list<" <= name {
      Angled("list<", name);
    } else if "map<" <= name {
      Angled("map<", name);
    } else if "tuple<" <= name {
      Angled("tuple<", name);
    } else {
      Angled("frozen<", name);
    }
  }

  lemma NoNameIsCollection(base: BaseType, name: string)
    requires name in NamesOf(base)
    ensures !IsCollection(name)
  {
    NamesHaveNoAngle(base, name);
    if IsCollection(name) {
      CollectionAngled(name);
    }
  }

  /** Of the known types all but the counter can be written; of the others none that is a collection can, and a value
      other than null of none at all. */
  lemma WritableTypes(lib: Library, cqlType: string, v: Value)
    ensures UnsupportedType(cqlType) <==> TypeName(cqlType) == "counter" || IsCollection(TypeName(cqlType))
    ensures BaseOf(cqlType) != OtherType && TypeName(cqlType) != "counter" ==> !UnsupportedType(cqlType)
    ensures BaseOf(cqlType) == OtherType && v != Null ==> Coerce(lib, cqlType, v) == Err(Unsupported)
  {
    if BaseOf(cqlType) != OtherType {
      TypesByName(BaseOf(cqlType), cqlType);
      NoNameIsCollection(BaseOf(cqlType), TypeName(cqlType));
    }
  }

  /** The column is neither of a counter nor of a collection. */
  predicate Plain(c: Column) {
    TypeName(c.cqlType) != "counter" && !IsCollection(TypeName(c.cqlType))
  }

  /** A cell can be edited exactly if its column is no key column and of neither kind. */
  lemma EditableExactly(c: Column)
    ensures Editable(c) <==> c.kind != PartitionKey && c.kind != Clustering && Plain(c)
  {
  }

  /** An accepted INSERT or UPDATE writes no counter and no collection, and an UPDATE no column of the key. */
  lemma {:induction false} NeverWritten(lib: Library, td: TableDetail, op: Op, name: string)
    requires name in op.changes
    ensures PlanInsert(lib, td, op).Ok? ==> name in Index(td.columns) && Plain(Index(td.columns)[name])
    ensures PlanUpdate(lib, td, op).Ok? ==>
      && name in Index(td.columns) && Plain(Index(td.columns)[name])
      && Index(td.columns)[name].kind != PartitionKey && Index(td.columns)[name].kind != Clustering
  {
    var idx, full := Index(td.columns), op.pk + op.changes;
    InsertAcceptedExactly(lib, td, op);
    UpdateAcceptedExactly(lib, td, op);
    assert name in full;
    if AllWritable(lib, idx, full, true) {
      assert Writable(lib, idx, name, full[name], true);
    }
    if AllWritable(lib, idx, op.changes, false) {
      assert Writable(lib, idx, name, op.changes[name], false);
    }
  }
}
