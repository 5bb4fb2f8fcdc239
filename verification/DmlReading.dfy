/** The statements of Dml read back: an independent lexer and parser recover what they say. */
module DmlReading {
  import opened Options
  import opened Quoting
  import opened CqlLexer
  import opened Coercion
  import opened Texts
  import JsonNumbers
  import opened TableSchema
  import opened Dml

  // ----- a parser of the statements -----

  datatype Literal = Placeholder | NullLiteral | BareLiteral(text: string) | StringLiteral(text: string)

  datatype Pair = Pair(column: string, literal: Literal)

  datatype Ast = InsertAst(keyspace: string, table: string, columns: seq<string>, values: seq<Literal>)
    | UpdateAst(keyspace: string, table: string, changes: seq<Pair>, where: seq<Pair>)
    | DeleteAst(keyspace: string, table: string, where: seq<Pair>)

  function NameOf(t: Token): Option<string> {
    match t
    case Word(w) => if Bare(w) then Some(w) else None
    case Quoted(s) => Some(s)
    case _ => None
  }

  function LiteralOf(t: Token): Option<Literal> {
    match t
    case Word(w) => Some(if w == "null" then NullLiteral else BareLiteral(w))
    case Str(s) => Some(StringLiteral(s))
    case Mark(c) => if c == '?' then Some(Placeholder) else None
    case _ => None
  }

  /** Items separated by commas, and the tokens after them. */
  function ParseItems<T>(ts: seq<Token>, item: Token -> Option<T>): (seq<T>, seq<Token>) {
    if ts == [] then ([], ts)
    else match item(ts[0])
      case None => ([], ts)
      case Some(x) =>
        if |ts| > 1 && ts[1] == Mark(',') then var r := ParseItems(ts[2..], item); ([x] + r.0, r.1)
        else ([x], ts[1..])
  }

  function ParsePair(ts: seq<Token>): Option<Pair> {
    if |ts| < 3 || ts[1] != Mark('=') then None
    else match NameOf(ts[0])
      case None => None
      case Some(name) =>
        match LiteralOf(ts[2])
        case None => None
        case Some(literal) => Some(Pair(name, literal))
  }

  /** `name = literal` pairs separated by `sep`, and the tokens after them. */
  function ParsePairs(ts: seq<Token>, sep: Token): (seq<Pair>, seq<Token>) {
    match ParsePair(ts)
    case None => ([], ts)
    case Some(p) =>
      if |ts| > 3 && ts[3] == sep then var r := ParsePairs(ts[4..], sep); ([p] + r.0, r.1)
      else ([p], ts[3..])
  }

  /** `keyspace.table`, and the tokens after it. */
  function ParseTable(ts: seq<Token>): Option<(string, string, seq<Token>)> {
    if |ts| < 3 || ts[1] != Mark('.') then None
    else match NameOf(ts[0])
      case None => None
      case Some(keyspace) =>
        match NameOf(ts[2])
        case None => None
        case Some(table) => Some((keyspace, table, ts[3..]))
  }

  function ParseInsert(ts: seq<Token>): Option<Ast> {
    match ParseTable(ts)
    case None => None
    case Some(t) =>
      if t.2 == [] || t.2[0] != Mark('(') then None
      else
        var names := ParseItems(t.2[1..], NameOf);
        if !(VALUES <= names.1) then None
        else
          var values := ParseItems(names.1[3..], LiteralOf);
          if values.1 == [Mark(')')] then Some(InsertAst(t.0, t.1, names.0, values.0)) else None
  }

  const VALUES := [Mark(')'), Word("VALUES"), Mark('(')]

  function ParseUpdate(ts: seq<Token>): Option<Ast> {
    match ParseTable(ts)
    case None => None
    case Some(t) =>
      if t.2 == [] || t.2[0] != Word("SET") then None
      else
        var changes := ParsePairs(t.2[1..], Mark(','));
        if changes.1 == [] || changes.1[0] != Word("WHERE") then None
        else
          var where := ParsePairs(changes.1[1..], Word("AND"));
          if where.1 == [] then Some(UpdateAst(t.0, t.1, changes.0, where.0)) else None
  }

  function ParseDelete(ts: seq<Token>): Option<Ast> {
    match ParseTable(ts)
    case None => None
    case Some(t) =>
      if t.2 == [] || t.2[0] != Word("WHERE") then None
      else
        var where := ParsePairs(t.2[1..], Word("AND"));
        if where.1 == [] then Some(DeleteAst(t.0, t.1, where.0)) else None
  }

  predicate Begins(ts: seq<Token>, w: string) {
    ts != [] && ts[0] == Word(w)
  }

  function Parse(ts: seq<Token>): Option<Ast> {
    if Begins(ts, "INSERT") && Begins(ts[1..], "INTO") then ParseInsert(ts[2..])
    else if Begins(ts, "UPDATE") then ParseUpdate(ts[1..])
    else if Begins(ts, "DELETE") && Begins(ts[1..], "FROM") then ParseDelete(ts[2..])
    else None
  }

  function ReadStatement(text: string): Option<Ast> {
    Parse(Lex(text))
  }

  // ----- what a plan should read as -----

  function CellToken(b: Bind, shown: bool): Token {
    if shown then LiteralToken(b.cqlType, b.value) else Mark('?')
  }

  /** A shown value is null, a number or truth value without spaces around it, or the quoted string itself. */
  function CellLiteral(b: Bind, shown: bool): Literal {
    if !shown then Placeholder
    else if b.value == Null then NullLiteral
    else if !ShownBare(BaseOf(b.cqlType)) then StringLiteral(Shown(b.value))
    else BareLiteral(Trim(Shown(b.value)))
  }

  function Columns(binds: seq<Bind>): (r: seq<string>)
    ensures |r| == |binds|
  {
    seq(|binds|, i requires 0 <= i < |binds| => binds[i].column)
  }

  function Literals(binds: seq<Bind>, shown: bool): (r: seq<Literal>)
    ensures |r| == |binds|
  {
    if binds == [] then [] else [CellLiteral(binds[0], shown)] + Literals(binds[1..], shown)
  }

  function Pairs(binds: seq<Bind>, shown: bool): (r: seq<Pair>)
    ensures |r| == |binds|
  {
    if binds == [] then [] else [Pair(binds[0].column, CellLiteral(binds[0], shown))] + Pairs(binds[1..], shown)
  }

  function AstOf(td: TableDetail, p: Plan, shown: bool): Ast {
    match p
    case Insert(row) => InsertAst(td.keyspace, td.name, Columns(row), Literals(row, shown))
    case Update(changes, keys) => UpdateAst(td.keyspace, td.name, Pairs(changes, shown), Pairs(keys, shown))
    case Delete(keys) => DeleteAst(td.keyspace, td.name, Pairs(keys, shown))
  }

  // ----- its tokens -----

  function ItemTokens(items: seq<Token>): seq<Token> {
    if items == [] then []
    else if |items| == 1 then items
    else [items[0], Mark(',')] + ItemTokens(items[1..])
  }

  function IdentTokens(binds: seq<Bind>): (r: seq<Token>)
    ensures |r| == |binds|
  {
    if binds == [] then [] else [IdentToken(binds[0].column)] + IdentTokens(binds[1..])
  }

  function CellTokens(binds: seq<Bind>, shown: bool): (r: seq<Token>)
    ensures |r| == |binds|
  {
    if binds == [] then [] else [CellToken(binds[0], shown)] + CellTokens(binds[1..], shown)
  }

  function ClauseTokens(b: Bind, shown: bool): seq<Token> {
    [IdentToken(b.column), Mark('='), CellToken(b, shown)]
  }

  function PairTokens(binds: seq<Bind>, shown: bool, sep: Token): seq<Token> {
    if binds == [] then []
    else if |binds| == 1 then ClauseTokens(binds[0], shown)
    else ClauseTokens(binds[0], shown) + [sep] + PairTokens(binds[1..], shown, sep)
  }

  function TableTokens(td: TableDetail): seq<Token> {
    [IdentToken(td.keyspace), Mark('.'), IdentToken(td.name)]
  }

  function PlanTokens(td: TableDetail, p: Plan, shown: bool): seq<Token> {
    match p
    case Insert(row) =>
      [Word("INSERT"), Word("INTO")] + (TableTokens(td) + ([Mark('(')]
        + (ItemTokens(IdentTokens(row)) + (VALUES + (ItemTokens(CellTokens(row, shown)) + [Mark(')')])))))
    case Update(changes, keys) =>
      [Word("UPDATE")] + (TableTokens(td) + ([Word("SET")]
        + (PairTokens(changes, shown, Mark(',')) + ([Word("WHERE")] + PairTokens(keys, shown, Word("AND"))))))
    case Delete(keys) =>
      [Word("DELETE"), Word("FROM")] + (TableTokens(td) + ([Word("WHERE")] + PairTokens(keys, shown, Word("AND"))))
  }

  // ----- parsing the tokens -----

  lemma {:induction false} IdentName(s: string)
    ensures NameOf(IdentToken(s)) == Some(s)
  {
  }

  // A literal that was accepted is not spelled like a keyword of ours.
  lemma {:induction false} CellReads(lib: Library, b: Bind, shown: bool)
    requires Coerce(lib, b.cqlType, b.value).Ok?
    ensures LiteralOf(CellToken(b, shown)) == Some(CellLiteral(b, shown))
  {
    if shown && b.value != Null && ShownBare(BaseOf(b.cqlType)) {
      NeverNull(lib, BaseOf(b.cqlType), b.value);
    }
  }

  lemma NullIsNoLiteral()
    ensures !IsNumber("null") && JsonNumbers.Integer("null") == None && !SpecialFloat("null") && ParseBool("null") == None
    ensures Trim("null") == "null"
  {
    TrimUnspaced("null");
    assert JsonNumbers.Digits("null") == None;
    assert Lower("null") == "null";
  }

  lemma {:induction false} NeverNull(lib: Library, base: BaseType, v: Value)
    requires v != Null && ShownBare(base) && CoerceBase(lib, base, v).Ok?
    ensures Trim(Shown(v)) != "null"
  {
    NullIsNoLiteral();
    match v {
      case Num(n) =>
        JsonNumbers.ShownNumber(n);
        NumberUntrimmed(JsonNumbers.Shown(n));
      case Bool(b) => TruthIsNoNumber(b);
      case Text(s) =>
        if base == BooleanType {
          BoolSpelling(s);
        }
    }
  }

  ghost predicate Stops<T>(rest: seq<Token>, item: Token -> Option<T>) {
    rest == [] || (rest[0] != Mark(',') && item(rest[0]) == None)
  }

  /** The tokens are the items, one by one. */
  ghost predicate Items<T>(tokens: seq<Token>, items: seq<T>, item: Token -> Option<T>) {
    |tokens| == |items| &&
    (tokens == [] || (item(tokens[0]) == Some(items[0]) && Items(tokens[1..], items[1..], item)))
  }

  lemma {:induction false} ItemsParse<T>(tokens: seq<Token>, items: seq<T>, item: Token -> Option<T>, rest: seq<Token>)
    requires Items(tokens, items, item) && Stops(rest, item)
    ensures ParseItems(ItemTokens(tokens) + rest, item) == (items, rest)
    decreases |tokens|
  {
    var all := ItemTokens(tokens) + rest;
    if tokens == [] {
      assert all == rest;
    } else if |tokens| == 1 {
      assert all == [tokens[0]] + rest;
      LastItem(tokens[0], items, item, rest, all);
    } else {
      var later := ItemTokens(tokens[1..]) + rest;
      assert all == [tokens[0], Mark(',')] + later;
      ItemsParse(tokens[1..], items[1..], item, rest);
      FirstItem(tokens[0], items, item, later, rest, all);
    }
  }

  lemma LastItem<T>(t: Token, items: seq<T>, item: Token -> Option<T>, rest: seq<Token>, all: seq<Token>)
    requires |items| == 1 && item(t) == Some(items[0]) && Stops(rest, item) && all == [t] + rest
    ensures ParseItems(all, item) == (items, rest)
  {
    assert all[1..] == rest && (rest != [] ==> all[1] == rest[0]);
    assert items == [items[0]];
  }

  lemma FirstItem<T>(t: Token, items: seq<T>, item: Token -> Option<T>, later: seq<Token>, rest: seq<Token>, all: seq<Token>)
    requires items != [] && item(t) == Some(items[0]) && ParseItems(later, item) == (items[1..], rest)
    requires all == [t, Mark(',')] + later
    ensures ParseItems(all, item) == (items, rest)
  {
    assert all[2..] == later && items == [items[0]] + items[1..];
  }

  ghost predicate Ends(rest: seq<Token>, sep: Token) {
    rest == [] || (rest[0] != sep && NameOf(rest[0]) == None)
  }

  ghost predicate Readable(binds: seq<Bind>, shown: bool) {
    forall b :: b in binds ==> LiteralOf(CellToken(b, shown)) == Some(CellLiteral(b, shown))
  }

  lemma PairTokensCons(binds: seq<Bind>, shown: bool, sep: Token, rest: seq<Token>)
    requires |binds| > 1
    ensures PairTokens(binds, shown, sep) + rest
      == ClauseTokens(binds[0], shown) + ([sep] + (PairTokens(binds[1..], shown, sep) + rest))
  {
  }

  lemma {:induction false} PairsParse(binds: seq<Bind>, shown: bool, sep: Token, rest: seq<Token>)
    requires Readable(binds, shown) && Ends(rest, sep)
    ensures ParsePairs(PairTokens(binds, shown, sep) + rest, sep) == (Pairs(binds, shown), rest)
    decreases |binds|
  {
    if binds == [] {
      assert PairTokens(binds, shown, sep) + rest == rest;
    } else {
      var b := binds[0];
      assert b in binds;
      if |binds| == 1 {
        LastParses(b, shown, sep, rest, ClauseTokens(b, shown) + rest);
        assert binds[1..] == [] && Pairs(binds, shown) == [Pair(b.column, CellLiteral(b, shown))];
      } else {
        var later := PairTokens(binds[1..], shown, sep) + rest;
        PairTokensCons(binds, shown, sep, rest);
        PairsParse(binds[1..], shown, sep, rest);
        FirstParses(b, shown, sep, later, ClauseTokens(b, shown) + ([sep] + later));
      }
    }
  }

  lemma LastParses(b: Bind, shown: bool, sep: Token, rest: seq<Token>, all: seq<Token>)
    requires LiteralOf(CellToken(b, shown)) == Some(CellLiteral(b, shown)) && all == ClauseTokens(b, shown) + rest
    requires Ends(rest, sep)
    ensures ParsePairs(all, sep) == ([Pair(b.column, CellLiteral(b, shown))], rest)
  {
    PairParses(b, shown, rest, all);
  }

  lemma FirstParses(b: Bind, shown: bool, sep: Token, later: seq<Token>, all: seq<Token>)
    requires LiteralOf(CellToken(b, shown)) == Some(CellLiteral(b, shown)) && all == ClauseTokens(b, shown) + ([sep] + later)
    ensures var r := ParsePairs(later, sep);
      ParsePairs(all, sep) == ([Pair(b.column, CellLiteral(b, shown))] + r.0, r.1)
  {
    PairParses(b, shown, [sep] + later, all);
    assert ([sep] + later)[1..] == later;
  }

  lemma PairParses(b: Bind, shown: bool, rest: seq<Token>, ts: seq<Token>)
    requires LiteralOf(CellToken(b, shown)) == Some(CellLiteral(b, shown)) && ts == ClauseTokens(b, shown) + rest
    ensures ParsePair(ts) == Some(Pair(b.column, CellLiteral(b, shown))) && ts[3..] == rest
    ensures |ts| == |rest| + 3 && (rest != [] ==> ts[3] == rest[0] && ts[4..] == rest[1..])
  {
    IdentName(b.column);
    assert ts[0] == IdentToken(b.column) && ts[1] == Mark('=') && ts[2] == CellToken(b, shown);
  }

  lemma TableParses(td: TableDetail, rest: seq<Token>)
    ensures ParseTable(TableTokens(td) + rest) == Some((td.keyspace, td.name, rest))
  {
    IdentName(td.keyspace);
    IdentName(td.name);
    assert (TableTokens(td) + rest)[3..] == rest;
  }
}
