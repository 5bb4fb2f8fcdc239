/** Every statement the compiler prints reads back as what it was to say. */
module DmlRoundTrip {
  import opened Sequences
  import opened Options
  import opened Quoting
  import opened CqlLexer
  import opened Coercion
  import opened TableSchema
  import opened Dml
  import opened DmlReading
  import NameOrder

  // ----- the tokens parse -----

  lemma {:induction false} NameItems(row: seq<Bind>)
    ensures Items(IdentTokens(row), Columns(row), NameOf)
  {
    if row != [] {
      IdentName(row[0].column);
      NameItems(row[1..]);
      assert Columns(row)[1..] == Columns(row[1..]);
    }
  }

  lemma {:induction false} ValueItems(row: seq<Bind>, shown: bool)
    requires Readable(row, shown)
    ensures Items(CellTokens(row, shown), Literals(row, shown), LiteralOf)
  {
    if row != [] {
      assert row[0] in row;
      ValueItems(row[1..], shown);
    }
  }

  lemma {:induction false} InsertParses(td: TableDetail, row: seq<Bind>, shown: bool)
    requires Readable(row, shown)
    ensures Parse(PlanTokens(td, Insert(row), shown)) == Some(AstOf(td, Insert(row), shown))
  {
    var end := [Mark(')')];
    var values := ItemTokens(CellTokens(row, shown)) + end;
    var names := ItemTokens(IdentTokens(row)) + (VALUES + values);
    var table := TableTokens(td) + ([Mark('(')] + names);
    assert ([Word("INSERT"), Word("INTO")] + table)[2..] == table;
    TableParses(td, [Mark('(')] + names);
    assert ([Mark('(')] + names)[1..] == names;
    NameItems(row);
    ItemsParse(IdentTokens(row), Columns(row), NameOf, VALUES + values);
    assert (VALUES + values)[3..] == values && VALUES <= VALUES + values;
    ValueItems(row, shown);
    ItemsParse(CellTokens(row, shown), Literals(row, shown), LiteralOf, end);
  }

  lemma Heads(w: string, v: string, rest: seq<Token>)
    requires w != "" && v != "" && w[0] != v[0]
    ensures Begins([Word(w)] + rest, w) && !Begins([Word(w)] + rest, v) && ([Word(w)] + rest)[1..] == rest
  {
  }

  lemma {:induction false} UpdateParses(td: TableDetail, changes: seq<Bind>, keys: seq<Bind>, shown: bool)
    requires Readable(changes, shown) && Readable(keys, shown)
    ensures Parse(PlanTokens(td, Update(changes, keys), shown)) == Some(AstOf(td, Update(changes, keys), shown))
  {
    var where := PairTokens(keys, shown, Word("AND"));
    var sets := PairTokens(changes, shown, Mark(',')) + ([Word("WHERE")] + where);
    var table := TableTokens(td) + ([Word("SET")] + sets);
    Heads("UPDATE", "INSERT", table);
    UpdateBodyParses(td, changes, keys, shown, where, sets, table);
  }

  lemma {:induction false} UpdateBodyParses(td: TableDetail, changes: seq<Bind>, keys: seq<Bind>, shown: bool,
                                            where: seq<Token>, sets: seq<Token>, table: seq<Token>)
    requires Readable(changes, shown) && Readable(keys, shown) && where == PairTokens(keys, shown, Word("AND"))
    requires sets == PairTokens(changes, shown, Mark(',')) + ([Word("WHERE")] + where)
    requires table == TableTokens(td) + ([Word("SET")] + sets)
    ensures ParseUpdate(table) == Some(AstOf(td, Update(changes, keys), shown))
  {
    TableParses(td, [Word("SET")] + sets);
    Heads("SET", "W", sets);
    Heads("WHERE", "S", where);
    PairsParse(changes, shown, Mark(','), [Word("WHERE")] + where);
    assert where + [] == where;
    PairsParse(keys, shown, Word("AND"), []);
  }

  lemma {:induction false} DeleteParses(td: TableDetail, keys: seq<Bind>, shown: bool)
    requires Readable(keys, shown)
    ensures Parse(PlanTokens(td, Delete(keys), shown)) == Some(AstOf(td, Delete(keys), shown))
  {
    var where := PairTokens(keys, shown, Word("AND"));
    var table := TableTokens(td) + ([Word("WHERE")] + where);
    Heads("DELETE", "INSERT", [Word("FROM")] + table);
    Heads("DELETE", "UPDATE", [Word("FROM")] + table);
    Heads("FROM", "S", table);
    var all := PlanTokens(td, Delete(keys), shown);
    assert all == [Word("DELETE")] + ([Word("FROM")] + table) && all[2..] == table;
    DeleteBodyParses(td, keys, shown, where, table);
  }

  lemma {:induction false} DeleteBodyParses(td: TableDetail, keys: seq<Bind>, shown: bool, where: seq<Token>, table: seq<Token>)
    requires Readable(keys, shown) && where == PairTokens(keys, shown, Word("AND"))
    requires table == TableTokens(td) + ([Word("WHERE")] + where)
    ensures ParseDelete(table) == Some(AstOf(td, Delete(keys), shown))
  {
    TableParses(td, [Word("WHERE")] + where);
    Heads("WHERE", "S", where);
    assert where + [] == where;
    PairsParse(keys, shown, Word("AND"), []);
  }

  // ----- the text lexes -----

  lemma {:induction false} CellLexes(lib: Library, b: Bind, shown: bool)
    requires Coerce(lib, b.cqlType, b.value).Ok?
    ensures LexesOpen(Cell(b, shown), [CellToken(b, shown)])
  {
    if shown {
      LiteralLexes(lib, b.cqlType, b.value);
    } else {
      RunOne('?');
    }
  }

  // Words set off by spaces.
  lemma {:induction false} Keyword(w: string)
    requires IsWord(w)
    ensures Lexes(w + " ", [Word(w)])
  {
    WordLexes(w);
    LexesClose(w, [Word(w)], ' ');
    assert [Word(w)] + [] == [Word(w)];
  }

  lemma {:induction false} ThenKeyword(a: string, x: seq<Token>, w: string)
    requires LexesOpen(a, x) && IsWord(w)
    ensures Lexes(a + " " + w + " ", x + [Word(w)])
  {
    LexesClose(a, x, ' ');
    assert x + [] == x;
    Keyword(w);
    LexesConcat(a + " ", x, w + " ", [Word(w)]);
    assert (a + " ") + (w + " ") == a + " " + w + " ";
  }

  lemma {:induction false} ClauseLexes(lib: Library, b: Bind, shown: bool)
    requires Coerce(lib, b.cqlType, b.value).Ok?
    ensures LexesOpen(Clause(b, shown), ClauseTokens(b, shown))
  {
    var q, t := QuotedIdent(b.column), IdentToken(b.column);
    IdentLexes(b.column);
    LexesClose(q, [t], ' ');
    assert [t] + [] == [t];
    LexesIsOpen(q + " ", [t]);
    LexesClose(q + " ", [t], '=');
    LexesIsOpen(q + " " + "=", [t] + [Mark('=')]);
    LexesClose(q + " " + "=", [t] + [Mark('=')], ' ');
    assert q + " " + "=" + " " == q + " = ";
    assert [t] + [Mark('=')] + [] == [t, Mark('=')];
    CellLexes(lib, b, shown);
    LexesThenOpen(q + " = ", [t, Mark('=')], Cell(b, shown), [CellToken(b, shown)]);
  }

  lemma {:induction false} ThenComma(a: string, x: seq<Token>)
    requires LexesOpen(a, x)
    ensures Lexes(a + ", ", x + [Mark(',')])
  {
    LexesClose(a, x, ',');
    LexesIsOpen(a + ",", x + [Mark(',')]);
    LexesClose(a + ",", x + [Mark(',')], ' ');
    assert a + "," + " " == a + ", " && x + [Mark(',')] + [] == x + [Mark(',')];
  }

  /** The parts are the tokens, one by one. */
  ghost predicate EachLexes(parts: seq<string>, tokens: seq<Token>) {
    |parts| == |tokens| && (parts == [] || (LexesOpen(parts[0], [tokens[0]]) && EachLexes(parts[1..], tokens[1..])))
  }

  lemma {:induction false} ItemsLex(parts: seq<string>, tokens: seq<Token>)
    requires EachLexes(parts, tokens)
    ensures LexesOpen(Join(parts, ", "), ItemTokens(tokens))
    decreases |parts|
  {
    if parts == [] {
      LexesEmpty();
    } else if |parts| == 1 {
      assert tokens == [tokens[0]];
    } else {
      ItemsLex(parts[1..], tokens[1..]);
      ThenComma(parts[0], [tokens[0]]);
      LexesThenOpen(parts[0] + ", ", [tokens[0]] + [Mark(',')], Join(parts[1..], ", "), ItemTokens(tokens[1..]));
      assert [tokens[0]] + [Mark(',')] == [tokens[0], Mark(',')];
    }
  }

  ghost predicate Accepted(lib: Library, binds: seq<Bind>) {
    forall b :: b in binds ==> Coerce(lib, b.cqlType, b.value) == Ok(b.arg)
  }

  function Separation(and: bool): string {
    if and then " AND " else ", "
  }

  function SeparationToken(and: bool): Token {
    if and then Word("AND") else Mark(',')
  }

  lemma {:induction false} ThenSeparation(a: string, x: seq<Token>, and: bool)
    requires LexesOpen(a, x)
    ensures Lexes(a + Separation(and), x + [SeparationToken(and)])
  {
    if and {
      WordCharsAll("AND");
      ThenKeyword(a, x, "AND");
      assert a + " " + "AND" + " " == a + " AND ";
    } else {
      ThenComma(a, x);
    }
  }

  lemma {:induction false} PairsLex(lib: Library, binds: seq<Bind>, shown: bool, and: bool)
    requires Accepted(lib, binds)
    ensures LexesOpen(Join(Clauses(binds, shown), Separation(and)), PairTokens(binds, shown, SeparationToken(and)))
    decreases |binds|
  {
    if binds == [] {
      LexesEmpty();
    } else {
      var b := binds[0];
      assert b in binds;
      ClauseLexes(lib, b, shown);
      ClausesTail(binds, shown);
      if |binds| > 1 {
        PairsLex(lib, binds[1..], shown, and);
        ThenSeparation(Clause(b, shown), ClauseTokens(b, shown), and);
        LexesThenOpen(Clause(b, shown) + Separation(and), ClauseTokens(b, shown) + [SeparationToken(and)],
                      Join(Clauses(binds[1..], shown), Separation(and)), PairTokens(binds[1..], shown, SeparationToken(and)));
      }
    }
  }

  lemma {:induction false} TableLexes(td: TableDetail)
    ensures LexesOpen(TableName(td), TableTokens(td))
  {
    IdentLexes(td.keyspace);
    IdentLexes(td.name);
    LexesThenOpen(QuotedIdent(td.keyspace) + ".", [IdentToken(td.keyspace), Mark('.')],
                  QuotedIdent(td.name), [IdentToken(td.name)]);
  }

  // ----- whole statements -----

  lemma {:induction false} RowLexes(lib: Library, row: seq<Bind>, shown: bool)
    requires Accepted(lib, row)
    ensures EachLexes(Idents(row), IdentTokens(row)) && EachLexes(Cells(row, shown), CellTokens(row, shown))
  {
    if row != [] {
      assert row[0] in row;
      IdentLexes(row[0].column);
      CellLexes(lib, row[0], shown);
      RowLexes(lib, row[1..], shown);
      IdentsTail(row);
      CellsTail(row, shown);
    }
  }

  // After the table name comes a parenthesis, or a keyword.
  lemma {:induction false} OpenParen(a: string, x: seq<Token>)
    requires LexesOpen(a, x)
    ensures Lexes(a + " (", x + [Mark('(')])
  {
    LexesClose(a, x, ' ');
    assert x + [] == x;
    LexesIsOpen(a + " ", x);
    LexesClose(a + " ", x, '(');
    assert a + " " + "(" == a + " (";
  }

  lemma {:induction false} ValuesParen(a: string, x: seq<Token>)
    requires LexesOpen(a, x)
    ensures Lexes(a + ") VALUES (", x + VALUES)
  {
    LexesClose(a, x, ')');
    LexesIsOpen(a + ")", x + [Mark(')')]);
    WordCharsAll("VALUES");
    ThenKeyword(a + ")", x + [Mark(')')], "VALUES");
    LexesIsOpen(a + ")" + " " + "VALUES" + " ", x + [Mark(')')] + [Word("VALUES")]);
    LexesClose(a + ")" + " " + "VALUES" + " ", x + [Mark(')')] + [Word("VALUES")], '(');
    assert a + ")" + " " + "VALUES" + " " + "(" == a + ") VALUES (";
    assert x + [Mark(')')] + [Word("VALUES")] + [Mark('(')] == x + VALUES;
  }

  // A verb, a preposition perhaps, and the table.
  lemma {:induction false} VerbLexes(td: TableDetail, verb: string, preposition: string)
    requires IsWord(verb) && (preposition == "" || IsWord(preposition))
    ensures var text := verb + " " + (if preposition == "" then "" else preposition + " ");
      LexesOpen(text + TableName(td), [Word(verb)] + (if preposition == "" then [] else [Word(preposition)]) + TableTokens(td))
  {
    TableLexes(td);
    Keyword(verb);
    if preposition == "" {
      assert verb + " " + "" == verb + " " && [Word(verb)] + [] == [Word(verb)];
      LexesThenOpen(verb + " ", [Word(verb)], TableName(td), TableTokens(td));
    } else {
      Keyword(preposition);
      LexesConcat(verb + " ", [Word(verb)], preposition + " ", [Word(preposition)]);
      LexesThenOpen(verb + " " + (preposition + " "), [Word(verb)] + [Word(preposition)], TableName(td), TableTokens(td));
    }
  }

  // The shape of an INSERT, whatever the table, the columns and the values are.
  lemma {:induction false} InsertShape(head: string, h: seq<Token>, cols: string, x: seq<Token>, values: string, y: seq<Token>)
    requires LexesOpen(head, h) && LexesOpen(cols, x) && LexesOpen(values, y)
    ensures LexesOpen(head + " (" + cols + ") VALUES (" + values + ")", h + [Mark('(')] + x + VALUES + y + [Mark(')')])
  {
    OpenParen(head, h);
    LexesThenOpen(head + " (", h + [Mark('(')], cols, x);
    ValuesParen(head + " (" + cols, h + [Mark('(')] + x);
    LexesThenOpen(head + " (" + cols + ") VALUES (", h + [Mark('(')] + x + VALUES, values, y);
    LexesClose(head + " (" + cols + ") VALUES (" + values, h + [Mark('(')] + x + VALUES + y, ')');
    LexesIsOpen(head + " (" + cols + ") VALUES (" + values + ")", h + [Mark('(')] + x + VALUES + y + [Mark(')')]);
  }

  lemma Regroup(a: seq<Token>, b: seq<Token>, c: seq<Token>, d: seq<Token>, e: seq<Token>, f: seq<Token>, g: seq<Token>)
    ensures a + b + c + d + e + f + g == a + (b + (c + (d + (e + (f + g)))))
  {
    Assoc(a, b, c + (d + (e + (f + g))));
    Assoc(a + b, c, d + (e + (f + g)));
    Assoc(a + b + c, d, e + (f + g));
    Assoc(a + b + c + d, e, f + g);
    Assoc(a + b + c + d + e, f, g);
  }

  lemma {:induction false} InsertLexes(lib: Library, td: TableDetail, row: seq<Bind>, shown: bool)
    requires Accepted(lib, row)
    ensures LexesOpen(PlanText(td, Insert(row), shown), PlanTokens(td, Insert(row), shown))
  {
    var x, y := ItemTokens(IdentTokens(row)), ItemTokens(CellTokens(row, shown));
    RowLexes(lib, row, shown);
    ItemsLex(Idents(row), IdentTokens(row));
    ItemsLex(Cells(row, shown), CellTokens(row, shown));
    InsertHead(td);
    InsertShape("INSERT INTO " + TableName(td), [Word("INSERT"), Word("INTO")] + TableTokens(td),
                Join(Idents(row), ", "), x, Join(Cells(row, shown), ", "), y);
    Regroup([Word("INSERT"), Word("INTO")], TableTokens(td), [Mark('(')], x, VALUES, y, [Mark(')')]);
  }

  lemma {:induction false} InsertHead(td: TableDetail)
    ensures LexesOpen("INSERT INTO " + TableName(td), [Word("INSERT"), Word("INTO")] + TableTokens(td))
  {
    WordCharsAll("INSERT");
    WordCharsAll("INTO");
    VerbLexes(td, "INSERT", "INTO");
    assert "INSERT" + " " + ("INTO" + " ") == "INSERT INTO ";
    assert [Word("INSERT")] + [Word("INTO")] == [Word("INSERT"), Word("INTO")];
  }

  lemma {:induction false} WhereLexes(lib: Library, head: string, x: seq<Token>, keys: seq<Bind>, shown: bool)
    requires Accepted(lib, keys) && LexesOpen(head, x)
    ensures LexesOpen(head + " WHERE " + Join(Clauses(keys, shown), " AND "),
                      x + [Word("WHERE")] + PairTokens(keys, shown, Word("AND")))
  {
    WordCharsAll("WHERE");
    ThenKeyword(head, x, "WHERE");
    assert head + " " + "WHERE" + " " == head + " WHERE ";
    PairsLex(lib, keys, shown, true);
    LexesThenOpen(head + " WHERE ", x + [Word("WHERE")], Join(Clauses(keys, shown), " AND "), PairTokens(keys, shown, Word("AND")));
  }

  lemma {:induction false} SetLexes(lib: Library, head: string, h: seq<Token>, changes: seq<Bind>, shown: bool)
    requires Accepted(lib, changes) && LexesOpen(head, h)
    ensures LexesOpen(head + " SET " + Join(Clauses(changes, shown), ", "),
                      h + [Word("SET")] + PairTokens(changes, shown, Mark(',')))
  {
    WordCharsAll("SET");
    ThenKeyword(head, h, "SET");
    assert head + " " + "SET" + " " == head + " SET ";
    PairsLex(lib, changes, shown, false);
    LexesThenOpen(head + " SET ", h + [Word("SET")], Join(Clauses(changes, shown), ", "), PairTokens(changes, shown, Mark(',')));
  }

  lemma {:induction false} UpdateHead(td: TableDetail)
    ensures LexesOpen("UPDATE " + TableName(td), [Word("UPDATE")] + TableTokens(td))
  {
    WordCharsAll("UPDATE");
    VerbLexes(td, "UPDATE", "");
    assert "UPDATE" + " " + "" == "UPDATE " && [Word("UPDATE")] + [] == [Word("UPDATE")];
  }

  lemma {:induction false} UpdateLexes(lib: Library, td: TableDetail, changes: seq<Bind>, keys: seq<Bind>, shown: bool)
    requires Accepted(lib, changes) && Accepted(lib, keys)
    ensures LexesOpen(PlanText(td, Update(changes, keys), shown), PlanTokens(td, Update(changes, keys), shown))
  {
    var x, y := PairTokens(changes, shown, Mark(',')), PairTokens(keys, shown, Word("AND"));
    var head, h := "UPDATE " + TableName(td), [Word("UPDATE")] + TableTokens(td);
    UpdateHead(td);
    SetLexes(lib, head, h, changes, shown);
    WhereLexes(lib, head + " SET " + Join(Clauses(changes, shown), ", "), h + [Word("SET")] + x, keys, shown);
    Regroup([], [Word("UPDATE")], TableTokens(td), [Word("SET")], x, [Word("WHERE")], y);
    NoPrefix([Word("UPDATE")]);
    NoPrefix([Word("UPDATE")] + (TableTokens(td) + ([Word("SET")] + (x + ([Word("WHERE")] + y)))));
  }

  lemma NoPrefix(a: seq<Token>)
    ensures [] + a == a
  {
  }

  lemma {:induction false} DeleteHead(td: TableDetail)
    ensures LexesOpen("DELETE FROM " + TableName(td), [Word("DELETE"), Word("FROM")] + TableTokens(td))
  {
    WordCharsAll("DELETE");
    WordCharsAll("FROM");
    VerbLexes(td, "DELETE", "FROM");
    assert "DELETE" + " " + ("FROM" + " ") == "DELETE FROM ";
    assert [Word("DELETE")] + [Word("FROM")] == [Word("DELETE"), Word("FROM")];
  }

  lemma {:induction false} DeleteLexes(lib: Library, td: TableDetail, keys: seq<Bind>, shown: bool)
    requires Accepted(lib, keys)
    ensures LexesOpen(PlanText(td, Delete(keys), shown), PlanTokens(td, Delete(keys), shown))
  {
    var verb, y := [Word("DELETE"), Word("FROM")], PairTokens(keys, shown, Word("AND"));
    DeleteHead(td);
    WhereLexes(lib, "DELETE FROM " + TableName(td), verb + TableTokens(td), keys, shown);
    Assoc(verb, TableTokens(td), [Word("WHERE")] + y);
    Assoc(verb + TableTokens(td), [Word("WHERE")], y);
  }

  /** All values of the plan were accepted. */
  ghost predicate PlanAccepted(lib: Library, p: Plan) {
    match p
    case Insert(row) => Accepted(lib, row)
    case Update(changes, keys) => Accepted(lib, changes) && Accepted(lib, keys)
    case Delete(keys) => Accepted(lib, keys)
  }

  lemma {:induction false} PlanLexes(lib: Library, td: TableDetail, p: Plan, shown: bool)
    requires PlanAccepted(lib, p)
    ensures LexesOpen(PlanText(td, p, shown), PlanTokens(td, p, shown))
  {
    match p
    case Insert(row) => InsertLexes(lib, td, row, shown);
    case Update(changes, keys) => UpdateLexes(lib, td, changes, keys, shown);
    case Delete(keys) => DeleteLexes(lib, td, keys, shown);
  }

  lemma {:induction false} AcceptedReadable(lib: Library, binds: seq<Bind>, shown: bool)
    requires Accepted(lib, binds)
    ensures Readable(binds, shown)
  {
    forall b | b in binds ensures LiteralOf(CellToken(b, shown)) == Some(CellLiteral(b, shown)) {
      CellReads(lib, b, shown);
    }
  }

  lemma {:induction false} PlanParses(lib: Library, td: TableDetail, p: Plan, shown: bool)
    requires PlanAccepted(lib, p)
    ensures Parse(PlanTokens(td, p, shown)) == Some(AstOf(td, p, shown))
  {
    match p
    case Insert(row) =>
      AcceptedReadable(lib, row, shown);
      InsertParses(td, row, shown);
    case Update(changes, keys) =>
      AcceptedReadable(lib, changes, shown);
      AcceptedReadable(lib, keys, shown);
      UpdateParses(td, changes, keys, shown);
    case Delete(keys) =>
      AcceptedReadable(lib, keys, shown);
      DeleteParses(td, keys, shown);
  }

  // ----- what the compiler accepts -----

  lemma {:induction false} KeysAccepted(lib: Library, cols: seq<Column>, pk: map<string, Value>)
    requires BindKeys(lib, cols, pk).Ok?
    ensures Accepted(lib, BindKeys(lib, cols, pk).value)
    decreases |cols|
  {
    if cols != [] {
      KeysAccepted(lib, cols[..|cols| - 1], pk);
    }
  }

  lemma {:induction false} NamesAccepted(lib: Library, idx: map<string, Column>, names: seq<string>, row: map<string, Value>,
                                         insert: bool)
    requires BindNames(lib, idx, names, row, insert).Ok?
    ensures Accepted(lib, BindNames(lib, idx, names, row, insert).value)
    decreases |names|
  {
    if names != [] {
      NamesAccepted(lib, idx, names[..|names| - 1], row, insert);
    }
  }

  /** The plan of an edit of any kind. */
  ghost function PlanOf(lib: Library, td: TableDetail, op: Op): Option<Result<Plan, Error>> {
    if op.kind == "insert" then Some(PlanInsert(lib, td, op))
    else if op.kind == "update" then Some(PlanUpdate(lib, td, op))
    else if op.kind == "delete" then Some(PlanDelete(lib, td, op))
    else None
  }

  lemma {:induction false} PlanIsAccepted(lib: Library, td: TableDetail, op: Op, p: Plan)
    requires PlanOf(lib, td, op) == Some(Ok(p))
    ensures PlanAccepted(lib, p)
  {
    var idx, full := Index(td.columns), op.pk + op.changes;
    match p
    case Insert(_) => NamesAccepted(lib, idx, NameOrder.SortedSet(full.Keys), full, true);
    case Update(_, _) =>
      NamesAccepted(lib, idx, NameOrder.SortedSet(op.changes.Keys), op.changes, false);
      KeysAccepted(lib, KeyColumns(td), op.pk);
    case Delete(_) => KeysAccepted(lib, KeyColumns(td), op.pk);
  }

  /** Whatever the names and values: the statement of an accepted edit, with its literals shown or with
      placeholders, reads back as exactly the edit's table, columns and literals. */
  lemma {:induction false} ReadsBack(lib: Library, td: TableDetail, op: Op, p: Plan, shown: bool)
    requires PlanOf(lib, td, op) == Some(Ok(p))
    ensures ReadStatement(PlanText(td, p, shown)) == Some(AstOf(td, p, shown))
  {
    PlanIsAccepted(lib, td, op, p);
    PlanLexes(lib, td, p, shown);
    PlanParses(lib, td, p, shown);
  }
}
