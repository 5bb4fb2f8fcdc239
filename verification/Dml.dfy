/** The compiler of row edits to CQL (internal/dataedit/builder.go). */
module Dml {
  import opened Options
  import opened Quoting
  import opened Coercion
  import opened TableSchema
  import NameOrder

  datatype Op = Op(kind: string, pk: map<string, Value>, changes: map<string, Value>)

  datatype Error = IncompletePK(column: string) | NoChanges | UnknownColumn(column: string)
    | UnsupportedColumn(column: string) | BadColumn(column: string, problem: Problem)
    | BadKey(column: string, problem: Problem)

  datatype Statement = Statement(cql: string, args: seq<Datum>, display: string)

  /** A column of a statement with the value given and the argument it becomes. */
  datatype Bind = Bind(column: string, cqlType: string, value: Value, arg: Datum)

  /** What a statement is to say. */
  datatype Plan = Insert(row: seq<Bind>) | Update(changes: seq<Bind>, keys: seq<Bind>) | Delete(keys: seq<Bind>)

  // ----- planning: what is accepted, and the first thing that is not -----

  /** Name to column; of columns with one name the last counts. */
  function Index(cols: seq<Column>): map<string, Column> {
    if cols == [] then map[]
    else Index(cols[..|cols| - 1])[cols[|cols| - 1].name := cols[|cols| - 1]]
  }

  /** Partition columns, then clustering columns, each by position. */
  function KeyColumns(td: TableDetail): seq<Column> {
    PartitionColumns(td) + ClusteringColumns(td)
  }

  predicate UnsupportedType(cqlType: string) {
    var low := BaseName(cqlType);
    low == "counter" || "set<" <= low || "list<" <= low || "map<" <= low || "tuple<" <= low || "frozen<" <= low
  }

  predicate Editable(c: Column) {
    (c.kind == Regular || c.kind == Static) && !UnsupportedType(c.cqlType)
  }

  function Lookup(row: map<string, Value>, name: string): Value {
    if name in row then row[name] else Null
  }

  /** The first of the columns for which the row holds nothing, or only null where that does not count. */
  function Missing(cols: seq<Column>, row: map<string, Value>, nullCounts: bool): Option<string> {
    if cols == [] then None
    else match Missing(cols[..|cols| - 1], row, nullCounts)
      case Some(name) => Some(name)
      case None =>
        var name := cols[|cols| - 1].name;
        if name in row && (nullCounts || row[name] != Null) then None else Some(name)
  }

  function BindKey(lib: Library, c: Column, pk: map<string, Value>): Result<Bind, Error> {
    match Coerce(lib, c.cqlType, Lookup(pk, c.name))
    case Err(problem) => Err(BadKey(c.name, problem))
    case Ok(arg) => Ok(Bind(c.name, c.cqlType, Lookup(pk, c.name), arg))
  }

  function BindKeys(lib: Library, cols: seq<Column>, pk: map<string, Value>): Result<seq<Bind>, Error> {
    if cols == [] then Ok([])
    else match BindKeys(lib, cols[..|cols| - 1], pk)
      case Err(e) => Err(e)
      case Ok(binds) =>
        match BindKey(lib, cols[|cols| - 1], pk)
        case Err(e) => Err(e)
        case Ok(b) => Ok(binds + [b])
  }

  /** Binds one named column: it must be known, usable, and its value convertible. */
  function BindName(lib: Library, idx: map<string, Column>, name: string, v: Value, insert: bool): Result<Bind, Error> {
    if name !in idx then Err(UnknownColumn(name))
    else
      var col := idx[name];
      if (if insert then UnsupportedType(col.cqlType) else !Editable(col)) then Err(UnsupportedColumn(name))
      else match Coerce(lib, col.cqlType, v)
        case Err(problem) => Err(BadColumn(name, problem))
        case Ok(arg) => Ok(Bind(name, col.cqlType, v, arg))
  }

  function BindNames(lib: Library, idx: map<string, Column>, names: seq<string>, row: map<string, Value>, insert: bool):
      Result<seq<Bind>, Error>
  {
    if names == [] then Ok([])
    else match BindNames(lib, idx, names[..|names| - 1], row, insert)
      case Err(e) => Err(e)
      case Ok(binds) =>
        var name := names[|names| - 1];
        match BindName(lib, idx, name, Lookup(row, name), insert)
        case Err(e) => Err(e)
        case Ok(bind) => Ok(binds + [bind])
  }

  ghost function PlanInsert(lib: Library, td: TableDetail, op: Op): Result<Plan, Error> {
    var full := op.pk + op.changes;
    match Missing(KeyColumns(td), full, true)
    case Some(name) => Err(IncompletePK(name))
    case None =>
      match BindNames(lib, Index(td.columns), NameOrder.SortedSet(full.Keys), full, true)
      case Err(e) => Err(e)
      case Ok(binds) => Ok(Insert(binds))
  }

  ghost function PlanUpdate(lib: Library, td: TableDetail, op: Op): Result<Plan, Error> {
    match Missing(KeyColumns(td), op.pk, false)
    case Some(name) => Err(IncompletePK(name))
    case None =>
      if op.changes == map[] then Err(NoChanges)
      else match BindNames(lib, Index(td.columns), NameOrder.SortedSet(op.changes.Keys), op.changes, false)
        case Err(e) => Err(e)
        case Ok(changes) =>
          match BindKeys(lib, KeyColumns(td), op.pk)
          case Err(e) => Err(e)
          case Ok(keys) => Ok(Update(changes, keys))
  }

  function PlanDelete(lib: Library, td: TableDetail, op: Op): Result<Plan, Error> {
    match Missing(KeyColumns(td), op.pk, false)
    case Some(name) => Err(IncompletePK(name))
    case None =>
      match BindKeys(lib, KeyColumns(td), op.pk)
      case Err(e) => Err(e)
      case Ok(keys) => Ok(Delete(keys))
  }

  // ----- printing -----

  function Cell(b: Bind, shown: bool): string {
    if shown then DisplayLiteral(b.cqlType, b.value) else "?"
  }

  function Clause(b: Bind, shown: bool): string {
    QuotedIdent(b.column) + " = " + Cell(b, shown)
  }

  function Idents(binds: seq<Bind>): seq<string> {
    seq(|binds|, i requires 0 <= i < |binds| => QuotedIdent(binds[i].column))
  }

  function Cells(binds: seq<Bind>, shown: bool): seq<string> {
    seq(|binds|, i requires 0 <= i < |binds| => Cell(binds[i], shown))
  }

  function Clauses(binds: seq<Bind>, shown: bool): seq<string> {
    seq(|binds|, i requires 0 <= i < |binds| => Clause(binds[i], shown))
  }

  function Args(binds: seq<Bind>): seq<Datum> {
    seq(|binds|, i requires 0 <= i < |binds| => binds[i].arg)
  }

  lemma IdentsTail(binds: seq<Bind>)
    requires binds != []
    ensures Idents(binds)[0] == QuotedIdent(binds[0].column) && Idents(binds)[1..] == Idents(binds[1..])
  {
    forall j | 0 <= j < |binds| - 1 ensures Idents(binds)[1..][j] == Idents(binds[1..])[j] {
      assert binds[1..][j] == binds[j + 1];
    }
  }

  lemma CellsTail(binds: seq<Bind>, shown: bool)
    requires binds != []
    ensures Cells(binds, shown)[0] == Cell(binds[0], shown) && Cells(binds, shown)[1..] == Cells(binds[1..], shown)
  {
    forall j | 0 <= j < |binds| - 1 ensures Cells(binds, shown)[1..][j] == Cells(binds[1..], shown)[j] {
      assert binds[1..][j] == binds[j + 1];
    }
  }

  lemma ClausesTail(binds: seq<Bind>, shown: bool)
    requires binds != []
    ensures Clauses(binds, shown)[0] == Clause(binds[0], shown) && Clauses(binds, shown)[1..] == Clauses(binds[1..], shown)
  {
    forall j | 0 <= j < |binds| - 1 ensures Clauses(binds, shown)[1..][j] == Clauses(binds[1..], shown)[j] {
      assert binds[1..][j] == binds[j + 1];
    }
  }

  function TableName(td: TableDetail): string {
    QuotedIdent(td.keyspace) + "." + QuotedIdent(td.name)
  }

  function InsertText(td: TableDetail, cols: string, values: string): string {
    "INSERT INTO " + TableName(td) + " (" + cols + ") VALUES (" + values + ")"
  }

  function UpdateText(td: TableDetail, changes: string, where: string): string {
    "UPDATE " + TableName(td) + " SET " + changes + " WHERE " + where
  }

  function DeleteText(td: TableDetail, where: string): string {
    "DELETE FROM " + TableName(td) + " WHERE " + where
  }

  /** The text of a plan, with literals shown or with placeholders. */
  function PlanText(td: TableDetail, p: Plan, shown: bool): string {
    match p
    case Insert(row) => InsertText(td, Join(Idents(row), ", "), Join(Cells(row, shown), ", "))
    case Update(changes, keys) =>
      UpdateText(td, Join(Clauses(changes, shown), ", "), Join(Clauses(keys, shown), " AND "))
    case Delete(keys) => DeleteText(td, Join(Clauses(keys, shown), " AND "))
  }

  function PlanArgs(p: Plan): seq<Datum> {
    match p
    case Insert(row) => Args(row)
    case Update(changes, keys) => Args(changes) + Args(keys)
    case Delete(keys) => Args(keys)
  }

  function Compiled(td: TableDetail, p: Result<Plan, Error>): Result<Statement, Error> {
    match p
    case Err(e) => Err(e)
    case Ok(plan) => Ok(Statement(PlanText(td, plan, false), PlanArgs(plan), PlanText(td, plan, true)))
  }

  // ----- the code -----

  method ColumnIndex(td: TableDetail) returns (m: map<string, Column>)
    ensures m == Index(td.columns)
  {
    m := map[];
    for i := 0 to |td.columns|
      invariant m == Index(td.columns[..i])
    {
      assert td.columns[..i + 1][..i] == td.columns[..i];
      m := m[td.columns[i].name := td.columns[i]];
    }
    assert td.columns[..|td.columns|] == td.columns;
  }

  method PrimaryKeyColumns(td: TableDetail) returns (cols: seq<Column>)
    ensures cols == KeyColumns(td)
  {
    var pk := ColumnsOfKind(td.columns, PartitionKey);
    var ck := ColumnsOfKind(td.columns, Clustering);
    cols := pk[..] + ck[..];
  }

  method MergeRow(op: Op) returns (out: map<string, Value>)
    ensures out == op.pk + op.changes
  {
    out := map[];
    var todo := op.pk.Keys;
    while todo != {}
      invariant todo <= op.pk.Keys && out == map k | k in op.pk && k !in todo :: op.pk[k]
      decreases todo
    {
      var k :| k in todo;
      out := out[k := op.pk[k]];
      todo := todo - {k};
    }
    todo := op.changes.Keys;
    while todo != {}
      invariant todo <= op.changes.Keys && out == op.pk + map k | k in op.changes && k !in todo :: op.changes[k]
      decreases todo
    {
      var k :| k in todo;
      out := out[k := op.changes[k]];
      todo := todo - {k};
    }
  }

  // The loop over the key columns of BuildInsert and, where null does not count, of requireFullPK.
  method FirstMissing(cols: seq<Column>, row: map<string, Value>, nullCounts: bool) returns (r: Option<string>)
    ensures r == Missing(cols, row, nullCounts)
  {
    for i := 0 to |cols|
      invariant Missing(cols[..i], row, nullCounts) == None
    {
      assert cols[..i + 1][..i] == cols[..i];
      if cols[i].name !in row || (!nullCounts && row[cols[i].name] == Null) {
        MissingStays(cols, i + 1, row, nullCounts);
        return Some(cols[i].name);
      }
    }
    assert cols[..|cols|] == cols;
    return None;
  }

  lemma {:induction false} MissingStays(cols: seq<Column>, i: nat, row: map<string, Value>, nullCounts: bool)
    requires i <= |cols| && Missing(cols[..i], row, nullCounts).Some?
    ensures Missing(cols, row, nullCounts) == Missing(cols[..i], row, nullCounts)
    decreases |cols|
  {
    if i < |cols| {
      assert cols[..|cols| - 1][..i] == cols[..i];
      MissingStays(cols[..|cols| - 1], i, row, nullCounts);
    } else {
      assert cols[..i] == cols;
    }
  }

  lemma {:induction false} KeyErrorStays(lib: Library, cols: seq<Column>, i: nat, pk: map<string, Value>)
    requires i <= |cols| && BindKeys(lib, cols[..i], pk).Err?
    ensures BindKeys(lib, cols, pk) == BindKeys(lib, cols[..i], pk)
    decreases |cols|
  {
    if i < |cols| {
      assert cols[..|cols| - 1][..i] == cols[..i];
      KeyErrorStays(lib, cols[..|cols| - 1], i, pk);
    } else {
      assert cols[..i] == cols;
    }
  }

  lemma {:induction false} NameErrorStays(lib: Library, idx: map<string, Column>, names: seq<string>, i: nat,
                                          row: map<string, Value>, insert: bool)
    requires i <= |names| && BindNames(lib, idx, names[..i], row, insert).Err?
    ensures BindNames(lib, idx, names, row, insert) == BindNames(lib, idx, names[..i], row, insert)
    decreases |names|
  {
    if i < |names| {
      assert names[..|names| - 1][..i] == names[..i];
      NameErrorStays(lib, idx, names[..|names| - 1], i, row, insert);
    } else {
      assert names[..i] == names;
    }
  }

  // The lists of the loop over the columns of a WHERE or a SET clause are those of the columns bound so far.
  predicate ClausesOf(binds: seq<Bind>, clauses: seq<string>, disp: seq<string>, args: seq<Datum>) {
    clauses == Clauses(binds, false) && disp == Clauses(binds, true) && args == Args(binds)
  }

  lemma ClausesSnoc(binds: seq<Bind>, clauses: seq<string>, disp: seq<string>, args: seq<Datum>, b: Bind, ident: string)
    requires ClausesOf(binds, clauses, disp, args) && ident == QuotedIdent(b.column)
    ensures ClausesOf(binds + [b], clauses + [ident + " = ?"], disp + [ident + " = " + Cell(b, true)], args + [b.arg])
  {
    assert ident + " = ?" == ident + " = " + "?";
  }

  predicate RowOf(binds: seq<Bind>, cols: seq<string>, placeholders: seq<string>, disp: seq<string>, args: seq<Datum>) {
    cols == Idents(binds) && placeholders == Cells(binds, false) && disp == Cells(binds, true) && args == Args(binds)
  }

  lemma RowSnoc(binds: seq<Bind>, cols: seq<string>, placeholders: seq<string>, disp: seq<string>, args: seq<Datum>, b: Bind)
    requires RowOf(binds, cols, placeholders, disp, args)
    ensures RowOf(binds + [b], cols + [QuotedIdent(b.column)], placeholders + ["?"], disp + [Cell(b, true)], args + [b.arg])
  {
  }

  // The checks the loops of BuildInsert and BuildUpdate make of a column.
  method BindColumn(lib: Library, idx: map<string, Column>, name: string, v: Value, insert: bool)
    returns (r: Result<Bind, Error>)
    ensures r == BindName(lib, idx, name, v, insert)
  {
    if name !in idx {
      return Err(UnknownColumn(name));
    }
    var col := idx[name];
    if (insert && UnsupportedType(col.cqlType)) || (!insert && !Editable(col)) {
      return Err(UnsupportedColumn(name));
    }
    match Coerce(lib, col.cqlType, v) {
      case Err(problem) => return Err(BadColumn(name, problem));
      case Ok(arg) => return Ok(Bind(name, col.cqlType, v, arg));
    }
  }

  method BindKeyColumn(lib: Library, c: Column, pk: map<string, Value>) returns (r: Result<Bind, Error>)
    ensures r == BindKey(lib, c, pk) && (r.Ok? ==> r.value.column == c.name && r.value.cqlType == c.cqlType)
  {
    var v := if c.name in pk then pk[c.name] else Null;
    match Coerce(lib, c.cqlType, v) {
      case Err(problem) => return Err(BadKey(c.name, problem));
      case Ok(arg) => return Ok(Bind(c.name, c.cqlType, v, arg));
    }
  }

  // One round of the loop of buildWhere.
  lemma KeysStep(lib: Library, cols: seq<Column>, i: nat, pk: map<string, Value>, keys: seq<Bind>)
    requires i < |cols| && BindKeys(lib, cols[..i], pk) == Ok(keys)
    ensures BindKeys(lib, cols[..i + 1], pk) ==
            (match BindKey(lib, cols[i], pk)
             case Err(e) => Err(e)
             case Ok(b) => Ok(keys + [b]))
  {
    assert cols[..i + 1][..i] == cols[..i];
  }

  lemma NamesStep(lib: Library, idx: map<string, Column>, names: seq<string>, i: nat, row: map<string, Value>,
                  insert: bool, binds: seq<Bind>)
    requires i < |names| && BindNames(lib, idx, names[..i], row, insert) == Ok(binds)
    ensures BindNames(lib, idx, names[..i + 1], row, insert) ==
            (match BindName(lib, idx, names[i], Lookup(row, names[i]), insert)
             case Err(e) => Err(e)
             case Ok(b) => Ok(binds + [b]))
  {
    assert names[..i + 1][..i] == names[..i];
  }

  // `r` is the clause of these columns, or the error that kept them from being bound.
  predicate ClauseResult(r: Result<(string, seq<Datum>, string), Error>, binds: Result<seq<Bind>, Error>, sep: string) {
    match binds
    case Err(e) => r == Err(e)
    case Ok(bs) => r == Ok((Join(Clauses(bs, false), sep), Args(bs), Join(Clauses(bs, true), sep)))
  }

  method BuildWhere(lib: Library, td: TableDetail, pk: map<string, Value>)
    returns (r: Result<(string, seq<Datum>, string), Error>)
    ensures ClauseResult(r, BindKeys(lib, KeyColumns(td), pk), " AND ")
  {
    var pkCols := PrimaryKeyColumns(td);
    var clauses, disp, args := [], [], [];
    ghost var keys: seq<Bind> := [];
    for i := 0 to |pkCols|
      invariant BindKeys(lib, pkCols[..i], pk) == Ok(keys) && ClausesOf(keys, clauses, disp, args)
    {
      var c := pkCols[i];
      KeysStep(lib, pkCols, i, pk, keys);
      var b := BindKeyColumn(lib, c, pk);
      if b.Err? {
        KeyErrorStays(lib, pkCols, i + 1, pk);
        return Err(b.error);
      }
      var name := QuoteIdent(c.name);
      ClausesSnoc(keys, clauses, disp, args, b.value, name);
      keys, clauses := keys + [b.value], clauses + [name + " = ?"];
      disp, args := disp + [name + " = " + DisplayLiteral(c.cqlType, b.value.value)], args + [b.value.arg];
    }
    assert pkCols[..|pkCols|] == pkCols;
    return Ok((Join(clauses, " AND "), args, Join(disp, " AND ")));
  }

  method BuildInsert(lib: Library, td: TableDetail, op: Op) returns (r: Result<Statement, Error>)
    ensures r == Compiled(td, PlanInsert(lib, td, op))
  {
    var idx := ColumnIndex(td);
    var full := MergeRow(op);
    var keyCols := PrimaryKeyColumns(td);
    var missing := FirstMissing(keyCols, full, true);
    if missing.Some? {
      return Err(IncompletePK(missing.value));
    }
    var values := BuildValues(lib, idx, full);
    if values.Err? {
      return Err(values.error);
    }
    var table := QuoteTable(td);
    var (cols, placeholders, args, disp) := values.value;
    var cql := "INSERT INTO " + table + " (" + Join(cols, ", ") + ") VALUES (" + Join(placeholders, ", ") + ")";
    var display := "INSERT INTO " + table + " (" + Join(cols, ", ") + ") VALUES (" + Join(disp, ", ") + ")";
    return Ok(Statement(cql, args, display));
  }

  predicate RowResult(r: Result<(seq<string>, seq<string>, seq<Datum>, seq<string>), Error>, binds: Result<seq<Bind>, Error>) {
    match binds
    case Err(e) => r == Err(e)
    case Ok(bs) => r == Ok((Idents(bs), Cells(bs, false), Args(bs), Cells(bs, true)))
  }

  // The loop of BuildInsert over the columns of the row.
  method BuildValues(lib: Library, idx: map<string, Column>, full: map<string, Value>)
    returns (r: Result<(seq<string>, seq<string>, seq<Datum>, seq<string>), Error>)
    ensures RowResult(r, BindNames(lib, idx, NameOrder.SortedSet(full.Keys), full, true))
  {
    var names := NameOrder.SortedKeys(full);
    var cols, placeholders, args, disp := [], [], [], [];
    ghost var row: seq<Bind> := [];
    for i := 0 to |names|
      invariant BindNames(lib, idx, names[..i], full, true) == Ok(row) && RowOf(row, cols, placeholders, disp, args)
    {
      var name := names[i];
      NameInMap(full, names, i);
      NamesStep(lib, idx, names, i, full, true, row);
      var b := BindColumn(lib, idx, name, full[name], true);
      if b.Err? {
        NameErrorStays(lib, idx, names, i + 1, full, true);
        return Err(b.error);
      }
      var ident := QuoteIdent(name);
      RowSnoc(row, cols, placeholders, disp, args, b.value);
      row, cols, placeholders := row + [b.value], cols + [ident], placeholders + ["?"];
      args, disp := args + [b.value.arg], disp + [DisplayLiteral(b.value.cqlType, full[name])];
    }
    assert names[..|names|] == names;
    return Ok((cols, placeholders, args, disp));
  }

  method QuoteTable(td: TableDetail) returns (text: string)
    ensures text == TableName(td)
  {
    var ks := QuoteIdent(td.keyspace);
    var name := QuoteIdent(td.name);
    text := ks + "." + name;
  }

  lemma NameInMap(m: map<string, Value>, names: seq<string>, i: nat)
    requires names == NameOrder.SortedSet(m.Keys) && i < |names|
    ensures names[i] in m
  {
    NameOrder.SortedSetRises(m.Keys);
    assert names[i] in names;
  }

  method BuildUpdate(lib: Library, td: TableDetail, op: Op) returns (r: Result<Statement, Error>)
    ensures r == Compiled(td, PlanUpdate(lib, td, op))
  {
    var idx := ColumnIndex(td);
    var keyCols := PrimaryKeyColumns(td);
    var missing := FirstMissing(keyCols, op.pk, false);
    if missing.Some? {
      return Err(IncompletePK(missing.value));
    }
    if |op.changes| == 0 {
      return Err(NoChanges);
    }
    var sets := BuildSet(lib, idx, op.changes);
    if sets.Err? {
      return Err(sets.error);
    }
    var where := BuildWhere(lib, td, op.pk);
    if where.Err? {
      return Err(where.error);
    }
    var table := QuoteTable(td);
    var cql := "UPDATE " + table + " SET " + sets.value.0 + " WHERE " + where.value.0;
    var display := "UPDATE " + table + " SET " + sets.value.2 + " WHERE " + where.value.2;
    return Ok(Statement(cql, sets.value.1 + where.value.1, display));
  }

  // The loop of BuildUpdate over the changed columns.
  method BuildSet(lib: Library, idx: map<string, Column>, changes: map<string, Value>)
    returns (r: Result<(string, seq<Datum>, string), Error>)
    ensures ClauseResult(r, BindNames(lib, idx, NameOrder.SortedSet(changes.Keys), changes, false), ", ")
  {
    var names := NameOrder.SortedKeys(changes);
    var clauses, disp, args := [], [], [];
    ghost var sets: seq<Bind> := [];
    for i := 0 to |names|
      invariant BindNames(lib, idx, names[..i], changes, false) == Ok(sets) && ClausesOf(sets, clauses, disp, args)
    {
      var name := names[i];
      NameInMap(changes, names, i);
      NamesStep(lib, idx, names, i, changes, false, sets);
      var b := BindColumn(lib, idx, name, changes[name], false);
      if b.Err? {
        NameErrorStays(lib, idx, names, i + 1, changes, false);
        return Err(b.error);
      }
      var ident := QuoteIdent(name);
      ClausesSnoc(sets, clauses, disp, args, b.value, ident);
      sets, clauses := sets + [b.value], clauses + [ident + " = ?"];
      disp, args := disp + [ident + " = " + DisplayLiteral(b.value.cqlType, changes[name])], args + [b.value.arg];
    }
    assert names[..|names|] == names;
    return Ok((Join(clauses, ", "), args, Join(disp, ", ")));
  }

  method BuildDelete(lib: Library, td: TableDetail, op: Op) returns (r: Result<Statement, Error>)
    ensures r == Compiled(td, PlanDelete(lib, td, op))
  {
    var keyCols := PrimaryKeyColumns(td);
    var missing := FirstMissing(keyCols, op.pk, false);
    if missing.Some? {
      return Err(IncompletePK(missing.value));
    }
    var where := BuildWhere(lib, td, op.pk);
    if where.Err? {
      return Err(where.error);
    }
    var table := QuoteTable(td);
    var cql := "DELETE FROM " + table + " WHERE " + where.value.0;
    var display := "DELETE FROM " + table + " WHERE " + where.value.2;
    return Ok(Statement(cql, where.value.1, display));
  }
}
