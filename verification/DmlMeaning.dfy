/** What the statements of an edit do to a table: read as CQL, with their arguments bound, they touch the one row
    whose full primary key the edit names. */
module DmlMeaning {
  import opened Sequences
  import opened Options
  import opened Quoting
  import opened Coercion
  import opened Texts
  import opened TableSchema
  import opened Dml
  import opened DmlReading
  import opened DmlRoundTrip
  import NameOrder

  // ----- tables, and what a statement means -----

  /** The values of the key columns, in key order. */
  type Key = seq<Datum>

  type Row = map<string, Datum>

  type Table = map<Key, Row>

  datatype Assignment = Assignment(column: string, arg: Datum)

  datatype Bound = BoundInsert(row: seq<Assignment>) | BoundUpdate(changes: seq<Assignment>, where: seq<Assignment>)
    | BoundDelete(where: seq<Assignment>)

  function Zip(names: seq<string>, args: seq<Datum>): (r: seq<Assignment>)
    requires |names| == |args|
    ensures |r| == |names|
  {
    seq(|names|, i requires 0 <= i < |names| => Assignment(names[i], args[i]))
  }

  function PairColumns(pairs: seq<Pair>): (r: seq<string>)
    ensures |r| == |pairs|
  {
    seq(|pairs|, i requires 0 <= i < |pairs| => pairs[i].column)
  }

  predicate AllPlaceholders(pairs: seq<Pair>) {
    forall p :: p in pairs ==> p.literal == Placeholder
  }

  /** The arguments take the places of the placeholders in order; `None` if they are not equally many. */
  function BindArgs(ast: Ast, args: seq<Datum>): Option<Bound> {
    match ast
    case InsertAst(_, _, columns, values) =>
      if |columns| == |values| == |args| && (forall v :: v in values ==> v == Placeholder)
      then Some(BoundInsert(Zip(columns, args))) else None
    case UpdateAst(_, _, changes, where) =>
      if |changes| + |where| == |args| && AllPlaceholders(changes) && AllPlaceholders(where)
      then Some(BoundUpdate(Zip(PairColumns(changes), args[..|changes|]), Zip(PairColumns(where), args[|changes|..])))
      else None
    case DeleteAst(_, _, where) =>
      if |where| == |args| && AllPlaceholders(where) then Some(BoundDelete(Zip(PairColumns(where), args))) else None
  }

  function Find(assignments: seq<Assignment>, column: string): Option<Datum> {
    if assignments == [] then None
    else if assignments[0].column == column then Some(assignments[0].arg)
    else Find(assignments[1..], column)
  }

  /** The key has the values the clause asks of it. */
  predicate Matches(names: seq<string>, where: seq<Assignment>, key: Key) {
    |key| == |names| && forall a :: a in where ==> Find(Zip(names, key), a.column) == Some(a.arg)
  }

  /** The one key of assignments that give every key column a value. */
  function FullKey(names: seq<string>, assignments: seq<Assignment>): Option<Key> {
    if names == [] then Some([])
    else match FullKey(names[..|names| - 1], assignments)
      case None => None
      case Some(key) =>
        match Find(assignments, names[|names| - 1])
        case None => None
        case Some(v) => Some(key + [v])
  }

  function Assign(row: Row, assignments: seq<Assignment>): Row {
    if assignments == [] then row
    else
      var last := assignments[|assignments| - 1];
      Assign(row, assignments[..|assignments| - 1])[last.column := last.arg]
  }

  function RowAt(t: Table, key: Key): Row {
    if key in t then t[key] else map[]
  }

  function NonKey(names: seq<string>, assignments: seq<Assignment>): seq<Assignment> {
    if assignments == [] then []
    else
      var last := assignments[|assignments| - 1];
      NonKey(names, assignments[..|assignments| - 1]) + (if last.column in names then [] else [last])
  }

  /** The table after the statement.  `names` are the key columns.  INSERT and UPDATE need the full key and write
      that row whether or not it exists; DELETE removes every row that matches. */
  function Exec(names: seq<string>, s: Bound, t: Table): Option<Table> {
    match s
    case BoundInsert(row) =>
      (match FullKey(names, row)
       case None => None
       case Some(key) => Some(t[key := Assign(RowAt(t, key), NonKey(names, row))]))
    case BoundUpdate(changes, where) =>
      if |where| != |names| then None
      else
        (match FullKey(names, where)
         case None => None
         case Some(key) => Some(t[key := Assign(RowAt(t, key), changes)]))
    case BoundDelete(where) => Some(map key | key in t && !Matches(names, where, key) :: t[key])
  }

  /** The effect of the text and arguments handed to the database. */
  function Effect(names: seq<string>, cql: string, args: seq<Datum>, t: Table): Option<Table> {
    match ReadStatement(cql)
    case None => None
    case Some(ast) =>
      match BindArgs(ast, args)
      case None => None
      case Some(s) => Exec(names, s, t)
  }

  // ----- the key an edit names -----

  function KeyNames(td: TableDetail): seq<string> {
    Names(KeyColumns(td))
  }

  function Converted(lib: Library, cqlType: string, v: Value): Datum {
    match Coerce(lib, cqlType, v)
    case Ok(d) => d
    case Err(_) => NoValue
  }

  /** The values an edit gives the key columns, converted, in key order. */
  function KeyOf(lib: Library, cols: seq<Column>, pk: map<string, Value>): (r: Key)
    ensures |r| == |cols|
  {
    seq(|cols|, i requires 0 <= i < |cols| => Converted(lib, cols[i].cqlType, Lookup(pk, cols[i].name)))
  }

  predicate NoRepeat(names: seq<string>) {
    names == [] || (names[0] !in names[1..] && NoRepeat(names[1..]))
  }

  lemma BindsSnoc(binds: seq<Bind>, b: Bind)
    ensures Columns(binds + [b]) == Columns(binds) + [b.column] && Args(binds + [b]) == Args(binds) + [b.arg]
  {
  }

  lemma KeyOfSnoc(lib: Library, front: seq<Column>, last: Column, pk: map<string, Value>)
    ensures KeyOf(lib, front + [last], pk) == KeyOf(lib, front, pk) + [Converted(lib, last.cqlType, Lookup(pk, last.name))]
  {
  }

  lemma NamesSnoc(front: seq<Column>, last: Column)
    ensures Names(front + [last]) == Names(front) + [last.name]
  {
  }

  /** The WHERE clause binds each key column exactly once, in key order, to the value the edit gives it. */
  lemma {:induction false} WhereIsKey(lib: Library, cols: seq<Column>, pk: map<string, Value>)
    requires BindKeys(lib, cols, pk).Ok?
    ensures var keys := BindKeys(lib, cols, pk).value; Columns(keys) == Names(cols) && Args(keys) == KeyOf(lib, cols, pk)
    decreases |cols|
  {
    if cols != [] {
      var front, last := cols[..|cols| - 1], cols[|cols| - 1];
      WhereIsKey(lib, front, pk);
      var keys := BindKeys(lib, front, pk).value;
      var b := BindKey(lib, last, pk).value;
      FrontLast(cols);
      KeyOfSnoc(lib, front, last, pk);
      NamesSnoc(front, last);
      BindsSnoc(keys, b);
    }
  }

  lemma LastBound(lib: Library, idx: map<string, Column>, names: seq<string>, row: map<string, Value>, insert: bool)
    returns (front: seq<Bind>, b: Bind)
    requires names != [] && BindNames(lib, idx, names, row, insert).Ok?
    ensures BindNames(lib, idx, names[..|names| - 1], row, insert) == Ok(front)
    ensures BindName(lib, idx, names[|names| - 1], Lookup(row, names[|names| - 1]), insert) == Ok(b) && b.column == names[|names| - 1]
    ensures BindNames(lib, idx, names, row, insert).value == front + [b]
  {
    var last := names[|names| - 1];
    front := BindNames(lib, idx, names[..|names| - 1], row, insert).value;
    b := BindName(lib, idx, last, Lookup(row, last), insert).value;
  }

  /** The columns set are those named, in order. */
  lemma {:induction false} SetIsNamed(lib: Library, idx: map<string, Column>, names: seq<string>, row: map<string, Value>,
                                      insert: bool, binds: seq<Bind>)
    requires BindNames(lib, idx, names, row, insert) == Ok(binds)
    ensures Columns(binds) == names
    decreases |names|
  {
    if names != [] {
      var front, b := LastBound(lib, idx, names, row, insert);
      SetIsNamed(lib, idx, names[..|names| - 1], row, insert, front);
      LastNamed(names, front, b);
    }
  }

  lemma LastNamed(names: seq<string>, front: seq<Bind>, b: Bind)
    requires names != [] && Columns(front) == names[..|names| - 1] && b.column == names[|names| - 1]
    ensures Columns(front + [b]) == names
  {
    BindsSnoc(front, b);
  }

  lemma {:induction false} SetArgAt(lib: Library, idx: map<string, Column>, names: seq<string>, row: map<string, Value>, insert: bool,
                                    i: nat)
    requires BindNames(lib, idx, names, row, insert).Ok? && i < |names|
    ensures |BindNames(lib, idx, names, row, insert).value| == |names| && names[i] in idx
    ensures BindNames(lib, idx, names, row, insert).value[i].arg == Converted(lib, idx[names[i]].cqlType, Lookup(row, names[i]))
    decreases |names|
  {
    var front, b := LastBound(lib, idx, names, row, insert);
    SetIsNamed(lib, idx, names[..|names| - 1], row, insert, front);
    assert |front| == |names| - 1;
    if i < |names| - 1 {
      SetArgAt(lib, idx, names[..|names| - 1], row, insert, i);
    }
  }

  lemma {:induction false} PairsColumns(binds: seq<Bind>, shown: bool)
    ensures PairColumns(Pairs(binds, shown)) == Columns(binds) && (!shown ==> AllPlaceholders(Pairs(binds, shown)))
  {
    if binds != [] {
      PairsColumns(binds[1..], shown);
      var p := Pair(binds[0].column, CellLiteral(binds[0], shown));
      assert PairColumns([p] + Pairs(binds[1..], shown)) == [p.column] + PairColumns(Pairs(binds[1..], shown));
      assert Columns(binds) == [binds[0].column] + Columns(binds[1..]);
    }
  }

  // ----- finding -----

  lemma ZipTail(names: seq<string>, args: seq<Datum>)
    requires |names| == |args| && names != []
    ensures Zip(names, args)[0] == Assignment(names[0], args[0]) && Zip(names, args)[1..] == Zip(names[1..], args[1..])
  {
  }

  // The first assignment to a column counts.
  lemma {:induction false} FindAt(names: seq<string>, args: seq<Datum>, i: nat)
    requires |names| == |args| && i < |names| && names[i] !in names[..i]
    ensures Find(Zip(names, args), names[i]) == Some(args[i])
  {
    ZipTail(names, args);
    if i > 0 {
      assert names[1..][i - 1] == names[i] && args[1..][i - 1] == args[i];
      assert names[..i][0] == names[0] && names[..i][1..] == names[1..][..i - 1];
      assert forall x :: x in names[1..][..i - 1] ==> x in names[..i];
      FindAt(names[1..], args[1..], i - 1);
    }
  }

  lemma {:induction false} NoRepeatBefore(names: seq<string>, i: nat)
    requires NoRepeat(names) && i < |names|
    ensures names[i] !in names[..i]
  {
    if i > 0 {
      assert names[1..][i - 1] == names[i];
      NoRepeatBefore(names[1..], i - 1);
      assert names[..i] == [names[0]] + names[1..][..i - 1];
    }
  }

  // Of assignments to exactly the key columns the key is their values.
  lemma {:induction false} KeyOfAssignments(names: seq<string>, args: seq<Datum>, n: nat)
    requires |names| == |args| && NoRepeat(names) && n <= |names|
    ensures FullKey(names[..n], Zip(names, args)) == Some(args[..n])
    decreases n
  {
    if n > 0 {
      var front := names[..n];
      assert front[..n - 1] == names[..n - 1] && front[n - 1] == names[n - 1];
      KeyOfAssignments(names, args, n - 1);
      NoRepeatBefore(names, n - 1);
      FindAt(names, args, n - 1);
      assert args[..n] == args[..n - 1] + [args[n - 1]];
    }
  }

  /** A clause that binds every key column matches just the key with these values. */
  lemma {:induction false} MatchesOne(names: seq<string>, args: seq<Datum>, key: Key)
    requires |names| == |args| == |key| && NoRepeat(names)
    ensures Matches(names, Zip(names, args), key) <==> key == args
  {
    var where := Zip(names, args);
    if Matches(names, where, key) {
      forall i | 0 <= i < |names| ensures key[i] == args[i] {
        assert where[i] in where;
        NoRepeatBefore(names, i);
        FindAt(names, key, i);
      }
    } else if key == args {
      forall a | a in where ensures Find(Zip(names, key), a.column) == Some(a.arg) {
        var i :| 0 <= i < |where| && where[i] == a;
        NoRepeatBefore(names, i);
        FindAt(names, key, i);
      }
    }
  }

  // ----- assigning -----

  lemma {:induction false} AssignOthers(row: Row, names: seq<string>, args: seq<Datum>, column: string)
    requires |names| == |args| && column !in names
    ensures var r := Assign(row, Zip(names, args));
      (column in r <==> column in row) && (column in row ==> r[column] == row[column])
    decreases |names|
  {
    if names != [] {
      var n := |names| - 1;
      assert Zip(names, args)[..n] == Zip(names[..n], args[..n]);
      assert names[n] in names;
      AssignOthers(row, names[..n], args[..n], column);
    }
  }

  lemma {:induction false} AssignAt(row: Row, names: seq<string>, args: seq<Datum>, i: nat)
    requires |names| == |args| && i < |names| && names[i] !in names[i + 1..]
    ensures var r := Assign(row, Zip(names, args)); names[i] in r && r[names[i]] == args[i]
    decreases |names|
  {
    var n := |names| - 1;
    assert Zip(names, args)[..n] == Zip(names[..n], args[..n]);
    if i < n {
      assert names[i + 1..][n - i - 1] == names[n];
      assert names[..n][i + 1..] == names[i + 1..][..n - i - 1];
      AssignAt(row, names[..n], args[..n], i);
    }
  }

  // ----- the statements of an edit -----

  /** At most the row at `key` differs, and it is there afterwards. */
  ghost predicate OnlyRow(t: Table, u: Table, key: Key) {
    key in u && u.Keys == t.Keys + {key} && forall k :: k in t && k != key ==> u[k] == t[k]
  }

  ghost predicate SameCell(row: Row, later: Row, column: string) {
    (column in later <==> column in row) && (column in row ==> later[column] == row[column])
  }

  /** Exactly these columns were written, each with its value converted for the column's type. */
  ghost predicate Written(lib: Library, idx: map<string, Column>, row: Row, later: Row, changes: map<string, Value>) {
    && (forall c :: c in changes ==> c in idx && c in later && later[c] == Converted(lib, idx[c].cqlType, changes[c]))
    && (forall c :: c !in changes ==> SameCell(row, later, c))
  }

  lemma {:induction false} RisingDistinct(names: seq<string>, i: nat)
    requires NameOrder.Rising(names, NameOrder.Self) && i < |names|
    ensures names[i] !in names[i + 1..]
    decreases |names|
  {
    var n := |names| - 1;
    NameOrder.LessIrreflexive(names[n]);
    if i < n {
      RisingDistinct(names[..n], i);
      assert names[i + 1..] == names[..n][i + 1..] + [names[n]];
      assert names[..n][i] == names[i] && names[i] in names[..n];
    }
  }

  lemma {:induction false} SortedSetAt(names: set<string>, c: string) returns (i: nat)
    requires c in names
    ensures i < |NameOrder.SortedSet(names)| && NameOrder.SortedSet(names)[i] == c
    ensures c !in NameOrder.SortedSet(names)[i + 1..]
  {
    var sorted := NameOrder.SortedSet(names);
    NameOrder.SortedSetRises(names);
    assert c in sorted;
    i :| 0 <= i < |sorted| && sorted[i] == c;
    RisingDistinct(sorted, i);
  }

  lemma {:induction false} SetWrites(lib: Library, idx: map<string, Column>, row: Row, changes: map<string, Value>, binds: seq<Bind>)
    requires BindNames(lib, idx, NameOrder.SortedSet(changes.Keys), changes, false) == Ok(binds)
    ensures Written(lib, idx, row, Assign(row, Zip(Columns(binds), Args(binds))), changes)
  {
    var names := NameOrder.SortedSet(changes.Keys);
    SetIsNamed(lib, idx, names, changes, false, binds);
    NameOrder.SortedSetRises(changes.Keys);
    var later := Assign(row, Zip(names, Args(binds)));
    forall c | c in changes
      ensures c in idx && c in later && later[c] == Converted(lib, idx[c].cqlType, changes[c])
    {
      var i := SortedSetAt(changes.Keys, c);
      AssignAt(row, names, Args(binds), i);
      SetArgAt(lib, idx, names, changes, false, i);
    }
    forall c | c !in changes ensures SameCell(row, later, c) {
      AssignOthers(row, names, Args(binds), c);
    }
  }

  lemma {:induction false} UpdateBinds(td: TableDetail, changes: seq<Bind>, keys: seq<Bind>)
    ensures BindArgs(AstOf(td, Update(changes, keys), false), Args(changes) + Args(keys))
         == Some(BoundUpdate(Zip(Columns(changes), Args(changes)), Zip(Columns(keys), Args(keys))))
  {
    var args := Args(changes) + Args(keys);
    PairsColumns(changes, false);
    PairsColumns(keys, false);
    assert args[..|changes|] == Args(changes) && args[|changes|..] == Args(keys);
  }

  lemma EffectIs(names: seq<string>, cql: string, args: seq<Datum>, ast: Ast, b: Bound, t: Table)
    requires ReadStatement(cql) == Some(ast) && BindArgs(ast, args) == Some(b)
    ensures Effect(names, cql, args, t) == Exec(names, b, t)
  {
  }

  lemma {:induction false} UpdateExec(names: seq<string>, key: Key, sets: seq<Assignment>, t: Table)
    requires |names| == |key| && NoRepeat(names)
    ensures Exec(names, BoundUpdate(sets, Zip(names, key)), t) == Some(t[key := Assign(RowAt(t, key), sets)])
  {
    KeyOfAssignments(names, key, |names|);
    assert names[..|names|] == names && key[..|names|] == key;
  }

  lemma UpdatePlanned(lib: Library, td: TableDetail, op: Op, p: Plan)
    requires PlanUpdate(lib, td, op) == Ok(p)
    ensures p.Update? && BindKeys(lib, KeyColumns(td), op.pk) == Ok(p.keys)
    ensures BindNames(lib, Index(td.columns), NameOrder.SortedSet(op.changes.Keys), op.changes, false) == Ok(p.changes)
  {
  }

  lemma {:induction false} UpdateEffect(lib: Library, td: TableDetail, op: Op, p: Plan, t: Table)
    requires op.kind == "update" && PlanUpdate(lib, td, op) == Ok(p) && p.Update? && NoRepeat(KeyNames(td))
    ensures var sets, key := Zip(Columns(p.changes), Args(p.changes)), KeyOf(lib, KeyColumns(td), op.pk);
      Effect(KeyNames(td), PlanText(td, p, false), PlanArgs(p), t) == Some(t[key := Assign(RowAt(t, key), sets)])
  {
    var names, key := KeyNames(td), KeyOf(lib, KeyColumns(td), op.pk);
    var sets := Zip(Columns(p.changes), Args(p.changes));
    UpdatePlanned(lib, td, op, p);
    ReadsBack(lib, td, op, p, false);
    UpdateBinds(td, p.changes, p.keys);
    WhereIsKey(lib, KeyColumns(td), op.pk);
    EffectIs(names, PlanText(td, p, false), PlanArgs(p), AstOf(td, p, false), BoundUpdate(sets, Zip(names, key)), t);
    UpdateExec(names, key, sets, t);
  }

  lemma RowReplaced(t: Table, key: Key, later: Row)
    ensures OnlyRow(t, t[key := later], key) && t[key := later][key] == later
  {
  }

  /** An accepted UPDATE writes only the row whose full primary key is the edit's, and in it exactly the columns of
      the edit's changes. */
  lemma {:induction false} UpdateHitsOneRow(lib: Library, td: TableDetail, op: Op, p: Plan, t: Table)
    requires op.kind == "update" && PlanUpdate(lib, td, op) == Ok(p) && NoRepeat(KeyNames(td))
    ensures var e, key := Effect(KeyNames(td), PlanText(td, p, false), PlanArgs(p), t), KeyOf(lib, KeyColumns(td), op.pk);
      e.Some? && OnlyRow(t, e.value, key) && Written(lib, Index(td.columns), RowAt(t, key), e.value[key], op.changes)
  {
    var key := KeyOf(lib, KeyColumns(td), op.pk);
    UpdatePlanned(lib, td, op, p);
    UpdateEffect(lib, td, op, p, t);
    var later := Assign(RowAt(t, key), Zip(Columns(p.changes), Args(p.changes)));
    SetWrites(lib, Index(td.columns), RowAt(t, key), op.changes, p.changes);
    RowReplaced(t, key, later);
  }

  /** The table's keys have a value for each key column. */
  ghost predicate Keyed(names: seq<string>, t: Table) {
    forall key :: key in t ==> |key| == |names|
  }

  lemma {:induction false} DeleteExec(names: seq<string>, key: Key, t: Table)
    requires |names| == |key| && NoRepeat(names) && Keyed(names, t)
    ensures Exec(names, BoundDelete(Zip(names, key)), t) == Some(t - {key})
  {
    forall k | k in t ensures Matches(names, Zip(names, key), k) <==> k == key {
      MatchesOne(names, key, k);
    }
    assert (map k | k in t && !Matches(names, Zip(names, key), k) :: t[k]) == t - {key};
  }

  lemma {:induction false} DeleteBinds(td: TableDetail, keys: seq<Bind>)
    ensures BindArgs(AstOf(td, Delete(keys), false), Args(keys)) == Some(BoundDelete(Zip(Columns(keys), Args(keys))))
  {
    PairsColumns(keys, false);
  }

  lemma DeletePlanned(lib: Library, td: TableDetail, op: Op, p: Plan)
    requires PlanDelete(lib, td, op) == Ok(p)
    ensures p.Delete? && BindKeys(lib, KeyColumns(td), op.pk) == Ok(p.keys)
  {
  }

  /** An accepted DELETE removes the row whose full primary key is the edit's, and no other. */
  lemma {:induction false} DeleteHitsOneRow(lib: Library, td: TableDetail, op: Op, p: Plan, t: Table)
    requires op.kind == "delete" && PlanDelete(lib, td, op) == Ok(p) && NoRepeat(KeyNames(td)) && Keyed(KeyNames(td), t)
    ensures Effect(KeyNames(td), PlanText(td, p, false), PlanArgs(p), t) == Some(t - {KeyOf(lib, KeyColumns(td), op.pk)})
  {
    var names, key := KeyNames(td), KeyOf(lib, KeyColumns(td), op.pk);
    DeletePlanned(lib, td, op, p);
    ReadsBack(lib, td, op, p, false);
    DeleteBinds(td, p.keys);
    WhereIsKey(lib, KeyColumns(td), op.pk);
    EffectIs(names, PlanText(td, p, false), PlanArgs(p), AstOf(td, p, false), BoundDelete(Zip(names, key)), t);
    DeleteExec(names, key, t);
  }

  // ----- inserts -----

  /** No two columns share a name. */
  ghost predicate NamedOnce(td: TableDetail) {
    forall c :: c in td.columns ==> c.name in Index(td.columns) && Index(td.columns)[c.name] == c
  }

  lemma KeyColumnIn(td: TableDetail, c: Column)
    requires c in KeyColumns(td)
    ensures c in td.columns
  {
    KindHas(td.columns, PartitionKey, c);
    KindHas(td.columns, Clustering, c);
  }

  lemma {:induction false} NothingMissing(cols: seq<Column>, row: map<string, Value>, nullCounts: bool, c: Column)
    requires Missing(cols, row, nullCounts) == None && c in cols
    ensures c.name in row && (!nullCounts ==> row[c.name] != Null)
    decreases |cols|
  {
    if c != cols[|cols| - 1] {
      assert c in cols[..|cols| - 1];
      NothingMissing(cols[..|cols| - 1], row, nullCounts, c);
    }
  }

  lemma {:induction false} RisingBefore(names: seq<string>, i: nat)
    requires NameOrder.Rising(names, NameOrder.Self) && i < |names|
    ensures names[i] !in names[..i]
    decreases |names|
  {
    if i == |names| - 1 {
      NameOrder.LessIrreflexive(names[i]);
    } else {
      RisingBefore(names[..|names| - 1], i);
      assert names[..|names| - 1][..i] == names[..i];
    }
  }

  // The row of an INSERT gives a key column the value its edit does.
  lemma {:induction false} RowFinds(lib: Library, idx: map<string, Column>, full: map<string, Value>, row: seq<Bind>, name: string)
    requires BindNames(lib, idx, NameOrder.SortedSet(full.Keys), full, true) == Ok(row) && name in full
    ensures name in idx
    ensures Find(Zip(Columns(row), Args(row)), name) == Some(Converted(lib, idx[name].cqlType, full[name]))
  {
    var sorted := NameOrder.SortedSet(full.Keys);
    SetIsNamed(lib, idx, sorted, full, true, row);
    var i := SortedSetAt(full.Keys, name);
    SetArgAt(lib, idx, sorted, full, true, i);
    NameOrder.SortedSetRises(full.Keys);
    RisingBefore(sorted, i);
    FindAt(sorted, Args(row), i);
  }

  lemma FullKeySnoc(names: seq<string>, name: string, assignments: seq<Assignment>)
    requires FullKey(names, assignments).Some? && Find(assignments, name).Some?
    ensures FullKey(names + [name], assignments) == Some(FullKey(names, assignments).value + [Find(assignments, name).value])
  {
    assert (names + [name])[..|names|] == names;
  }

  ghost predicate KeyGiven(idx: map<string, Column>, cols: seq<Column>, full: map<string, Value>) {
    forall c :: c in cols ==> c.name in full && c.name in idx && idx[c.name] == c
  }

  lemma {:induction false} RowKey(lib: Library, idx: map<string, Column>, cols: seq<Column>, full: map<string, Value>, row: seq<Bind>)
    requires BindNames(lib, idx, NameOrder.SortedSet(full.Keys), full, true) == Ok(row) && KeyGiven(idx, cols, full)
    ensures FullKey(Names(cols), Zip(Columns(row), Args(row))) == Some(KeyOf(lib, cols, full))
    decreases |cols|
  {
    if cols != [] {
      var front, last := cols[..|cols| - 1], cols[|cols| - 1];
      assert last in cols && forall c :: c in front ==> c in cols;
      RowKey(lib, idx, front, full, row);
      RowFinds(lib, idx, full, row, last.name);
      FrontLast(cols);
      RowKeySnoc(lib, front, last, full, Zip(Columns(row), Args(row)));
    }
  }

  lemma {:induction false} RowKeySnoc(lib: Library, front: seq<Column>, last: Column, full: map<string, Value>, assignments: seq<Assignment>)
    requires FullKey(Names(front), assignments) == Some(KeyOf(lib, front, full))
    requires Find(assignments, last.name) == Some(Converted(lib, last.cqlType, Lookup(full, last.name)))
    ensures FullKey(Names(front + [last]), assignments) == Some(KeyOf(lib, front + [last], full))
  {
    KeyOfSnoc(lib, front, last, full);
    NamesSnoc(front, last);
    FullKeySnoc(Names(front), last.name, assignments);
  }

  lemma {:induction false} AssignNonKey(names: seq<string>, row: Row, assignments: seq<Assignment>, c: string)
    ensures var r := Assign(row, NonKey(names, assignments));
      c in names ==> SameCell(row, r, c)
    ensures var r, all := Assign(row, NonKey(names, assignments)), Assign(row, assignments);
      c !in names ==> SameCell(all, r, c)
    decreases |assignments|
  {
    if assignments != [] {
      var front, last := assignments[..|assignments| - 1], assignments[|assignments| - 1];
      AssignNonKey(names, row, front, c);
      var kept := NonKey(names, front);
      if last.column !in names {
        assert (kept + [last])[..|kept|] == kept;
      } else {
        assert kept + [] == kept;
      }
    }
  }

  lemma {:induction false} AllWritten(lib: Library, idx: map<string, Column>, row: Row, full: map<string, Value>, binds: seq<Bind>)
    requires BindNames(lib, idx, NameOrder.SortedSet(full.Keys), full, true) == Ok(binds)
    ensures Written(lib, idx, row, Assign(row, Zip(Columns(binds), Args(binds))), full)
  {
    var sorted := NameOrder.SortedSet(full.Keys);
    SetIsNamed(lib, idx, sorted, full, true, binds);
    NameOrder.SortedSetRises(full.Keys);
    var later := Assign(row, Zip(sorted, Args(binds)));
    forall c | c in full ensures c in idx && c in later && later[c] == Converted(lib, idx[c].cqlType, full[c]) {
      var i := SortedSetAt(full.Keys, c);
      AssignAt(row, sorted, Args(binds), i);
      SetArgAt(lib, idx, sorted, full, true, i);
    }
    forall c | c !in full ensures SameCell(row, later, c) {
      AssignOthers(row, sorted, Args(binds), c);
    }
  }

  /** The columns of the edit that are not key columns were written, and no others. */
  ghost predicate NonKeyWritten(lib: Library, td: TableDetail, row: Row, later: Row, full: map<string, Value>) {
    forall c :: if c in full && c !in KeyNames(td)
                then c in Index(td.columns) && c in later && later[c] == Converted(lib, Index(td.columns)[c].cqlType, full[c])
                else SameCell(row, later, c)
  }

  lemma {:induction false} InsertWrites(lib: Library, td: TableDetail, row: Row, full: map<string, Value>, binds: seq<Bind>)
    requires BindNames(lib, Index(td.columns), NameOrder.SortedSet(full.Keys), full, true) == Ok(binds)
    ensures NonKeyWritten(lib, td, row, Assign(row, NonKey(KeyNames(td), Zip(Columns(binds), Args(binds)))), full)
  {
    var names, all := KeyNames(td), Zip(Columns(binds), Args(binds));
    AllWritten(lib, Index(td.columns), row, full, binds);
    var later := Assign(row, NonKey(names, all));
    forall c
      ensures if c in full && c !in names
              then c in Index(td.columns) && c in later && later[c] == Converted(lib, Index(td.columns)[c].cqlType, full[c])
              else SameCell(row, later, c)
    {
      AssignNonKey(names, row, all, c);
    }
  }

  lemma InsertPlanned(lib: Library, td: TableDetail, op: Op, p: Plan)
    requires PlanInsert(lib, td, op) == Ok(p)
    ensures p.Insert? && Missing(KeyColumns(td), op.pk + op.changes, true) == None
    ensures BindNames(lib, Index(td.columns), NameOrder.SortedSet((op.pk + op.changes).Keys), op.pk + op.changes, true) == Ok(p.row)
  {
  }

  lemma {:induction false} LiteralsMarks(binds: seq<Bind>)
    ensures forall v :: v in Literals(binds, false) ==> v == Placeholder
  {
    if binds != [] {
      LiteralsMarks(binds[1..]);
    }
  }

  lemma {:induction false} InsertBinds(td: TableDetail, row: seq<Bind>)
    ensures BindArgs(AstOf(td, Insert(row), false), Args(row)) == Some(BoundInsert(Zip(Columns(row), Args(row))))
  {
    LiteralsMarks(row);
  }

  lemma {:induction false} InsertEffect(lib: Library, td: TableDetail, op: Op, p: Plan, t: Table)
    requires op.kind == "insert" && PlanInsert(lib, td, op) == Ok(p) && p.Insert? && NamedOnce(td)
    ensures var key, names := KeyOf(lib, KeyColumns(td), op.pk + op.changes), KeyNames(td);
      Effect(names, PlanText(td, p, false), PlanArgs(p), t)
        == Some(t[key := Assign(RowAt(t, key), NonKey(names, Zip(Columns(p.row), Args(p.row))))])
  {
    var full, names, all := op.pk + op.changes, KeyNames(td), Zip(Columns(p.row), Args(p.row));
    InsertPlanned(lib, td, op, p);
    ReadsBack(lib, td, op, p, false);
    InsertBinds(td, p.row);
    forall c | c in KeyColumns(td) ensures c.name in full && c.name in Index(td.columns) && Index(td.columns)[c.name] == c {
      KeyColumnIn(td, c);
      NothingMissing(KeyColumns(td), full, true, c);
    }
    RowKey(lib, Index(td.columns), KeyColumns(td), full, p.row);
    EffectIs(names, PlanText(td, p, false), PlanArgs(p), AstOf(td, p, false), BoundInsert(all), t);
  }

  /** An accepted INSERT writes only the row whose key its columns give, and in it exactly the other columns. */
  lemma {:induction false} InsertHitsOneRow(lib: Library, td: TableDetail, op: Op, p: Plan, t: Table)
    requires op.kind == "insert" && PlanInsert(lib, td, op) == Ok(p) && NamedOnce(td)
    ensures var full := op.pk + op.changes;
      var e, key := Effect(KeyNames(td), PlanText(td, p, false), PlanArgs(p), t), KeyOf(lib, KeyColumns(td), full);
      e.Some? && OnlyRow(t, e.value, key) && NonKeyWritten(lib, td, RowAt(t, key), e.value[key], full)
  {
    var full := op.pk + op.changes;
    var key := KeyOf(lib, KeyColumns(td), full);
    InsertPlanned(lib, td, op, p);
    InsertEffect(lib, td, op, p, t);
    var later := Assign(RowAt(t, key), NonKey(KeyNames(td), Zip(Columns(p.row), Args(p.row))));
    InsertWrites(lib, td, RowAt(t, key), full, p.row);
    RowReplaced(t, key, later);
  }

  // ----- null keys -----

  lemma NeverNoValue(lib: Library, base: BaseType, v: Value)
    requires CoerceBase(lib, base, v).Ok?
    ensures CoerceBase(lib, base, v).value != NoValue
  {
  }

  lemma OnlyNullIsNoValue(lib: Library, cqlType: string, v: Value)
    requires Coerce(lib, cqlType, v).Ok?
    ensures Converted(lib, cqlType, v) == NoValue <==> v == Null
  {
    if v != Null {
      NeverNoValue(lib, BaseOf(cqlType), v);
    }
  }

  /** The key of an accepted UPDATE or DELETE has a value for every key column. */
  lemma {:induction false} KeyIsComplete(lib: Library, cols: seq<Column>, pk: map<string, Value>)
    requires Missing(cols, pk, false) == None && BindKeys(lib, cols, pk).Ok?
    ensures NoValue !in KeyOf(lib, cols, pk)
    decreases |cols|
  {
    if cols != [] {
      var front, last := cols[..|cols| - 1], cols[|cols| - 1];
      LastOfKey(lib, cols, pk);
      KeyIsComplete(lib, front, pk);
      LastKeyComplete(lib, last, pk);
      KeySnocComplete(lib, front, last, pk);
      FrontLast(cols);
    }
  }

  lemma LastOfKey(lib: Library, cols: seq<Column>, pk: map<string, Value>)
    requires cols != [] && Missing(cols, pk, false) == None && BindKeys(lib, cols, pk).Ok?
    ensures var front, last := cols[..|cols| - 1], cols[|cols| - 1];
      && Missing(front, pk, false) == None && BindKeys(lib, front, pk).Ok?
      && Lookup(pk, last.name) != Null && BindKey(lib, last, pk).Ok?
  {
  }

  lemma KeySnocComplete(lib: Library, front: seq<Column>, last: Column, pk: map<string, Value>)
    requires NoValue !in KeyOf(lib, front, pk) && Converted(lib, last.cqlType, Lookup(pk, last.name)) != NoValue
    ensures NoValue !in KeyOf(lib, front + [last], pk)
  {
    KeyOfSnoc(lib, front, last, pk);
  }

  lemma LastKeyComplete(lib: Library, c: Column, pk: map<string, Value>)
    requires Lookup(pk, c.name) != Null && BindKey(lib, c, pk).Ok?
    ensures Converted(lib, c.cqlType, Lookup(pk, c.name)) != NoValue
  {
    OnlyNullIsNoValue(lib, c.cqlType, Lookup(pk, c.name));
  }

  /** An INSERT with a null key is accepted: only the presence of the key columns is checked, so the key has a value
      for every key column exactly if the edit gives none of them null. */
  lemma {:induction false} InsertKeyComplete(lib: Library, td: TableDetail, op: Op, p: Plan)
    requires PlanInsert(lib, td, op) == Ok(p) && NamedOnce(td)
    ensures var full := op.pk + op.changes;
      NoValue !in KeyOf(lib, KeyColumns(td), full) <==> forall c :: c in KeyColumns(td) ==> Lookup(full, c.name) != Null
  {
    var full, cols := op.pk + op.changes, KeyColumns(td);
    var key := KeyOf(lib, cols, full);
    InsertPlanned(lib, td, op, p);
    forall i | 0 <= i < |cols| ensures key[i] == NoValue <==> Lookup(full, cols[i].name) == Null {
      assert cols[i] in cols;
      KeyColumnIn(td, cols[i]);
      NothingMissing(cols, full, true, cols[i]);
      NameConverts(lib, Index(td.columns), full, p.row, cols[i].name);
      OnlyNullIsNoValue(lib, cols[i].cqlType, Lookup(full, cols[i].name));
    }
  }

  lemma {:induction false} NameConverts(lib: Library, idx: map<string, Column>, full: map<string, Value>, row: seq<Bind>, name: string)
    requires BindNames(lib, idx, NameOrder.SortedSet(full.Keys), full, true) == Ok(row) && name in full
    ensures name in idx && Coerce(lib, idx[name].cqlType, full[name]).Ok?
  {
    var i := SortedSetAt(full.Keys, name);
    BoundAt(lib, idx, NameOrder.SortedSet(full.Keys), full, row, i);
  }

  lemma {:induction false} BoundAt(lib: Library, idx: map<string, Column>, names: seq<string>, full: map<string, Value>, row: seq<Bind>, i: nat)
    requires BindNames(lib, idx, names, full, true) == Ok(row) && i < |names|
    ensures BindName(lib, idx, names[i], Lookup(full, names[i]), true).Ok?
    decreases |names|
  {
    var front, b := LastBound(lib, idx, names, full, true);
    if i < |names| - 1 {
      BoundAt(lib, idx, names[..|names| - 1], full, front, i);
    }
  }

  const ID := Column("id", "int", PartitionKey, 0, "")

  const ONE_COLUMN := TableDetail("ks", "t", [ID], "", 0, 0, map[], map[], map[], "", "")

  const NULL_ID := Op("insert", map["id" := Null], map[])

  lemma IntIsSupported()
    ensures !UnsupportedType("int")
  {
    TrimUnspaced("int");
    assert Lower("int") == "int";
  }

  lemma OneKeyColumn()
    ensures KeyColumns(ONE_COLUMN) == [ID] && Index(ONE_COLUMN.columns) == map["id" := ID]
  {
    assert [ID][..0] == [];
    assert OfKind([ID], PartitionKey) == [ID] && OfKind([ID], Clustering) == [];
    assert ByPosition([ID]) == [ID] && ByPosition([]) == [];
  }

  lemma OneName(name: string)
    ensures NameOrder.SortedSet({name}) == [name]
  {
    var sorted, one := NameOrder.SortedSet({name}), [name];
    NameOrder.SortedSetRises({name});
    assert one[..0] == [] && NameOrder.Below(one[..0], NameOrder.Self, NameOrder.Self(name));
    assert one == one[..0] + [name];
    NameOrder.RisingSnoc(one[..0], NameOrder.Self, name);
    NameOrder.RisingUnique(sorted, one, NameOrder.Self);
  }

  lemma NullBinds(lib: Library)
    ensures BindNames(lib, map["id" := ID], ["id"], map["id" := Null], true) == Ok([Bind("id", "int", Null, NoValue)])
  {
    var idx, names, row, b := map["id" := ID], ["id"], map["id" := Null], Bind("id", "int", Null, NoValue);
    IntIsSupported();
    assert names[..0] == [] && names[..1] == names && [] + [b] == [b];
    assert BindName(lib, idx, "id", Null, true) == Ok(b);
    NamesStep(lib, idx, names, 0, row, true, []);
  }

  /** For instance, inserting a row whose only column is its key, and null, is accepted. */
  lemma NullKeyAccepted(lib: Library)
    ensures PlanInsert(lib, ONE_COLUMN, NULL_ID).Ok?
    ensures KeyOf(lib, KeyColumns(ONE_COLUMN), NULL_ID.pk + NULL_ID.changes) == [NoValue]
  {
    var full := NULL_ID.pk + NULL_ID.changes;
    assert full == map["id" := Null] && full.Keys == {"id"};
    OneKeyColumn();
    assert [ID][..0] == [] && Missing([ID], full, true) == None;
    OneName("id");
    NullBinds(lib);
  }
}
