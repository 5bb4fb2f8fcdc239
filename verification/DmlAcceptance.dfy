/** Exactly which edits the compiler accepts, and what it says of the others. */
module DmlAcceptance {
  import opened Sequences
  import opened Options
  import opened Coercion
  import opened TableSchema
  import opened Dml
  import NameOrder

  /** The row has something for the column, and not null where that does not count. */
  predicate Given(row: map<string, Value>, c: Column, nullCounts: bool) {
    c.name in row && (nullCounts || row[c.name] != Null)
  }

  ghost predicate AllGiven(cols: seq<Column>, row: map<string, Value>, nullCounts: bool) {
    forall c :: c in cols ==> Given(row, c, nullCounts)
  }

  /** The values of the key columns convert to their types. */
  ghost predicate KeysConvert(lib: Library, cols: seq<Column>, pk: map<string, Value>) {
    forall c :: c in cols ==> Coerce(lib, c.cqlType, Lookup(pk, c.name)).Ok?
  }

  /** The column is known, of a type that can be written, and its value converts. */
  predicate Writable(lib: Library, idx: map<string, Column>, name: string, v: Value, insert: bool) {
    && name in idx
    && (if insert then !UnsupportedType(idx[name].cqlType) else Editable(idx[name]))
    && Coerce(lib, idx[name].cqlType, v).Ok?
  }

  ghost predicate AllWritable(lib: Library, idx: map<string, Column>, row: map<string, Value>, insert: bool) {
    forall name :: name in row ==> Writable(lib, idx, name, row[name], insert)
  }

  lemma {:induction false} MissingExactly(cols: seq<Column>, row: map<string, Value>, nullCounts: bool)
    ensures Missing(cols, row, nullCounts) == None <==> AllGiven(cols, row, nullCounts)
    ensures Missing(cols, row, nullCounts).Some? ==>
      exists c :: c in cols && c.name == Missing(cols, row, nullCounts).value && !Given(row, c, nullCounts)
    decreases |cols|
  {
    if cols != [] {
      var front, last := cols[..|cols| - 1], cols[|cols| - 1];
      FrontLast(cols);
      assert last in cols;
      MissingExactly(front, row, nullCounts);
      assert forall c :: c in cols <==> c in front || c == last;
    }
  }

  lemma {:induction false} KeysExactly(lib: Library, cols: seq<Column>, pk: map<string, Value>)
    ensures BindKeys(lib, cols, pk).Ok? <==> KeysConvert(lib, cols, pk)
    decreases |cols|
  {
    if cols != [] {
      var front, last := cols[..|cols| - 1], cols[|cols| - 1];
      FrontLast(cols);
      assert last in cols;
      KeysExactly(lib, front, pk);
      assert forall c :: c in cols <==> c in front || c == last;
    }
  }

  lemma {:induction false} NamesExactly(lib: Library, idx: map<string, Column>, names: seq<string>, row: map<string, Value>, insert: bool)
    ensures BindNames(lib, idx, names, row, insert).Ok?
       <==> forall name :: name in names ==> Writable(lib, idx, name, Lookup(row, name), insert)
    decreases |names|
  {
    if names != [] {
      var front, last := names[..|names| - 1], names[|names| - 1];
      FrontLast(names);
      assert last in names;
      NamesExactly(lib, idx, front, row, insert);
      assert forall name :: name in names <==> name in front || name == last;
    }
  }

  lemma {:induction false} RowExactly(lib: Library, idx: map<string, Column>, row: map<string, Value>, insert: bool)
    ensures BindNames(lib, idx, NameOrder.SortedSet(row.Keys), row, insert).Ok? <==> AllWritable(lib, idx, row, insert)
  {
    var names := NameOrder.SortedSet(row.Keys);
    NameOrder.SortedSetRises(row.Keys);
    NamesExactly(lib, idx, names, row, insert);
    forall name | name in row ensures name in names && Lookup(row, name) == row[name] {
    }
  }

  /** An INSERT is accepted exactly if every key column is among its columns, null or not, and every column of it can
      be written; a key column that is not there is reported first. */
  lemma {:induction false} InsertAcceptedExactly(lib: Library, td: TableDetail, op: Op)
    ensures var full, r := op.pk + op.changes, PlanInsert(lib, td, op);
      && (r.Ok? <==> AllGiven(KeyColumns(td), full, true) && AllWritable(lib, Index(td.columns), full, true))
      && (r.Err? && r.error.IncompletePK? <==> !AllGiven(KeyColumns(td), full, true))
  {
    var full, idx := op.pk + op.changes, Index(td.columns);
    MissingExactly(KeyColumns(td), full, true);
    RowExactly(lib, idx, full, true);
    NotIncomplete(lib, idx, NameOrder.SortedSet(full.Keys), full, true);
  }

  lemma {:induction false} NotIncomplete(lib: Library, idx: map<string, Column>, names: seq<string>, row: map<string, Value>, insert: bool)
    ensures var r := BindNames(lib, idx, names, row, insert); r.Err? ==> !r.error.IncompletePK? && !r.error.NoChanges? && !r.error.BadKey?
    decreases |names|
  {
    if names != [] {
      NotIncomplete(lib, idx, names[..|names| - 1], row, insert);
    }
  }

  lemma {:induction false} OnlyBadKeys(lib: Library, cols: seq<Column>, pk: map<string, Value>)
    ensures var r := BindKeys(lib, cols, pk); r.Err? ==> r.error.BadKey?
    decreases |cols|
  {
    if cols != [] {
      OnlyBadKeys(lib, cols[..|cols| - 1], pk);
    }
  }

  /** An UPDATE is accepted exactly if it gives every key column a value other than null, changes something, and all its
      values convert, those of changed columns for columns that can be edited.  An incomplete key is reported before
      anything else, then an empty change. */
  lemma {:induction false} UpdateAcceptedExactly(lib: Library, td: TableDetail, op: Op)
    ensures var keys, r := KeyColumns(td), PlanUpdate(lib, td, op);
      && (r.Ok? <==> AllGiven(keys, op.pk, false) && op.changes != map[]
                     && AllWritable(lib, Index(td.columns), op.changes, false) && KeysConvert(lib, keys, op.pk))
      && (r.Err? && r.error.IncompletePK? <==> !AllGiven(keys, op.pk, false))
      && (r.Err? && r.error.NoChanges? <==> AllGiven(keys, op.pk, false) && op.changes == map[])
  {
    var keys, idx := KeyColumns(td), Index(td.columns);
    MissingExactly(keys, op.pk, false);
    RowExactly(lib, idx, op.changes, false);
    KeysExactly(lib, keys, op.pk);
    NotIncomplete(lib, idx, NameOrder.SortedSet(op.changes.Keys), op.changes, false);
    OnlyBadKeys(lib, keys, op.pk);
  }

  /** A DELETE is accepted exactly if it gives every key column a value other than null, and they convert. */
  lemma {:induction false} DeleteAcceptedExactly(lib: Library, td: TableDetail, op: Op)
    ensures var keys, r := KeyColumns(td), PlanDelete(lib, td, op);
      && (r.Ok? <==> AllGiven(keys, op.pk, false) && KeysConvert(lib, keys, op.pk))
      && (r.Err? && r.error.IncompletePK? <==> !AllGiven(keys, op.pk, false))
  {
    var keys := KeyColumns(td);
    MissingExactly(keys, op.pk, false);
    KeysExactly(lib, keys, op.pk);
    OnlyBadKeys(lib, keys, op.pk);
  }

  // ----- the key -----

  /** The key columns are the partition columns of the table followed by its clustering columns, each as often as it is in
      the metadata, and both by position. */
  lemma {:induction false} KeyColumnsExactly(td: TableDetail) returns (n: nat)
    ensures var key := KeyColumns(td);
      && n <= |key|
      && ListsKind(key[..n], td.columns, PartitionKey) && PositionsRise(key[..n])
      && ListsKind(key[n..], td.columns, Clustering) && PositionsRise(key[n..])
  {
    n := |PartitionColumns(td)|;
    KindInOrder(td.columns, PartitionKey);
    KindInOrder(td.columns, Clustering);
    assert KeyColumns(td)[..n] == PartitionColumns(td) && KeyColumns(td)[n..] == ClusteringColumns(td);
  }

  // ----- columns by name -----

  /** No column behind `i` has its name. */
  ghost predicate LastOfName(cols: seq<Column>, i: nat)
    requires i < |cols|
  {
    forall j :: i < j < |cols| ==> cols[j].name != cols[i].name
  }

  /** A name is known exactly if some column has it. */
  lemma {:induction false} IndexHas(cols: seq<Column>, name: string)
    ensures name in Index(cols) <==> exists c :: c in cols && c.name == name
    decreases |cols|
  {
    if cols != [] {
      var front, last := cols[..|cols| - 1], cols[|cols| - 1];
      IndexHas(front, name);
      forall c ensures c in cols <==> c in front || c == last {
        LastIn(cols, c);
      }
    }
  }

  /** And it stands for the last column that has it. */
  lemma {:induction false} IndexExactly(cols: seq<Column>, i: nat)
    requires i < |cols| && LastOfName(cols, i)
    ensures cols[i].name in Index(cols) && Index(cols)[cols[i].name] == cols[i]
    decreases |cols|
  {
    if i < |cols| - 1 {
      assert cols[..|cols| - 1][i] == cols[i];
      IndexExactly(cols[..|cols| - 1], i);
    }
  }
}
