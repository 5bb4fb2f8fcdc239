/** Committing the edits of the grid makes the table what the grid shows. */
module GridMeaning {
  import opened Sequences
  import opened Coercion
  import opened TableSchema
  import opened CellKeys
  import opened Dml
  import opened GridEdits
  import opened Options
  import opened KeyedRows

  // ----- tables of rows under their primary keys -----

  type Row = map<string, Value>

  type Table = map<map<string, Value>, Row>

  function RowAt(t: Table, pk: map<string, Value>): Row {
    if pk in t then t[pk] else map[]
  }

  /** What an edit asks for: to write cells of one row, or to remove it. */
  function Apply(t: Table, op: Op): Table {
    if op.kind == "delete" then t - {op.pk} else t[op.pk := RowAt(t, op.pk) + op.changes]
  }

  function ApplyAll(t: Table, ops: seq<Op>): Table {
    if ops == [] then t else Apply(ApplyAll(t, ops[..|ops| - 1]), ops[|ops| - 1])
  }

  // ----- the page, and what the grid shows -----

  /** The cells of a row as loaded. */
  function RowCells(page: Page, r: nat): Row {
    map c | c in ColumnNames(page.columns, false) :: ValueOf(CellAt(page, r, c))
  }

  /** The cells of a row as shown: dirty ones replaced. */
  function ShownCells(page: Page, b: Buffer, r: nat): Row {
    map c | c in ColumnNames(page.columns, false) ::
      if Key(r, c) in b.dirty then Text(b.dirty[Key(r, c)]) else ValueOf(CellAt(page, r, c))
  }

  function PageKeys(page: Page): (r: seq<map<string, Value>>)
    ensures |r| == |page.rows|
  {
    seq(|page.rows|, r requires 0 <= r < |page.rows| => Pk(page, r))
  }

  function Loaded(page: Page): (r: seq<Option<Row>>)
    ensures |r| == |page.rows|
  {
    seq(|page.rows|, r requires 0 <= r < |page.rows| => Some(RowCells(page, r)))
  }

  /** The existing rows as shown, those marked for deletion left out. */
  function ShownRows(page: Page, b: Buffer): (r: seq<Option<Row>>)
    ensures |r| == |page.rows|
  {
    seq(|page.rows|, r requires 0 <= r < |page.rows| => if r in b.deleted then None else Some(ShownCells(page, b, r)))
  }

  function PageTable(page: Page): Table {
    Build(PageKeys(page), Loaded(page))
  }

  function NewKeys(page: Page, newRows: seq<map<string, string>>): (r: seq<map<string, Value>>)
    ensures |r| == |newRows|
  {
    seq(|newRows|, i requires 0 <= i < |newRows| => NewCells(page.columns, newRows[i], true))
  }

  /** The non-empty cells of the new rows outside their keys. */
  function NewShown(page: Page, newRows: seq<map<string, string>>): (r: seq<Option<Row>>)
    ensures |r| == |newRows|
  {
    seq(|newRows|, i requires 0 <= i < |newRows| => Some(NewCells(page.columns, newRows[i], false)))
  }

  /** The table as the grid shows it: the existing rows under their keys, and each new row under its own. */
  function GridTable(page: Page, b: Buffer): Table {
    Build(PageKeys(page) + NewKeys(page, b.newRows), ShownRows(page, b) + NewShown(page, b.newRows))
  }

  /** The new rows written one after the other, over what is there. */
  function WithNew(page: Page, t: Table, newRows: seq<map<string, string>>): Table {
    if newRows == [] then t
    else
      var before, row := WithNew(page, t, newRows[..|newRows| - 1]), newRows[|newRows| - 1];
      var pk := NewCells(page.columns, row, true);
      before[pk := RowAt(before, pk) + NewCells(page.columns, row, false)]
  }

  // ----- what is asked of the page -----

  ghost predicate ColonFree(page: Page) {
    forall c :: c in AllNames(page.columns) ==> ':' !in c
  }

  /** No key column shares its name with another column; there are no static columns, whose cells rows share. */
  ghost predicate PlainColumns(page: Page) {
    ColumnNames(page.columns, true) !! ColumnNames(page.columns, false) && forall c :: c in page.columns ==> c.kind != Static
  }

  /** Only cells outside the key were edited; the grid does not offer others. */
  ghost predicate NoKeyDirty(page: Page, b: Buffer) {
    forall key :: key in b.dirty ==> Decode(key).1 in ColumnNames(page.columns, false)
  }

  // ----- the updates and deletes, row by row -----

  function Updated(cells: seq<Option<Row>>, m: map<nat, map<string, string>>, n: nat): (r: seq<Option<Row>>)
    ensures |r| == |cells|
  {
    seq(|cells|, i requires 0 <= i < |cells| =>
      if i < n && i in m && cells[i].Some? then Some(cells[i].value + TextCells(m[i])) else cells[i])
  }

  function Dropped(cells: seq<Option<Row>>, deleted: seq<nat>): (r: seq<Option<Row>>)
    ensures |r| == |cells|
  {
    seq(|cells|, i requires 0 <= i < |cells| => if i in deleted then None else cells[i])
  }

  ghost predicate AllThere(cells: seq<Option<Row>>) {
    forall i :: 0 <= i < |cells| ==> cells[i].Some?
  }

  lemma {:induction false} ApplyUpdate(keys: seq<map<string, Value>>, cells: seq<Option<Row>>, i: nat, changes: Row)
    requires |keys| == |cells| && Distinct(keys) && i < |keys| && cells[i].Some?
    ensures Apply(Build(keys, cells), Op("update", keys[i], changes)) == Build(keys, cells[i := Some(cells[i].value + changes)])
  {
    assert "update"[0] != "delete"[0];
    BuildAt(keys, cells, i);
    BuildPut(keys, cells, i, cells[i].value + changes);
  }

  lemma {:induction false} UpdatesApply(page: Page, keys: seq<map<string, Value>>, m: map<nat, map<string, string>>,
                                        cells: seq<Option<Row>>, n: nat)
    requires keys == PageKeys(page) && Distinct(keys) && |cells| == |keys| && AllThere(cells) && n <= |keys|
    ensures ApplyAll(Build(keys, cells), UpdateOps(page, m, n)) == Build(keys, Updated(cells, m, n))
    decreases n
  {
    if n == 0 {
      assert Updated(cells, m, 0) == cells;
    } else {
      UpdatesApply(page, keys, m, cells, n - 1);
      UpdatedStep(cells, m, n);
      if n - 1 in m {
        UpdateApplies(page, keys, m, Build(keys, cells), Updated(cells, m, n - 1), n);
      } else {
        assert UpdateOps(page, m, n) == UpdateOps(page, m, n - 1);
      }
    }
  }

  lemma {:induction false} UpdateApplies(page: Page, keys: seq<map<string, Value>>, m: map<nat, map<string, string>>,
                                         t: Table, before: seq<Option<Row>>, n: nat)
    requires keys == PageKeys(page) && Distinct(keys) && |before| == |keys| && 0 < n <= |keys| && n - 1 in m
    requires before[n - 1].Some? && ApplyAll(t, UpdateOps(page, m, n - 1)) == Build(keys, before)
    ensures ApplyAll(t, UpdateOps(page, m, n)) == Build(keys, before[n - 1 := Some(before[n - 1].value + TextCells(m[n - 1]))])
  {
    ApplySnoc(t, UpdateOps(page, m, n - 1), Op("update", keys[n - 1], TextCells(m[n - 1])));
    ApplyUpdate(keys, before, n - 1, TextCells(m[n - 1]));
  }

  lemma UpdatedStep(cells: seq<Option<Row>>, m: map<nat, map<string, string>>, n: nat)
    requires 0 < n <= |cells| && AllThere(cells)
    ensures var before := Updated(cells, m, n - 1);
      before[n - 1] == cells[n - 1] && before[n - 1].Some?
      && Updated(cells, m, n) == if n - 1 in m then before[n - 1 := Some(cells[n - 1].value + TextCells(m[n - 1]))] else before
  {
  }

  lemma ApplySnoc(t: Table, ops: seq<Op>, op: Op)
    ensures ApplyAll(t, ops + [op]) == Apply(ApplyAll(t, ops), op)
  {
    assert (ops + [op])[..|ops|] == ops;
  }

  lemma {:induction false} ApplyDelete(keys: seq<map<string, Value>>, cells: seq<Option<Row>>, i: nat)
    requires |keys| == |cells| && Distinct(keys) && i < |keys|
    ensures Apply(Build(keys, cells), Op("delete", keys[i], map[])) == Build(keys, cells[i := None])
  {
    BuildDrop(keys, cells, i);
  }

  lemma {:induction false} DeletesApply(page: Page, keys: seq<map<string, Value>>, cells: seq<Option<Row>>, deleted: seq<nat>)
    requires keys == PageKeys(page) && Distinct(keys) && |cells| == |keys| && RowsExist(page, deleted)
    ensures ApplyAll(Build(keys, cells), DeleteOps(page, deleted)) == Build(keys, Dropped(cells, deleted))
    decreases |deleted|
  {
    if deleted == [] {
      assert Dropped(cells, deleted) == cells;
    } else {
      var front, r := deleted[..|deleted| - 1], deleted[|deleted| - 1];
      FrontLast(deleted);
      assert r in deleted;
      assert forall x :: x in front ==> x in deleted;
      DeletesApply(page, keys, cells, front);
      ApplySnoc(Build(keys, cells), DeleteOps(page, front), Op("delete", keys[r], map[]));
      ApplyDelete(keys, Dropped(cells, front), r);
      DroppedSnoc(cells, front, r);
    }
  }

  lemma DroppedSnoc(cells: seq<Option<Row>>, front: seq<nat>, r: nat)
    requires r < |cells|
    ensures Dropped(cells, front + [r]) == Dropped(cells, front)[r := None]
  {
    forall i | 0 <= i < |cells| ensures i in front + [r] <==> i in front || i == r {
    }
  }

  lemma {:induction false} InsertsApply(page: Page, t: Table, newRows: seq<map<string, string>>)
    ensures ApplyAll(t, InsertOps(page, newRows)) == WithNew(page, t, newRows)
    decreases |newRows|
  {
    if newRows != [] {
      var front, row := newRows[..|newRows| - 1], newRows[|newRows| - 1];
      InsertsApply(page, t, front);
      ApplySnoc(t, InsertOps(page, front), InsertOp(page, row));
      assert "insert" != "delete";
    }
  }

  lemma {:induction false} ApplyConcat(t: Table, a: seq<Op>, b: seq<Op>)
    ensures ApplyAll(t, a + b) == ApplyAll(ApplyAll(t, a), b)
    decreases |b|
  {
    if b == [] {
      assert a + b == a;
    } else {
      var front, last := b[..|b| - 1], b[|b| - 1];
      assert a + b == (a + front) + [last];
      ApplySnoc(t, a + front, last);
      ApplyConcat(t, a, front);
    }
  }

  // ----- the collected updates are the dirty cells -----

  lemma {:induction false} CellKeyDecodes(page: Page, key: string) returns (r: nat, c: string)
    requires IsCell(page, key) && ColonFree(page)
    ensures r < |page.rows| && c in AllNames(page.columns) && key == Key(r, c) && Decode(key) == (r, c)
  {
    r, c :| r < |page.rows| && c in AllNames(page.columns) && key == Key(r, c);
    KeyRoundTrip(r, c);
  }

  // The updates of a row are its dirty cells.
  lemma {:induction false} CollectedExactly(page: Page, b: Buffer, m: map<nat, map<string, string>>, r: nat, c: string)
    requires Valid(page, b) && ColonFree(page) && Collected(b, b.dirty.Keys, m) && r !in b.deleted
    ensures r in m && c in m[r] ==> Key(r, c) in b.dirty && m[r][c] == b.dirty[Key(r, c)] && Decode(Key(r, c)).1 == c
    ensures c in AllNames(page.columns) && Key(r, c) in b.dirty ==> r in m && c in m[r]
  {
    if r in m && c in m[r] {
      var key :| CellOf(key, b.dirty.Keys, b, r, c) && b.dirty[key] == m[r][c];
      var x, y := CellKeyDecodes(page, key);
    }
    if c in AllNames(page.columns) && Key(r, c) in b.dirty {
      KeyRoundTrip(r, c);
      assert CellOf(Key(r, c), b.dirty.Keys, b, r, c);
    }
  }

  // The updates of a row as cells of the page: those that are dirty, with their texts.
  ghost predicate DirtyCells(page: Page, b: Buffer, m: map<nat, map<string, string>>, r: nat) {
    && (forall c :: c in ColumnNames(page.columns, false) ==> (Key(r, c) in b.dirty <==> r in m && c in m[r]))
    && (forall c :: c in ColumnNames(page.columns, false) && Key(r, c) in b.dirty ==>
      r in m && c in m[r] && m[r][c] == b.dirty[Key(r, c)])
    && (r in m ==> m[r].Keys <= ColumnNames(page.columns, false))
  }

  lemma {:induction false} UpdatesAreDirty(page: Page, b: Buffer, m: map<nat, map<string, string>>, r: nat)
    requires Valid(page, b) && ColonFree(page) && NoKeyDirty(page, b) && Collected(b, b.dirty.Keys, m) && r !in b.deleted
    ensures DirtyCells(page, b, m, r)
  {
    forall c | c in ColumnNames(page.columns, false)
      ensures Key(r, c) in b.dirty <==> r in m && c in m[r]
      ensures Key(r, c) in b.dirty ==> m[r][c] == b.dirty[Key(r, c)]
    {
      assert c in AllNames(page.columns);
      CollectedExactly(page, b, m, r, c);
    }
    if r in m {
      forall c | c in m[r] ensures c in ColumnNames(page.columns, false) {
        CollectedExactly(page, b, m, r, c);
      }
    }
  }

  lemma {:induction false} ShownIsUpdated(page: Page, b: Buffer, m: map<nat, map<string, string>>, r: nat)
    requires Valid(page, b) && ColonFree(page) && NoKeyDirty(page, b) && Collected(b, b.dirty.Keys, m) && r !in b.deleted
    ensures ShownCells(page, b, r) == if r in m then RowCells(page, r) + TextCells(m[r]) else RowCells(page, r)
  {
    UpdatesAreDirty(page, b, m, r);
    DirtyShown(page, b, m, r);
  }

  lemma DirtyShown(page: Page, b: Buffer, m: map<nat, map<string, string>>, r: nat)
    requires DirtyCells(page, b, m, r)
    ensures ShownCells(page, b, r) == if r in m then RowCells(page, r) + TextCells(m[r]) else RowCells(page, r)
  {
    if r in m {
      Overlay(ColumnNames(page.columns, false), RowCells(page, r), m[r], ShownCells(page, b, r));
    }
  }

  lemma Overlay(names: set<string>, row: Row, changes: map<string, string>, shown: Row)
    requires row.Keys == names == shown.Keys && changes.Keys <= names
    requires forall c :: c in names ==> shown[c] == if c in changes then Text(changes[c]) else row[c]
    ensures shown == row + TextCells(changes)
  {
    assert TextCells(changes).Keys == changes.Keys;
  }

  lemma {:induction false} ExistingRows(page: Page, b: Buffer, m: map<nat, map<string, string>>)
    requires Valid(page, b) && NoKeyDirty(page, b) && ColonFree(page) && Collected(b, b.dirty.Keys, m)
    ensures Dropped(Updated(Loaded(page), m, |page.rows|), b.deleted) == ShownRows(page, b)
  {
    forall r | 0 <= r < |page.rows| && r !in b.deleted
      ensures ShownCells(page, b, r) == if r in m then RowCells(page, r) + TextCells(m[r]) else RowCells(page, r)
    {
      ShownIsUpdated(page, b, m, r);
    }
  }

  // What a changeset does, whatever the keys of the new rows are.
  lemma {:induction false} ChangesApply(page: Page, b: Buffer, m: map<nat, map<string, string>>, ops: seq<Op>)
    requires Valid(page, b) && NoKeyDirty(page, b) && Distinct(PageKeys(page)) && ColonFree(page) && PlainColumns(page)
    requires Collected(b, b.dirty.Keys, m)
    requires ops == UpdateOps(page, m, |page.rows|) + DeleteOps(page, b.deleted) + InsertOps(page, b.newRows)
    ensures ApplyAll(PageTable(page), ops) == WithNew(page, Build(PageKeys(page), ShownRows(page, b)), b.newRows)
  {
    var keys, updates, deletes := PageKeys(page), UpdateOps(page, m, |page.rows|), DeleteOps(page, b.deleted);
    UpdatesApply(page, keys, m, Loaded(page), |page.rows|);
    DeletesApply(page, keys, Updated(Loaded(page), m, |page.rows|), b.deleted);
    ExistingRows(page, b, m);
    ApplyConcat(PageTable(page), updates, deletes);
    ApplyConcat(PageTable(page), updates + deletes, InsertOps(page, b.newRows));
    InsertsApply(page, Build(keys, ShownRows(page, b)), b.newRows);
  }

  lemma BuildSnoc<K, V>(keys: seq<K>, values: seq<Option<V>>, k: K, v: V)
    requires |keys| == |values|
    ensures Build(keys + [k], values + [Some(v)]) == Build(keys, values)[k := v]
  {
    assert (keys + [k])[..|keys|] == keys && (values + [Some(v)])[..|values|] == values;
  }

  lemma WriteNew(t: Table, pk: map<string, Value>, row: Row)
    requires pk !in t
    ensures t[pk := RowAt(t, pk) + row] == t[pk := row]
  {
    assert map[] + row == row;
  }

  // Rows with keys of their own do not write over anything.
  lemma {:induction false} NewRowsAdded(page: Page, keys: seq<map<string, Value>>, shown: seq<Option<Row>>,
                                        newRows: seq<map<string, string>>)
    requires |keys| == |shown| && Distinct(keys + NewKeys(page, newRows))
    ensures WithNew(page, Build(keys, shown), newRows) == Build(keys + NewKeys(page, newRows), shown + NewShown(page, newRows))
    decreases |newRows|
  {
    if newRows == [] {
      assert keys + NewKeys(page, newRows) == keys && shown + NewShown(page, newRows) == shown;
    } else {
      var front, row := newRows[..|newRows| - 1], newRows[|newRows| - 1];
      var pk, cells := NewCells(page.columns, row, true), NewCells(page.columns, row, false);
      var all, values := keys + NewKeys(page, front), shown + NewShown(page, front);
      assert newRows == front + [row];
      NewSnoc(page, keys, shown, front, row);
      DistinctSnoc(all, pk);
      NewRowsAdded(page, keys, shown, front);
      BuildKeys(all, values, pk);
      WriteNew(Build(all, values), pk, cells);
      BuildSnoc(all, values, pk, cells);
    }
  }

  lemma DistinctSnoc<K>(keys: seq<K>, k: K)
    requires Distinct(keys + [k])
    ensures Distinct(keys) && k !in keys
  {
    assert (keys + [k])[..|keys|] == keys;
  }

  lemma NewSnoc(page: Page, keys: seq<map<string, Value>>, shown: seq<Option<Row>>, front: seq<map<string, string>>, row: map<string, string>)
    ensures keys + NewKeys(page, front + [row]) == keys + NewKeys(page, front) + [NewCells(page.columns, row, true)]
    ensures shown + NewShown(page, front + [row]) == shown + NewShown(page, front) + [Some(NewCells(page.columns, row, false))]
  {
  }

  /** Applying the changeset to the page gives exactly the grid as shown: rows marked for deletion are gone, dirty
      cells are replaced, each new row is there with its non-empty cells, and nothing else differs.  The new rows' keys
      are neither those of others nor those of existing rows. */
  lemma {:induction false} CommitMakesItSo(page: Page, b: Buffer, m: map<nat, map<string, string>>, ops: seq<Op>)
    requires Valid(page, b) && NoKeyDirty(page, b) && ColonFree(page) && PlainColumns(page)
    requires Distinct(PageKeys(page)) && Distinct(PageKeys(page) + NewKeys(page, b.newRows))
    requires Collected(b, b.dirty.Keys, m)
    requires ops == UpdateOps(page, m, |page.rows|) + DeleteOps(page, b.deleted) + InsertOps(page, b.newRows)
    ensures ApplyAll(PageTable(page), ops) == GridTable(page, b)
  {
    ChangesApply(page, b, m, ops);
    NewRowsAdded(page, PageKeys(page), ShownRows(page, b), b.newRows);
  }

  lemma BuildBehind<K, V>(keys: seq<K>, values: seq<Option<V>>, more: seq<K>, others: seq<Option<V>>, i: nat)
    requires |keys| == |values| && |more| == |others| && Distinct(keys + more) && i < |more| && others[i].Some?
    ensures var t := Build(keys + more, values + others); more[i] in t && t[more[i]] == others[i].value
  {
    assert (keys + more)[|keys| + i] == more[i] && (values + others)[|keys| + i] == others[i];
    BuildAt(keys + more, values + others, |keys| + i);
  }

  /** So under the key of a new row the committed table has exactly that row's non-empty cells. */
  lemma {:induction false} NewRowCommitted(page: Page, b: Buffer, m: map<nat, map<string, string>>, ops: seq<Op>, i: nat)
    requires Valid(page, b) && NoKeyDirty(page, b) && ColonFree(page) && PlainColumns(page)
    requires Distinct(PageKeys(page)) && Distinct(PageKeys(page) + NewKeys(page, b.newRows))
    requires Collected(b, b.dirty.Keys, m) && i < |b.newRows|
    requires ops == UpdateOps(page, m, |page.rows|) + DeleteOps(page, b.deleted) + InsertOps(page, b.newRows)
    ensures var t, pk := ApplyAll(PageTable(page), ops), NewCells(page.columns, b.newRows[i], true);
      pk in t && t[pk] == NewCells(page.columns, b.newRows[i], false)
  {
    CommitMakesItSo(page, b, m, ops);
    BuildBehind(PageKeys(page), ShownRows(page, b), NewKeys(page, b.newRows), NewShown(page, b.newRows), i);
  }
}
