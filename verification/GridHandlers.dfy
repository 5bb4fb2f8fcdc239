/** What the grid shows, and what each handler does to it (web/src/components/table-data.tsx and data-grid.tsx). */
module GridHandlers {
  import opened Coercion
  import opened TableSchema
  import opened CellKeys
  import opened Dml
  import opened DmlAcceptance
  import opened GridEdits
  import opened GridMeaning
  import opened GridTheorems
  import opened KeyedRows
  import opened Options

  // ----- what is shown -----

  function RowCount(page: Page, b: Buffer): nat {
    |page.rows| + |b.newRows|
  }

  /** The text of a cell: the dirty one if there is one, else that of the page or of the new row. */
  function ShownText(page: Page, b: Buffer, r: nat, c: string): string {
    if Key(r, c) in b.dirty then b.dirty[Key(r, c)]
    else if r < |page.rows| then TextOf(CellAt(page, r, c))
    else
      var ni := r - |page.rows|;
      if ni < |b.newRows| && c in b.newRows[ni] then b.newRows[ni][c] else ""
  }

  /** The row is struck through. */
  predicate Marked(b: Buffer, r: nat) {
    r in b.deleted
  }

  /** Two buffers show the same: as many rows, the same texts, the same rows struck through. */
  ghost predicate ShowSame(page: Page, a: Buffer, b: Buffer) {
    && RowCount(page, a) == RowCount(page, b)
    && (forall r, c :: ShownText(page, a, r, c) == ShownText(page, b, r, c))
    && (forall r :: Marked(a, r) <==> Marked(b, r))
  }

  // ----- the cells of a page -----

  ghost predicate LastColumn(cols: seq<ColumnMeta>, i: nat)
    requires i < |cols|
  {
    forall j :: i < j < |cols| ==> cols[j].name != cols[i].name
  }

  lemma {:induction false} RowObjectAt(cols: seq<ColumnMeta>, row: seq<Cell>, i: nat)
    requires i < |cols| && LastColumn(cols, i)
    ensures cols[i].name in RowObject(cols, row)
    ensures RowObject(cols, row)[cols[i].name] == if i < |row| then row[i] else Nothing
    decreases |cols|
  {
    if i < |cols| - 1 {
      assert cols[..|cols| - 1][i] == cols[i];
      RowObjectAt(cols[..|cols| - 1], row, i);
    }
  }

  /** The cell under a column's name is the one at the column's place in the row, of columns with one name the last's. */
  lemma {:induction false} CellExactly(page: Page, r: nat, i: nat)
    requires r < |page.rows| && i < |page.columns| && LastColumn(page.columns, i)
    ensures CellAt(page, r, page.columns[i].name) == if i < |page.rows[r]| then page.rows[r][i] else Nothing
  {
    RowObjectAt(page.columns, page.rows[r], i);
  }

  // ----- the keys of cells -----

  lemma {:induction false} KeyInjective(r: nat, c: string, i: nat, d: string)
    ensures Key(r, c) == Key(i, d) <==> r == i && c == d
  {
    if Key(r, c) == Key(i, d) {
      KeyRoundTrip(r, c);
      KeyRoundTrip(i, d);
      assert Key(r, c)[|Texts.Decimal(r)| + 1..] == c && Key(i, d)[|Texts.Decimal(i)| + 1..] == d;
    }
  }

  // No cell of a new row is dirty.
  lemma {:induction false} NewRowsClean(page: Page, b: Buffer, r: nat, c: string)
    requires Valid(page, b) && r >= |page.rows|
    ensures Key(r, c) !in b.dirty
  {
    if Key(r, c) in b.dirty {
      assert IsCell(page, Key(r, c));
      var i: nat, d :| i < |page.rows| && d in AllNames(page.columns) && Key(r, c) == Key(i, d);
      KeyInjective(r, c, i, d);
    }
  }

  // ----- editing a cell -----

  /** After an edit the cell shows the text typed, every other cell shows what it did, and no row comes, goes or changes
      its mark. */
  lemma {:induction false} EditShows(page: Page, b: Buffer, r: nat, c: string, v: string, i: nat, d: string)
    requires Valid(page, b) && r < RowCount(page, b)
    ensures var a := After(page, b, EditCell(r, c, v));
      && ShownText(page, a, i, d) == (if i == r && d == c then v else ShownText(page, b, i, d))
      && RowCount(page, a) == RowCount(page, b) && (Marked(a, i) <==> Marked(b, i))
  {
    KeyInjective(r, c, i, d);
    if r >= |page.rows| {
      NewRowsClean(page, b, r, c);
    }
  }

  /** A cell is dirty after an edit exactly if the text typed is not the one loaded; so one that is edited back is not. */
  lemma {:induction false} DirtyExactly(page: Page, b: Buffer, r: nat, c: string, v: string, i: nat, d: string)
    requires r < |page.rows|
    ensures var a := After(page, b, EditCell(r, c, v));
      Key(i, d) in a.dirty <==> if i == r && d == c then v != TextOf(CellAt(page, r, c)) else Key(i, d) in b.dirty
  {
    KeyInjective(r, c, i, d);
  }

  /** No dirty cell shows what was loaded. */
  ghost predicate DirtyDiffers(page: Page, b: Buffer) {
    forall r: nat, c :: r < |page.rows| && Key(r, c) in b.dirty ==> b.dirty[Key(r, c)] != TextOf(CellAt(page, r, c))
  }

  lemma {:induction false} EventKeepsDiffering(page: Page, b: Buffer, e: Event)
    requires DirtyDiffers(page, b)
    ensures DirtyDiffers(page, After(page, b, e))
  {
    if e.EditCell? && e.r < |page.rows| {
      forall r: nat, c | r < |page.rows| && Key(r, c) in After(page, b, e).dirty
        ensures After(page, b, e).dirty[Key(r, c)] != TextOf(CellAt(page, r, c))
      {
        KeyInjective(r, c, e.r, e.c);
      }
    }
  }

  /** Whatever is done to the grid, only cells that show something else than what was loaded are dirty. */
  lemma {:induction false} RunsDiffer(page: Page, events: seq<Event>)
    ensures DirtyDiffers(page, Play(page, events))
    decreases |events|
  {
    if events != [] {
      RunsDiffer(page, events[..|events| - 1]);
      EventKeepsDiffering(page, Play(page, events[..|events| - 1]), events[|events| - 1]);
    }
  }

  // ----- marking rows and dropping new ones -----

  /** A toggle marks an unmarked row and takes the mark of a marked one back; nothing else changes. */
  lemma {:induction false} ToggleMarks(page: Page, b: Buffer, r: nat)
    requires Valid(page, b) && r < |page.rows|
    ensures var a := After(page, b, ToggleDelete(r));
      && (forall i :: Marked(a, i) <==> if i == r then !Marked(b, i) else Marked(b, i))
      && a.dirty == b.dirty && a.newRows == b.newRows
      && forall i, c :: ShownText(page, a, i, c) == ShownText(page, b, i, c)
  {
    WithoutRowHas(b.deleted, r);
  }

  /** Two toggles of a row show what was shown before. */
  lemma {:induction false} ToggleTwice(page: Page, b: Buffer, r: nat)
    requires Valid(page, b) && r < |page.rows|
    ensures ShowSame(page, After(page, After(page, b, ToggleDelete(r)), ToggleDelete(r)), b)
  {
    var a := After(page, b, ToggleDelete(r));
    ToggleMarks(page, b, r);
    EventsKeepValid(page, b, ToggleDelete(r));
    ToggleMarks(page, a, r);
  }

  /** Toggling a new row drops exactly that one: the rows behind it move up. */
  lemma {:induction false} ToggleDrops(page: Page, b: Buffer, r: nat, i: nat, c: string)
    requires Valid(page, b) && |page.rows| <= r < RowCount(page, b)
    ensures var a := After(page, b, ToggleDelete(r));
      && RowCount(page, a) == RowCount(page, b) - 1 && a.deleted == b.deleted && a.dirty == b.dirty
      && ShownText(page, a, i, c) == ShownText(page, b, if i < r then i else i + 1, c)
  {
    if i >= |page.rows| {
      NewRowsClean(page, b, i, c);
      NewRowsClean(page, b, i + 1, c);
    }
  }

  // ----- adding a row, and starting again -----

  /** Adding a row shows one more, empty row behind the others. */
  lemma {:induction false} AddShows(page: Page, b: Buffer, i: nat, c: string)
    requires Valid(page, b)
    ensures var a := After(page, b, AddRow);
      && RowCount(page, a) == RowCount(page, b) + 1 && (Marked(a, i) <==> Marked(b, i))
      && ShownText(page, a, i, c) == (if i == RowCount(page, b) then "" else ShownText(page, b, i, c))
  {
    if i >= |page.rows| {
      NewRowsClean(page, b, i, c);
    }
  }

  /** A reset shows the page as loaded. */
  lemma ResetShows(page: Page, b: Buffer, i: nat, c: string)
    ensures var a := After(page, b, Reset);
      && RowCount(page, a) == |page.rows| && !Marked(a, i)
      && ShownText(page, a, i, c) == (if i < |page.rows| then TextOf(CellAt(page, i, c)) else "")
  {
  }

  // ----- what is shown is what is committed -----

  /** The cell of a row that stays is committed with the text it shows if it was edited, and else as loaded. */
  lemma {:induction false} ShownIsCommitted(page: Page, b: Buffer, r: nat, c: string)
    requires r < |page.rows| && c in ColumnNames(page.columns, false)
    ensures ShownRows(page, b)[r].None? <==> Marked(b, r)
    ensures !Marked(b, r) ==>
      var row := ShownRows(page, b)[r].value;
      c in row && row[c] == if Key(r, c) in b.dirty then Text(ShownText(page, b, r, c)) else ValueOf(CellAt(page, r, c))
  {
  }

  /** A new row is committed with exactly its cells that show something, the key columns' as its key. */
  lemma {:induction false} NewShownIsCommitted(page: Page, b: Buffer, ni: nat, c: string, key: bool)
    requires Valid(page, b) && ni < |b.newRows|
    ensures var cells, text := NewCells(page.columns, b.newRows[ni], key), ShownText(page, b, |page.rows| + ni, c);
      && (c in cells <==> c in ColumnNames(page.columns, key) && text != "")
      && (c in cells ==> cells[c] == Text(text))
  {
    NewRowsClean(page, b, |page.rows| + ni, c);
  }

  // ----- the edits of a changeset -----

  ghost predicate OfKindAll(ops: seq<Op>, kind: string) {
    forall op :: op in ops ==> op.kind == kind
  }

  lemma {:induction false} UpdatesAreUpdates(page: Page, m: map<nat, map<string, string>>, n: nat)
    ensures OfKindAll(UpdateOps(page, m, n), "update")
    ensures forall op :: op in UpdateOps(page, m, n) ==> exists r :: r in m && r < n && op == Op("update", Pk(page, r), TextCells(m[r]))
    decreases n
  {
    if n > 0 {
      UpdatesAreUpdates(page, m, n - 1);
    }
  }

  lemma {:induction false} DeletesAreDeletes(page: Page, deleted: seq<nat>)
    ensures OfKindAll(DeleteOps(page, deleted), "delete")
    ensures forall op :: op in DeleteOps(page, deleted) ==> exists r :: r in deleted && op == Op("delete", Pk(page, r), map[])
    decreases |deleted|
  {
    if deleted != [] {
      var front, last := deleted[..|deleted| - 1], deleted[|deleted| - 1];
      DeletesAreDeletes(page, front);
      assert last in deleted && forall r :: r in front ==> r in deleted;
    }
  }

  lemma {:induction false} InsertsAreInserts(page: Page, newRows: seq<map<string, string>>)
    ensures OfKindAll(InsertOps(page, newRows), "insert")
    decreases |newRows|
  {
    if newRows != [] {
      InsertsAreInserts(page, newRows[..|newRows| - 1]);
    }
  }

  /** Edits of existing rows are updates and deletes, those of new rows inserts. */
  lemma {:induction false} KindsOfEdits(page: Page, b: Buffer, m: map<nat, map<string, string>>)
    ensures OfKindAll(UpdateOps(page, m, |page.rows|), "update") && OfKindAll(DeleteOps(page, b.deleted), "delete")
    ensures OfKindAll(InsertOps(page, b.newRows), "insert")
  {
    UpdatesAreUpdates(page, m, |page.rows|);
    DeletesAreDeletes(page, b.deleted);
    InsertsAreInserts(page, b.newRows);
  }

  /** The key of an edit holds exactly the key columns' cells as loaded. */
  lemma {:induction false} KeyAsLoaded(page: Page, r: nat, c: ColumnMeta)
    requires c in page.columns
    ensures c.kind == PartitionKey || c.kind == Clustering ==>
      c.name in Pk(page, r) && Pk(page, r)[c.name] == ValueOf(CellAt(page, r, c.name))
    ensures PlainColumns(page) && c.kind != PartitionKey && c.kind != Clustering ==> c.name !in Pk(page, r)
  {
    assert c.name in ColumnNames(page.columns, IsKey(c));
  }

  /** So the updates and deletes of a changeset always give the full key: if no key cell of the page is null, none of
      them is refused for an incomplete one. */
  lemma {:induction false} KeysAreComplete(lib: Library, td: TableDetail, page: Page, b: Buffer, m: map<nat, map<string, string>>, op: Op)
    requires PageOf(page, td) && Valid(page, b) && op in UpdateOps(page, m, |page.rows|) + DeleteOps(page, b.deleted)
    requires forall r: nat, c :: r < |page.rows| && c in ColumnNames(page.columns, true) ==> ValueOf(CellAt(page, r, c)) != Null
    ensures AllGiven(KeyColumns(td), op.pk, false)
    ensures op.kind == "update" ==> !(PlanUpdate(lib, td, op).Err? && PlanUpdate(lib, td, op).error.IncompletePK?)
    ensures op.kind == "delete" ==> !(PlanDelete(lib, td, op).Err? && PlanDelete(lib, td, op).error.IncompletePK?)
  {
    UpdatesAreUpdates(page, m, |page.rows|);
    DeletesAreDeletes(page, b.deleted);
    var r: nat :| r < |page.rows| && op.pk == Pk(page, r);
    forall c | c in KeyColumns(td) ensures Given(op.pk, c, false) {
      assert c.name in ColumnNames(page.columns, true);
    }
    UpdateAcceptedExactly(lib, td, op);
    DeleteAcceptedExactly(lib, td, op);
  }
}
