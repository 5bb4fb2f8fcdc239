/** The edit buffer of the data grid (web/src/components/table-data.tsx) and the changeset it compiles. */
module GridEdits {
  import opened Sequences
  import opened Coercion
  import opened TableSchema
  import opened CellKeys
  import opened Dml

  /** A cell as received: null or missing, or a value with its String() text. */
  datatype Cell = Nothing | Cell(value: Value, text: string)

  datatype ColumnMeta = ColumnMeta(name: string, cqlType: string, kind: ColumnKind, editable: bool)

  datatype Page = Page(columns: seq<ColumnMeta>, rows: seq<seq<Cell>>)

  /** The edits not committed yet. */
  datatype Buffer = Buffer(dirty: map<string, string>, deleted: seq<nat>, newRows: seq<map<string, string>>)

  const CLEAN := Buffer(map[], [], [])

  predicate IsKey(c: ColumnMeta) {
    c.kind == PartitionKey || c.kind == Clustering
  }

  function ColumnNames(cols: seq<ColumnMeta>, key: bool): set<string> {
    set c | c in cols && IsKey(c) == key :: c.name
  }

  function AllNames(cols: seq<ColumnMeta>): set<string> {
    set c | c in cols :: c.name
  }

  /** A row keyed by column; of columns with one name the last counts. */
  function RowObject(cols: seq<ColumnMeta>, row: seq<Cell>): map<string, Cell> {
    if cols == [] then map[]
    else
      var i := |cols| - 1;
      RowObject(cols[..i], row)[cols[i].name := if i < |row| then row[i] else Nothing]
  }

  /** The cell of an existing row; a valid buffer names no other rows. */
  function CellAt(page: Page, r: nat, name: string): Cell {
    if r >= |page.rows| then Nothing
    else
      var o := RowObject(page.columns, page.rows[r]);
      if name in o then o[name] else Nothing
  }

  function ValueOf(c: Cell): Value {
    if c.Nothing? then Null else c.value
  }

  function TextOf(c: Cell): string {
    if c.Nothing? then "" else c.text
  }

  // ----- the handlers -----

  function WithoutRow(rows: seq<nat>, r: nat): seq<nat> {
    if rows == [] then [] else WithoutRow(rows[..|rows| - 1], r) + (if rows[|rows| - 1] != r then [rows[|rows| - 1]] else [])
  }

  /** The cell of an existing row is remembered if it differs from the original; one of a new row is replaced. */
  function Changed(page: Page, b: Buffer, r: nat, c: string, v: string): Buffer {
    if r < |page.rows| then
      b.(dirty := if TextOf(CellAt(page, r, c)) == v then b.dirty - {Key(r, c)} else b.dirty[Key(r, c) := v])
    else
      var ni := r - |page.rows|;
      if ni < |b.newRows| then b.(newRows := b.newRows[ni := b.newRows[ni][c := v]]) else b
  }

  function RowAdded(page: Page, b: Buffer): Buffer {
    b.(newRows := b.newRows + [map name | name in AllNames(page.columns) :: ""])
  }

  /** An existing row is marked or unmarked; a new row is dropped. */
  function DeleteToggled(page: Page, b: Buffer, r: nat): Buffer {
    if r >= |page.rows| then
      var ni := r - |page.rows|;
      if ni < |b.newRows| then b.(newRows := b.newRows[..ni] + b.newRows[ni + 1..]) else b
    else b.(deleted := if r in b.deleted then WithoutRow(b.deleted, r) else b.deleted + [r])
  }

  // ----- the changeset -----

  function Pk(page: Page, r: nat): map<string, Value> {
    map p | p in ColumnNames(page.columns, true) :: ValueOf(CellAt(page, r, p))
  }

  function TextCells(m: map<string, string>): map<string, Value> {
    map c | c in m :: Text(m[c])
  }

  /** The non-empty cells of a new row, of its key columns or of the others. */
  function NewCells(cols: seq<ColumnMeta>, row: map<string, string>, key: bool): map<string, Value> {
    map c | c in ColumnNames(cols, key) && c in row && row[c] != "" :: Text(row[c])
  }

  function UpdateOps(page: Page, m: map<nat, map<string, string>>, n: nat): seq<Op> {
    if n == 0 then []
    else UpdateOps(page, m, n - 1) + (if n - 1 in m then [Op("update", Pk(page, n - 1), TextCells(m[n - 1]))] else [])
  }

  function DeleteOps(page: Page, deleted: seq<nat>): seq<Op> {
    if deleted == [] then []
    else DeleteOps(page, deleted[..|deleted| - 1]) + [Op("delete", Pk(page, deleted[|deleted| - 1]), map[])]
  }

  function InsertOp(page: Page, row: map<string, string>): Op {
    Op("insert", NewCells(page.columns, row, true), NewCells(page.columns, row, false))
  }

  function InsertOps(page: Page, newRows: seq<map<string, string>>): seq<Op> {
    if newRows == [] then [] else InsertOps(page, newRows[..|newRows| - 1]) + [InsertOp(page, newRows[|newRows| - 1])]
  }

  /** A key of the dirty buffer that decodes to this cell of a row that stays. */
  ghost predicate CellOf(key: string, done: set<string>, b: Buffer, r: nat, c: string) {
    key in done && key in b.dirty && Decode(key) == (r, c) && r !in b.deleted
  }

  /** `m` holds, for each row, the dirty cells among those in `done`. */
  ghost predicate Collected(b: Buffer, done: set<string>, m: map<nat, map<string, string>>) {
    && (forall key, r, c :: CellOf(key, done, b, r, c) ==> r in m && c in m[r])
    && (forall r, c :: r in m && c in m[r] ==> exists key :: CellOf(key, done, b, r, c) && b.dirty[key] == m[r][c])
    && (forall r :: r in m ==> m[r] != map[])
  }

  // ----- what the handlers keep -----

  ghost predicate IsCell(page: Page, key: string) {
    exists r: nat, c :: r < |page.rows| && c in AllNames(page.columns) && key == Key(r, c)
  }

  predicate RowsExist(page: Page, deleted: seq<nat>) {
    forall r :: r in deleted ==> r < |page.rows|
  }

  predicate NoRowTwice(rows: seq<nat>) {
    rows == [] || (rows[|rows| - 1] !in rows[..|rows| - 1] && NoRowTwice(rows[..|rows| - 1]))
  }

  /** Dirty cells are cells of the page, and deleted rows are rows of it, none twice. */
  ghost predicate Valid(page: Page, b: Buffer) {
    (forall key :: key in b.dirty ==> IsCell(page, key)) && RowsExist(page, b.deleted) && NoRowTwice(b.deleted)
  }

  datatype Event = EditCell(r: nat, c: string, v: string) | AddRow | ToggleDelete(r: nat) | Reset

  function After(page: Page, b: Buffer, e: Event): Buffer {
    match e
    case EditCell(r, c, v) => Changed(page, b, r, c, v)
    case AddRow => RowAdded(page, b)
    case ToggleDelete(r) => DeleteToggled(page, b, r)
    case Reset => CLEAN
  }

  lemma {:induction false} WithoutRowIn(rows: seq<nat>, r: nat)
    ensures forall x :: x in WithoutRow(rows, r) <==> x in rows && x != r
    decreases |rows|
  {
    if rows != [] {
      FrontLast(rows);
      WithoutRowIn(rows[..|rows| - 1], r);
    }
  }

  lemma {:induction false} WithoutRowHas(rows: seq<nat>, r: nat)
    requires NoRowTwice(rows)
    ensures NoRowTwice(WithoutRow(rows, r)) && forall x :: x in WithoutRow(rows, r) <==> x in rows && x != r
    decreases |rows|
  {
    if rows != [] {
      var front, last := rows[..|rows| - 1], rows[|rows| - 1];
      FrontLast(rows);
      WithoutRowHas(front, r);
      assert (WithoutRow(front, r) + [last])[..|WithoutRow(front, r)|] == WithoutRow(front, r);
      assert WithoutRow(front, r) + [] == WithoutRow(front, r);
    }
  }

  lemma {:induction false} EditKeepsValid(page: Page, b: Buffer, r: nat, c: string, v: string)
    requires Valid(page, b) && c in AllNames(page.columns)
    ensures Valid(page, Changed(page, b, r, c, v))
  {
    if r < |page.rows| {
      assert IsCell(page, Key(r, c));
    }
  }

  lemma {:induction false} ToggleKeepsValid(page: Page, b: Buffer, r: nat)
    requires Valid(page, b)
    ensures Valid(page, DeleteToggled(page, b, r))
  {
    if r < |page.rows| {
      WithoutRowHas(b.deleted, r);
      assert (b.deleted + [r])[..|b.deleted|] == b.deleted;
    }
  }

  /** Every edit of a cell of the grid, and every other event, keeps the buffer valid. */
  lemma {:induction false} EventsKeepValid(page: Page, b: Buffer, e: Event)
    requires Valid(page, b) && (e.EditCell? ==> e.c in AllNames(page.columns))
    ensures Valid(page, After(page, b, e))
  {
    match e {
      case EditCell(r, c, v) => EditKeepsValid(page, b, r, c, v);
      case ToggleDelete(r) => ToggleKeepsValid(page, b, r);
      case AddRow =>
      case Reset =>
    }
  }

  // ----- the component -----

  class TableData {
    const page: Page
    var dirty: map<string, string>
    var deleted: seq<nat>
    var newRows: seq<map<string, string>>

    function Edits(): Buffer
      reads this
    {
      Buffer(dirty, deleted, newRows)
    }

    constructor (page: Page)
      ensures this.page == page && Edits() == CLEAN
    {
      this.page := page;
      dirty := map[];
      deleted := [];
      newRows := [];
    }

    method OnCellChange(r: nat, c: string, value: string)
      modifies this
      ensures Edits() == Changed(page, old(Edits()), r, c, value)
    {
      if r < |page.rows| {
        var original := CellAt(page, r, c);
        var key := Key(r, c);
        if TextOf(original) == value {
          dirty := dirty - {key};
        } else {
          dirty := dirty[key := value];
        }
      } else {
        var ni := r - |page.rows|;
        if ni < |newRows| {
          newRows := newRows[ni := newRows[ni][c := value]];
        }
      }
    }

    method OnAddRow()
      modifies this
      ensures Edits() == RowAdded(page, old(Edits()))
    {
      var blank: map<string, string> := map[];
      for i := 0 to |page.columns|
        invariant blank == map name | name in AllNames(page.columns[..i]) :: ""
        invariant dirty == old(dirty) && deleted == old(deleted) && newRows == old(newRows)
      {
        NamesSnoc(page.columns, i);
        blank := blank[page.columns[i].name := ""];
      }
      assert page.columns[..|page.columns|] == page.columns;
      newRows := newRows + [blank];
    }

    method OnToggleDelete(r: nat)
      modifies this
      ensures Edits() == DeleteToggled(page, old(Edits()), r)
      ensures r < |page.rows| ==> newRows == old(newRows)
      ensures r < |page.rows| ==> forall i :: i in deleted <==> if i == r then i !in old(deleted) else i in old(deleted)
      ensures dirty == old(dirty) && (r >= |page.rows| ==> deleted == old(deleted))
    {
      WithoutRowIn(deleted, r);
      if r >= |page.rows| {
        var ni := r - |page.rows|;
        if ni < |newRows| {
          newRows := newRows[..ni] + newRows[ni + 1..];
        }
        return;
      }
      deleted := if r in deleted then WithoutRow(deleted, r) else deleted + [r];
    }

    method OnReset()
      modifies this
      ensures Edits() == CLEAN
    {
      dirty := map[];
      deleted := [];
      newRows := [];
    }

    /** The updates by row, then the deletes in the order marked, then the inserts. */
    method BuildChangeSet() returns (ops: seq<Op>, ghost updates: map<nat, map<string, string>>)
      requires Valid(page, Edits())
      ensures Collected(Edits(), dirty.Keys, updates)
      ensures ops == UpdateOps(page, updates, |page.rows|) + DeleteOps(page, deleted) + InsertOps(page, newRows)
    {
      var updatesByRow := CollectUpdates();
      updates := updatesByRow;
      var first := PushUpdates(updatesByRow);
      var second := PushDeletes();
      var third := PushInserts();
      ops := first + second + third;
    }

    // The keys of an object come in ascending order when they are numbers.
    method PushUpdates(updatesByRow: map<nat, map<string, string>>) returns (ops: seq<Op>)
      ensures ops == UpdateOps(page, updatesByRow, |page.rows|)
    {
      ops := [];
      for r := 0 to |page.rows|
        invariant ops == UpdateOps(page, updatesByRow, r)
      {
        if r in updatesByRow {
          var pk := PkObject(r);
          ops := ops + [Op("update", pk, TextCells(updatesByRow[r]))];
        }
      }
    }

    method PushDeletes() returns (ops: seq<Op>)
      ensures ops == DeleteOps(page, deleted)
    {
      ops := [];
      for i := 0 to |deleted|
        invariant ops == DeleteOps(page, deleted[..i])
      {
        assert deleted[..i + 1][..i] == deleted[..i];
        var pk := PkObject(deleted[i]);
        ops := ops + [Op("delete", pk, map[])];
      }
      assert deleted[..|deleted|] == deleted;
    }

    method PushInserts() returns (ops: seq<Op>)
      ensures ops == InsertOps(page, newRows)
    {
      ops := [];
      for i := 0 to |newRows|
        invariant ops == InsertOps(page, newRows[..i])
      {
        assert newRows[..i + 1][..i] == newRows[..i];
        var op := Insertion(newRows[i]);
        ops := ops + [op];
      }
      assert newRows[..|newRows|] == newRows;
    }

    // The loop over the dirty cells, in whatever order.
    method CollectUpdates() returns (m: map<nat, map<string, string>>)
      ensures Collected(Edits(), dirty.Keys, m)
    {
      m := map[];
      var todo := dirty.Keys;
      ghost var done: set<string> := {};
      while todo != {}
        invariant done + todo == dirty.Keys && done !! todo && Collected(Edits(), done, m)
        decreases todo
      {
        var key :| key in todo;
        ghost var before := m;
        m := CollectKey(key, m);
        CollectOne(Edits(), done, before, key, m);
        todo, done := todo - {key}, done + {key};
      }
    }

    method CollectKey(key: string, m: map<nat, map<string, string>>) returns (more: map<nat, map<string, string>>)
      requires key in dirty
      ensures more == WithCell(Edits(), m, key)
    {
      var (r, col) := Decode(key);
      if r in deleted {
        return m;
      }
      more := if r in m then m else m[r := map[]];
      more := more[r := more[r][col := dirty[key]]];
    }

    method PkObject(r: nat) returns (pk: map<string, Value>)
      ensures pk == Pk(page, r)
    {
      pk := map[];
      for i := 0 to |page.columns|
        invariant pk == map p | p in ColumnNames(page.columns[..i], true) :: ValueOf(CellAt(page, r, p))
      {
        var c := page.columns[i];
        NamesSnoc(page.columns, i);
        if c.kind == PartitionKey || c.kind == Clustering {
          pk := pk[c.name := ValueOf(CellAt(page, r, c.name))];
        }
      }
      assert page.columns[..|page.columns|] == page.columns;
    }

    method Insertion(row: map<string, string>) returns (op: Op)
      ensures op == InsertOp(page, row)
    {
      var pk, changes := map[], map[];
      for i := 0 to |page.columns|
        invariant pk == NewCells(page.columns[..i], row, true) && changes == NewCells(page.columns[..i], row, false)
      {
        var c := page.columns[i];
        NewCellsSnoc(page.columns, i, row, true);
        NewCellsSnoc(page.columns, i, row, false);
        if c.name in row && row[c.name] != "" {
          if c.kind == PartitionKey || c.kind == Clustering {
            pk := pk[c.name := Text(row[c.name])];
          } else {
            changes := changes[c.name := Text(row[c.name])];
          }
        }
      }
      assert page.columns[..|page.columns|] == page.columns;
      op := Op("insert", pk, changes);
    }
  }

  lemma NamesSnoc(cols: seq<ColumnMeta>, i: nat)
    requires i < |cols|
    ensures AllNames(cols[..i + 1]) == AllNames(cols[..i]) + {cols[i].name}
    ensures forall key :: ColumnNames(cols[..i + 1], key)
                       == ColumnNames(cols[..i], key) + (if IsKey(cols[i]) == key then {cols[i].name} else {})
  {
    assert cols[..i + 1] == cols[..i] + [cols[i]];
  }

  lemma NewCellsSnoc(cols: seq<ColumnMeta>, i: nat, row: map<string, string>, key: bool)
    requires i < |cols|
    ensures var c := cols[i].name;
      NewCells(cols[..i + 1], row, key)
        == if IsKey(cols[i]) == key && c in row && row[c] != "" then NewCells(cols[..i], row, key)[c := Text(row[c])]
           else NewCells(cols[..i], row, key)
  {
    NamesSnoc(cols, i);
  }

  function WithCell(b: Buffer, m: map<nat, map<string, string>>, key: string): map<nat, map<string, string>>
    requires key in b.dirty
  {
    var (r, c) := Decode(key);
    if r in b.deleted then m else m[r := (if r in m then m[r] else map[])[c := b.dirty[key]]]
  }

  // One more dirty cell is put with those of its row.
  lemma {:induction false} CollectOne(b: Buffer, done: set<string>, before: map<nat, map<string, string>>, key: string,
                                      m: map<nat, map<string, string>>)
    requires Collected(b, done, before) && key in b.dirty && key !in done
    requires m == WithCell(b, before, key)
    ensures Collected(b, done + {key}, m)
  {
    var (r, c) := Decode(key);
    var more := done + {key};
    forall k, x, y | CellOf(k, more, b, x, y) ensures x in m && y in m[x] {
      if k != key {
        assert CellOf(k, done, b, x, y);
      }
    }
    forall x, y | x in m && y in m[x] ensures exists k :: CellOf(k, more, b, x, y) && b.dirty[k] == m[x][y] {
      if x == r && y == c && r !in b.deleted {
        assert CellOf(key, more, b, x, y);
      } else {
        var k :| CellOf(k, done, b, x, y) && b.dirty[k] == before[x][y];
        assert CellOf(k, more, b, x, y);
      }
    }
    forall x | x in m ensures m[x] != map[] {
      if x == r && r !in b.deleted {
        assert c in m[x];
      }
    }
  }
}
