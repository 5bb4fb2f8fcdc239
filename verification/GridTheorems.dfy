/** Runs of the edit buffer, the order of its edits, and two things the grid cannot do. */
module GridTheorems {
  import opened Sequences
  import opened Coercion
  import opened TableSchema
  import opened CellKeys
  import opened Dml
  import opened DmlRoundTrip
  import opened EditService
  import opened GridEdits
  import opened GridMeaning
  import opened KeyedRows
  import opened Options

  // ----- runs -----

  function Play(page: Page, events: seq<Event>): Buffer {
    if events == [] then CLEAN else After(page, Play(page, events[..|events| - 1]), events[|events| - 1])
  }

  /** The grid lets no key cell be edited, neither of an existing row nor of a new one. */
  ghost predicate Offered(page: Page, e: Event) {
    e.EditCell? ==> e.c in ColumnNames(page.columns, false)
  }

  ghost predicate AllOffered(page: Page, events: seq<Event>) {
    forall e :: e in events ==> Offered(page, e)
  }

  /** No cell of a key column of a new row has anything in it. */
  ghost predicate Keyless(page: Page, b: Buffer) {
    forall row :: row in b.newRows ==> KeylessRow(page, row)
  }

  ghost predicate KeylessRow(page: Page, row: map<string, string>) {
    forall c :: c in ColumnNames(page.columns, true) && c in row ==> row[c] == ""
  }

  lemma {:induction false} EditKeepsKeys(page: Page, b: Buffer, r: nat, c: string, v: string)
    requires NoKeyDirty(page, b) && Keyless(page, b) && ColonFree(page) && PlainColumns(page) && c in ColumnNames(page.columns, false)
    ensures NoKeyDirty(page, Changed(page, b, r, c, v)) && Keyless(page, Changed(page, b, r, c, v))
  {
    assert c in AllNames(page.columns);
    KeyRoundTrip(r, c);
    var ni := r - |page.rows|;
    if r >= |page.rows| && ni < |b.newRows| {
      assert b.newRows[ni] in b.newRows;
      forall row | row in b.newRows[ni := b.newRows[ni][c := v]] ensures KeylessRow(page, row) {
        assert row in b.newRows || row == b.newRows[ni][c := v];
      }
    }
  }

  lemma {:induction false} ToggleKeepsKeys(page: Page, b: Buffer, r: nat)
    requires NoKeyDirty(page, b) && Keyless(page, b)
    ensures NoKeyDirty(page, DeleteToggled(page, b, r)) && Keyless(page, DeleteToggled(page, b, r))
  {
    var ni := r - |page.rows|;
    if r >= |page.rows| && ni < |b.newRows| {
      forall row | row in b.newRows[..ni] + b.newRows[ni + 1..] ensures row in b.newRows {
      }
    }
  }

  lemma {:induction false} AddKeepsKeys(page: Page, b: Buffer)
    requires NoKeyDirty(page, b) && Keyless(page, b)
    ensures NoKeyDirty(page, RowAdded(page, b)) && Keyless(page, RowAdded(page, b))
  {
    var blank := map name | name in AllNames(page.columns) :: "";
    assert KeylessRow(page, blank);
    forall row | row in b.newRows + [blank] ensures row in b.newRows || row == blank {
    }
  }

  /** After any run of what the grid offers the buffer is valid, no key cell is dirty, and no new row has a key. */
  lemma {:induction false} RunsAreSound(page: Page, events: seq<Event>)
    requires AllOffered(page, events) && ColonFree(page) && PlainColumns(page)
    ensures var b := Play(page, events); Valid(page, b) && NoKeyDirty(page, b) && Keyless(page, b)
    decreases |events|
  {
    if events != [] {
      var front, e := events[..|events| - 1], events[|events| - 1];
      assert e in events && forall x :: x in front ==> x in events;
      RunsAreSound(page, front);
      var b := Play(page, front);
      if e.EditCell? {
        assert e.c in AllNames(page.columns);
      }
      EventsKeepValid(page, b, e);
      match e {
        case EditCell(r, c, v) => EditKeepsKeys(page, b, r, c, v);
        case ToggleDelete(r) => ToggleKeepsKeys(page, b, r);
        case AddRow => AddKeepsKeys(page, b);
        case Reset =>
      }
    }
  }

  // ----- new rows -----

  lemma {:induction false} SomeMissing(cols: seq<Column>, row: map<string, Value>, c: Column)
    requires c in cols && c.name !in row
    ensures Missing(cols, row, true).Some?
    decreases |cols|
  {
    if c != cols[|cols| - 1] {
      assert c in cols[..|cols| - 1];
      SomeMissing(cols[..|cols| - 1], row, c);
    }
  }

  /** The page shows the key columns of the table as such. */
  ghost predicate PageOf(page: Page, td: TableDetail) {
    forall c :: c in KeyColumns(td) ==> c.name in ColumnNames(page.columns, true)
  }

  lemma {:induction false} KeylessRejected(lib: Library, td: TableDetail, page: Page, row: map<string, string>)
    requires KeylessRow(page, row) && PageOf(page, td) && KeyColumns(td) != [] && PlainColumns(page)
    ensures PlanInsert(lib, td, InsertOp(page, row)).Err? && PlanInsert(lib, td, InsertOp(page, row)).error.IncompletePK?
  {
    var op, c := InsertOp(page, row), KeyColumns(td)[0];
    assert c in KeyColumns(td) && c.name in ColumnNames(page.columns, true);
    assert c.name !in op.pk && c.name !in op.changes;
    SomeMissing(KeyColumns(td), op.pk + op.changes, c);
  }

  lemma {:induction false} OneFailureFails(lib: Library, td: TableDetail, ops: seq<Op>, i: nat)
    requires i < |ops| && PlanAt(lib, td, i, ops[i]).Err?
    ensures Plans(lib, td, ops).Err?
    decreases |ops|
  {
    if i < |ops| - 1 {
      assert ops[..|ops| - 1][i] == ops[i];
      OneFailureFails(lib, td, ops[..|ops| - 1], i);
    }
  }

  lemma {:induction false} LastInsert(page: Page, newRows: seq<map<string, string>>)
    requires newRows != []
    ensures InsertOps(page, newRows) != []
    ensures InsertOps(page, newRows)[|InsertOps(page, newRows)| - 1] == InsertOp(page, newRows[|newRows| - 1])
  {
  }

  /** The grid cannot add a row: it never lets the key of a new row be filled in, so whatever else is in the buffer,
      the changeset is refused. */
  lemma {:induction false} NewRowsNeverCommit(lib: Library, td: TableDetail, page: Page, events: seq<Event>, others: seq<Op>)
    requires AllOffered(page, events) && ColonFree(page) && PlainColumns(page)
    requires PageOf(page, td) && KeyColumns(td) != [] && Play(page, events).newRows != []
    ensures Plans(lib, td, others + InsertOps(page, Play(page, events).newRows)).Err?
  {
    var rows := Play(page, events).newRows;
    var inserts := InsertOps(page, rows);
    var all, row := others + inserts, rows[|rows| - 1];
    RunsAreSound(page, events);
    assert row in rows;
    LastInsert(page, rows);
    KeylessRejected(lib, td, page, row);
    assert all[|all| - 1] == InsertOp(page, row);
    OneFailureFails(lib, td, all, |all| - 1);
  }

  /** From every state the grid can reach without new rows, committing makes the page what it shows; from every other
      the changeset is refused. */
  lemma {:induction false} EveryRunCommits(lib: Library, td: TableDetail, page: Page, events: seq<Event>,
                                           m: map<nat, map<string, string>>, ops: seq<Op>)
    requires AllOffered(page, events) && Distinct(PageKeys(page)) && ColonFree(page) && PlainColumns(page)
    requires PageOf(page, td) && KeyColumns(td) != []
    requires var b := Play(page, events);
      && Collected(b, b.dirty.Keys, m)
      && ops == UpdateOps(page, m, |page.rows|) + DeleteOps(page, b.deleted) + InsertOps(page, b.newRows)
    ensures var b := Play(page, events);
      if b.newRows == [] then ApplyAll(PageTable(page), ops) == Build(PageKeys(page), ShownRows(page, b))
      else Plans(lib, td, ops).Err?
  {
    var b := Play(page, events);
    RunsAreSound(page, events);
    if b.newRows == [] {
      ChangesApply(page, b, m, ops);
    } else {
      NewRowsNeverCommit(lib, td, page, events, UpdateOps(page, m, |page.rows|) + DeleteOps(page, b.deleted));
    }
  }

  // ----- the order of edits -----

  /** No two edits are of the same row. */
  ghost predicate DistinctTargets(ops: multiset<Op>) {
    (forall a :: a in ops ==> ops[a] == 1) && (forall a, b :: a in ops && b in ops && a.pk == b.pk ==> a == b)
  }

  function At(t: Table, pk: map<string, Value>): Option<Row> {
    if pk in t then Some(t[pk]) else None
  }

  // An edit as seen from the row it is of.
  function Outcome(before: Option<Row>, op: Op): Option<Row> {
    if op.kind == "delete" then None else Some((if before.Some? then before.value else map[]) + op.changes)
  }

  lemma AtApply(t: Table, op: Op, pk: map<string, Value>)
    ensures At(Apply(t, op), pk) == if op.pk == pk then Outcome(At(t, pk), op) else At(t, pk)
  {
  }

  /** None of the edits is of the row. */
  ghost predicate Untouched(ops: seq<Op>, pk: map<string, Value>) {
    forall op :: op in ops ==> op.pk != pk
  }

  lemma {:induction false} UntouchedStays(t: Table, ops: seq<Op>, pk: map<string, Value>)
    requires Untouched(ops, pk)
    ensures At(ApplyAll(t, ops), pk) == At(t, pk)
    decreases |ops|
  {
    if ops != [] {
      var front, last := ops[..|ops| - 1], ops[|ops| - 1];
      assert last in ops && forall op :: op in front ==> op in ops;
      UntouchedStays(t, front, pk);
      AtApply(ApplyAll(t, front), last, pk);
    }
  }

  // A row is touched by its own edit alone.
  lemma {:induction false} RowByRow(t: Table, ops: seq<Op>, op: Op)
    requires DistinctTargets(multiset(ops)) && op in ops
    ensures At(ApplyAll(t, ops), op.pk) == Outcome(At(t, op.pk), op)
    decreases |ops|
  {
    var front, last := ops[..|ops| - 1], ops[|ops| - 1];
    FrontLast(ops);
    assert multiset(ops) == multiset(front) + multiset{last};
    FrontDistinct(multiset(front), last);
    AtApply(ApplyAll(t, front), last, op.pk);
    if op == last {
      forall x | x in front ensures x.pk != op.pk {
        assert x in multiset(front);
      }
      UntouchedStays(t, front, op.pk);
    } else {
      assert op in multiset(front);
      RowByRow(t, front, op);
    }
  }

  lemma {:induction false} FrontDistinct(front: multiset<Op>, last: Op)
    requires DistinctTargets(front + multiset{last})
    ensures DistinctTargets(front) && forall op :: op in front ==> op.pk != last.pk
  {
    var all := front + multiset{last};
    assert last in all && all[last] == front[last] + 1;
    forall op | op in front ensures op in all && all[op] >= front[op] {
    }
  }

  /** Edits of distinct rows may be applied in any order. */
  lemma {:induction false} OrderDoesNotMatter(t: Table, ops: seq<Op>, others: seq<Op>)
    requires DistinctTargets(multiset(ops)) && multiset(ops) == multiset(others)
    ensures ApplyAll(t, ops) == ApplyAll(t, others)
  {
    forall pk ensures At(ApplyAll(t, ops), pk) == At(ApplyAll(t, others), pk) {
      if op :| op in ops && op.pk == pk {
        assert op in multiset(others);
        RowByRow(t, ops, op);
        RowByRow(t, others, op);
      } else {
        forall op | op in others ensures op.pk != pk {
          assert op in multiset(ops);
        }
        UntouchedStays(t, ops, pk);
        UntouchedStays(t, others, pk);
      }
    }
    SameTables(ApplyAll(t, ops), ApplyAll(t, others));
  }

  lemma SameTables(t: Table, u: Table)
    requires forall pk :: At(t, pk) == At(u, pk)
    ensures t == u
  {
    forall pk ensures pk in t <==> pk in u {
      assert At(t, pk) == At(u, pk);
    }
    forall pk | pk in t ensures t[pk] == u[pk] {
      assert At(t, pk) == At(u, pk);
    }
  }

  // ----- the rows the edits are of -----

  function Targets(ops: seq<Op>): (r: seq<map<string, Value>>)
    ensures |r| == |ops|
  {
    seq(|ops|, i requires 0 <= i < |ops| => ops[i].pk)
  }

  lemma {:induction false} DistinctOps(ops: seq<Op>)
    requires Distinct(Targets(ops))
    ensures DistinctTargets(multiset(ops))
    decreases |ops|
  {
    if ops != [] {
      var front, last := ops[..|ops| - 1], ops[|ops| - 1];
      FrontLast(ops);
      assert multiset(ops) == multiset(front) + multiset{last};
      assert Targets(ops)[..|ops| - 1] == Targets(front);
      DistinctOps(front);
      forall op | op in front ensures op.pk != last.pk {
        var i :| 0 <= i < |front| && front[i] == op;
        assert Targets(front)[i] == op.pk;
      }
      assert last !in multiset(front);
    }
  }

  lemma TargetsConcat(a: seq<Op>, b: seq<Op>)
    ensures Targets(a + b) == Targets(a) + Targets(b)
  {
  }

  /** One of the first `n` rows, not marked for deletion, has this key. */
  ghost predicate KeyOfKept<K(!new)>(keys: seq<K>, n: nat, deleted: seq<nat>, pk: K) {
    exists r :: 0 <= r < n <= |keys| && r !in deleted && pk == keys[r]
  }

  ghost predicate KeyOfDeleted<K(!new)>(keys: seq<K>, deleted: seq<nat>, pk: K) {
    exists r :: r in deleted && r < |keys| && pk == keys[r]
  }

  ghost predicate AllKept<K(!new)>(keys: seq<K>, n: nat, deleted: seq<nat>, pks: seq<K>) {
    forall pk :: pk in pks ==> KeyOfKept(keys, n, deleted, pk)
  }

  ghost predicate AllDeleted<K(!new)>(keys: seq<K>, deleted: seq<nat>, pks: seq<K>) {
    forall pk :: pk in pks ==> KeyOfDeleted(keys, deleted, pk)
  }

  // The key of a further row that is kept.
  lemma {:induction false} KeptSnoc<K(!new)>(keys: seq<K>, n: nat, deleted: seq<nat>, pks: seq<K>)
    requires 0 < n <= |keys| && Distinct(keys) && Distinct(pks) && AllKept(keys, n - 1, deleted, pks)
    ensures AllKept(keys, n, deleted, pks)
    ensures n - 1 !in deleted ==> Distinct(pks + [keys[n - 1]]) && AllKept(keys, n, deleted, pks + [keys[n - 1]])
  {
    var all := pks + [keys[n - 1]];
    forall pk | pk in pks ensures KeyOfKept(keys, n, deleted, pk) && pk != keys[n - 1] {
      var r :| 0 <= r < n - 1 && r !in deleted && pk == keys[r];
      KeysDiffer(keys, r, n - 1);
    }
    assert all[..|pks|] == pks;
    if n - 1 !in deleted {
      assert KeyOfKept(keys, n, deleted, keys[n - 1]);
    }
  }

  lemma {:induction false} DeletedSnoc<K(!new)>(keys: seq<K>, front: seq<nat>, last: nat, pks: seq<K>)
    requires Distinct(keys) && last < |keys| && last !in front && Distinct(pks) && AllDeleted(keys, front, pks)
    ensures Distinct(pks + [keys[last]]) && AllDeleted(keys, front + [last], pks + [keys[last]])
  {
    var all, deleted := pks + [keys[last]], front + [last];
    assert last in deleted;
    forall pk | pk in pks ensures KeyOfDeleted(keys, deleted, pk) && pk != keys[last] {
      var r :| r in front && r < |keys| && pk == keys[r];
      assert r in deleted;
      KeysDiffer(keys, r, last);
    }
    assert all[..|pks|] == pks;
    assert KeyOfDeleted(keys, deleted, keys[last]);
  }

  lemma {:induction false} UpdateTargets(page: Page, keys: seq<map<string, Value>>, m: map<nat, map<string, string>>, n: nat,
                                         deleted: seq<nat>)
    requires keys == PageKeys(page) && n <= |keys| && Distinct(keys) && forall r :: r in m ==> r !in deleted
    ensures Distinct(Targets(UpdateOps(page, m, n))) && AllKept(keys, n, deleted, Targets(UpdateOps(page, m, n)))
    decreases n
  {
    if n > 0 {
      var front := UpdateOps(page, m, n - 1);
      UpdateTargets(page, keys, m, n - 1, deleted);
      KeptSnoc(keys, n, deleted, Targets(front));
      UpdateTargetsStep(page, m, n);
    }
  }

  lemma UpdateTargetsStep(page: Page, m: map<nat, map<string, string>>, n: nat)
    requires 0 < n <= |page.rows|
    ensures var front := Targets(UpdateOps(page, m, n - 1));
      Targets(UpdateOps(page, m, n)) == if n - 1 in m then front + [PageKeys(page)[n - 1]] else front
  {
    if n - 1 in m {
      TargetsSnoc(UpdateOps(page, m, n - 1), Op("update", Pk(page, n - 1), TextCells(m[n - 1])));
    } else {
      assert UpdateOps(page, m, n) == UpdateOps(page, m, n - 1);
    }
  }

  lemma TargetsSnoc(ops: seq<Op>, op: Op)
    ensures Targets(ops + [op]) == Targets(ops) + [op.pk]
  {
  }

  lemma {:induction false} KeysDiffer<K>(keys: seq<K>, i: nat, j: nat)
    requires Distinct(keys) && i < |keys| && j < |keys| && i != j
    ensures keys[i] != keys[j]
    decreases |keys|
  {
    var n := |keys| - 1;
    if i == n {
      assert keys[..n][j] == keys[j];
    } else if j == n {
      assert keys[..n][i] == keys[i];
    } else {
      KeysDiffer(keys[..n], i, j);
    }
  }

  lemma {:induction false} DeleteTargets(page: Page, keys: seq<map<string, Value>>, deleted: seq<nat>)
    requires keys == PageKeys(page) && Distinct(keys) && RowsExist(page, deleted) && NoRowTwice(deleted)
    ensures Distinct(Targets(DeleteOps(page, deleted))) && AllDeleted(keys, deleted, Targets(DeleteOps(page, deleted)))
    decreases |deleted|
  {
    if deleted != [] {
      var front, last := deleted[..|deleted| - 1], deleted[|deleted| - 1];
      FrontLast(deleted);
      assert last in deleted;
      assert forall r :: r in front ==> r in deleted;
      DeleteTargets(page, keys, front);
      TargetsSnoc(DeleteOps(page, front), Op("delete", keys[last], map[]));
      DeletedSnoc(keys, front, last, Targets(DeleteOps(page, front)));
    }
  }

  lemma {:induction false} DistinctConcat<K>(a: seq<K>, b: seq<K>)
    requires Distinct(a) && Distinct(b) && forall k :: k in a ==> k !in b
    ensures Distinct(a + b)
    decreases |b|
  {
    if b == [] {
      assert a + b == a;
    } else {
      var front, last := b[..|b| - 1], b[|b| - 1];
      assert (a + b)[..|a + b| - 1] == a + front;
      assert last in b && forall k :: k in front ==> k in b;
      DistinctConcat(a, front);
    }
  }

  // Together they are keys of the page, none twice.
  lemma {:induction false} KeptAndDeleted<K(!new)>(keys: seq<K>, deleted: seq<nat>, kept: seq<K>, gone: seq<K>)
    requires Distinct(keys) && Distinct(kept) && AllKept(keys, |keys|, deleted, kept)
    requires Distinct(gone) && AllDeleted(keys, deleted, gone)
    ensures Distinct(kept + gone) && forall pk :: pk in kept + gone ==> pk in keys
  {
    forall pk | pk in kept ensures pk !in gone && pk in keys {
      var r :| 0 <= r < |keys| && r !in deleted && pk == keys[r];
      if pk in gone {
        var d :| d in deleted && d < |keys| && pk == keys[d];
        KeysDiffer(keys, r, d);
      }
    }
    forall pk | pk in gone ensures pk in keys {
      var d :| d in deleted && d < |keys| && pk == keys[d];
    }
    DistinctConcat(kept, gone);
  }

  lemma {:induction false} UpdatedAreKept(b: Buffer, m: map<nat, map<string, string>>)
    requires Collected(b, b.dirty.Keys, m)
    ensures forall r :: r in m ==> r !in b.deleted
  {
    forall r | r in m ensures r !in b.deleted {
      var c :| c in m[r];
      var key :| CellOf(key, b.dirty.Keys, b, r, c);
    }
  }

  /** The updates and deletes of a changeset are of existing rows, no two of the same row: a row is updated or
      deleted, never both. */
  lemma {:induction false} EditsAreOfDistinctRows(page: Page, b: Buffer, m: map<nat, map<string, string>>)
    requires Valid(page, b) && Distinct(PageKeys(page)) && Collected(b, b.dirty.Keys, m)
    ensures var pks := Targets(UpdateOps(page, m, |page.rows|) + DeleteOps(page, b.deleted));
      Distinct(pks) && forall pk :: pk in pks ==> pk in PageKeys(page)
  {
    var keys, updates, deletes := PageKeys(page), UpdateOps(page, m, |page.rows|), DeleteOps(page, b.deleted);
    UpdatedAreKept(b, m);
    UpdateTargets(page, keys, m, |page.rows|, b.deleted);
    DeleteTargets(page, keys, b.deleted);
    KeptAndDeleted(keys, b.deleted, Targets(updates), Targets(deletes));
    TargetsConcat(updates, deletes);
  }

  /** If moreover the new rows' keys are distinct and not on the page, the edits of the changeset may be applied in
      any order. */
  lemma {:induction false} ChangesInAnyOrder(page: Page, b: Buffer, m: map<nat, map<string, string>>, ops: seq<Op>, others: seq<Op>, t: Table)
    requires Valid(page, b) && Distinct(PageKeys(page)) && Collected(b, b.dirty.Keys, m)
    requires ops == UpdateOps(page, m, |page.rows|) + DeleteOps(page, b.deleted) + InsertOps(page, b.newRows)
    requires Distinct(Targets(InsertOps(page, b.newRows)))
    requires forall pk :: pk in Targets(InsertOps(page, b.newRows)) ==> pk !in PageKeys(page)
    requires multiset(ops) == multiset(others)
    ensures ApplyAll(t, ops) == ApplyAll(t, others)
  {
    var changes, inserts := UpdateOps(page, m, |page.rows|) + DeleteOps(page, b.deleted), InsertOps(page, b.newRows);
    EditsAreOfDistinctRows(page, b, m);
    DistinctConcat(Targets(changes), Targets(inserts));
    TargetsConcat(changes, inserts);
    DistinctOps(ops);
    OrderDoesNotMatter(t, ops, others);
  }
}
