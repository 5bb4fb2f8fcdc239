/** Changesets edit by edit: what is executed and counted, and what stands in the way (internal/dataedit/service.go). */
module ChangeSets {
  import opened Sequences
  import opened Options
  import opened Coercion
  import opened TableSchema
  import opened Dml
  import opened DmlRoundTrip
  import opened EditService

  /** What becomes of each edit by itself. */
  ghost function Results(lib: Library, td: TableDetail, ops: seq<Op>): (rs: seq<Result<Plan, Failure>>)
    ensures |rs| == |ops|
  {
    seq(|ops|, i requires 0 <= i < |ops| => PlanAt(lib, td, i, ops[i]))
  }

  /** Each edit compiles, and these are the plans. */
  ghost predicate AllOk(rs: seq<Result<Plan, Failure>>, ps: seq<Plan>) {
    |ps| == |rs| && forall i :: 0 <= i < |rs| ==> rs[i] == Ok(ps[i])
  }

  /** The edit at `i` is the first that does not compile, and this is why. */
  ghost predicate FailsFirst(rs: seq<Result<Plan, Failure>>, i: nat, e: Failure) {
    i < |rs| && rs[i] == Err(e) && forall j :: 0 <= j < i ==> rs[j].Ok?
  }

  ghost function Collected(rs: seq<Result<Plan, Failure>>): Result<seq<Plan>, Failure> {
    if rs == [] then Ok([])
    else match Collected(rs[..|rs| - 1])
      case Err(e) => Err(e)
      case Ok(ps) =>
        match rs[|rs| - 1]
        case Err(e) => Err(e)
        case Ok(p) => Ok(ps + [p])
  }

  lemma ResultsFront(lib: Library, td: TableDetail, ops: seq<Op>)
    requires ops != []
    ensures Results(lib, td, ops)[..|ops| - 1] == Results(lib, td, ops[..|ops| - 1])
    ensures Results(lib, td, ops)[|ops| - 1] == PlanAt(lib, td, |ops| - 1, ops[|ops| - 1])
  {
  }

  lemma {:induction false} PlansCollected(lib: Library, td: TableDetail, ops: seq<Op>)
    ensures Plans(lib, td, ops) == Collected(Results(lib, td, ops))
    decreases |ops|
  {
    if ops != [] {
      ResultsFront(lib, td, ops);
      PlansCollected(lib, td, ops[..|ops| - 1]);
    }
  }

  lemma {:induction false} CollectedIsThese(rs: seq<Result<Plan, Failure>>)
    ensures Collected(rs).Ok? ==> AllOk(rs, Collected(rs).value)
    ensures Collected(rs).Err? ==> exists i: nat :: FailsFirst(rs, i, Collected(rs).error)
    decreases |rs|
  {
    if rs != [] {
      var n: nat := |rs| - 1;
      var front := rs[..n];
      CollectedIsThese(front);
      if Collected(front).Err? {
        var i: nat :| FailsFirst(front, i, Collected(front).error);
        assert FailsFirst(rs, i, Collected(front).error);
      } else if rs[n].Err? {
        assert FailsFirst(rs, n, rs[n].error);
      }
    }
  }

  lemma {:induction false} AllOkCollects(rs: seq<Result<Plan, Failure>>, ps: seq<Plan>)
    requires AllOk(rs, ps)
    ensures Collected(rs) == Ok(ps)
    decreases |rs|
  {
    if rs != [] {
      AllOkCollects(rs[..|rs| - 1], ps[..|ps| - 1]);
      FrontLast(ps);
    }
  }

  lemma {:induction false} FirstCollects(rs: seq<Result<Plan, Failure>>, i: nat, e: Failure)
    requires FailsFirst(rs, i, e)
    ensures Collected(rs) == Err(e)
    decreases |rs|
  {
    var front := rs[..|rs| - 1];
    if i < |front| {
      FirstCollects(front, i, e);
    } else {
      CollectedIsThese(front);
    }
  }

  /** A changeset compiles exactly if each of its edits does, to the plans of these, one for each, in order. */
  lemma {:induction false} PlansExactly(lib: Library, td: TableDetail, ops: seq<Op>, ps: seq<Plan>)
    ensures Plans(lib, td, ops) == Ok(ps) <==> AllOk(Results(lib, td, ops), ps)
  {
    PlansCollected(lib, td, ops);
    CollectedIsThese(Results(lib, td, ops));
    if AllOk(Results(lib, td, ops), ps) {
      AllOkCollects(Results(lib, td, ops), ps);
    }
  }

  /** Otherwise it fails with the failure of the first edit that does not compile. */
  lemma {:induction false} FailureExactly(lib: Library, td: TableDetail, ops: seq<Op>, e: Failure)
    ensures Plans(lib, td, ops) == Err(e) <==> exists i: nat :: FailsFirst(Results(lib, td, ops), i, e)
  {
    PlansCollected(lib, td, ops);
    CollectedIsThese(Results(lib, td, ops));
    if i: nat :| FailsFirst(Results(lib, td, ops), i, e) {
      FirstCollects(Results(lib, td, ops), i, e);
    }
  }

  /** An edit compiles to a statement of its own kind, and what is no insert, update or delete not at all. */
  lemma {:induction false} PlanIsOfKind(lib: Library, td: TableDetail, i: nat, op: Op)
    ensures var r := PlanAt(lib, td, i, op);
      && (r.Ok? ==> match r.value
          case Insert(_) => op.kind == "insert" && PlanInsert(lib, td, op) == Ok(r.value)
          case Update(_, _) => op.kind == "update" && PlanUpdate(lib, td, op) == Ok(r.value)
          case Delete(_) => op.kind == "delete" && PlanDelete(lib, td, op) == Ok(r.value))
      && (op.kind == "insert" && PlanInsert(lib, td, op).Err? ==> r == Err(AtOp(i, op.kind, PlanInsert(lib, td, op).error)))
      && (op.kind == "update" && PlanUpdate(lib, td, op).Err? ==> r == Err(AtOp(i, op.kind, PlanUpdate(lib, td, op).error)))
      && (op.kind == "delete" && PlanDelete(lib, td, op).Err? ==> r == Err(AtOp(i, op.kind, PlanDelete(lib, td, op).error)))
      && (op.kind != "insert" && op.kind != "update" && op.kind != "delete" ==> r == Err(UnknownKind(i, op.kind)))
  {
  }

  // ----- the batch -----

  lemma {:induction false} StatementAt(td: TableDetail, ps: seq<Plan>, i: nat)
    requires i < |ps|
    ensures |Statements(td, ps)| == |ps| && Statements(td, ps)[i] == StatementOf(td, ps[i])
    decreases |ps|
  {
    AsMany(td, ps);
    AsMany(td, ps[..|ps| - 1]);
    if i < |ps| - 1 {
      StatementAt(td, ps[..|ps| - 1], i);
    }
  }

  lemma {:induction false} EntryAt(stmts: seq<Statement>, i: nat)
    requires i < |stmts|
    ensures |Entries(stmts)| == |stmts| && Entries(stmts)[i] == (stmts[i].cql, stmts[i].args)
    decreases |stmts|
  {
    EntriesAsMany(stmts);
    EntriesAsMany(stmts[..|stmts| - 1]);
    if i < |stmts| - 1 {
      EntryAt(stmts[..|stmts| - 1], i);
    }
  }

  lemma {:induction false} EntriesAsMany(stmts: seq<Statement>)
    ensures |Entries(stmts)| == |stmts|
    decreases |stmts|
  {
    if stmts != [] {
      EntriesAsMany(stmts[..|stmts| - 1]);
    }
  }

  /** The batch has one entry for each edit, in order: the text with placeholders of the edit's own plan, with the
      arguments of that. */
  lemma {:induction false} BatchExactly(lib: Library, td: TableDetail, ops: seq<Op>, ps: seq<Plan>, i: nat)
    requires Plans(lib, td, ops) == Ok(ps) && i < |ops|
    ensures var batch := Entries(Statements(td, ps));
      && |batch| == |ps| == |ops| && PlanAt(lib, td, i, ops[i]) == Ok(ps[i])
      && batch[i] == (PlanText(td, ps[i], false), PlanArgs(ps[i]))
  {
    PlansExactly(lib, td, ops, ps);
    assert Results(lib, td, ops)[i] == Ok(ps[i]);
    StatementAt(td, ps, i);
    EntryAt(Statements(td, ps), i);
  }

  // ----- the counts -----

  ghost function DeleteIndices(ops: seq<Op>): set<nat> {
    set i: nat | i < |ops| && ops[i].kind == "delete"
  }

  /** The number of deletes reported is that of the edits of this kind. */
  lemma {:induction false} DeletesExactly(ops: seq<Op>)
    ensures Deletes(ops) == |DeleteIndices(ops)|
    decreases |ops|
  {
    if ops == [] {
      assert DeleteIndices(ops) == {};
    } else {
      var n: nat := |ops| - 1;
      DeletesExactly(ops[..n]);
      assert DeleteIndices(ops) == DeleteIndices(ops[..n]) + (if ops[n].kind == "delete" then {n} else {});
    }
  }

  // ----- what stands in the way of a commit -----

  ghost predicate AllCompile(lib: Library, td: TableDetail, ops: seq<Op>) {
    forall i :: 0 <= i < |ops| ==> Results(lib, td, ops)[i].Ok?
  }

  lemma {:induction false} CompileExactly(lib: Library, td: TableDetail, ops: seq<Op>)
    ensures Plans(lib, td, ops).Ok? <==> AllCompile(lib, td, ops)
    ensures Plans(lib, td, ops).Ok? ==> |Plans(lib, td, ops).value| == |ops|
  {
    PlansCollected(lib, td, ops);
    CollectedIsThese(Results(lib, td, ops));
  }

  lemma FailuresOfPlans(lib: Library, td: TableDetail, i: nat, op: Op)
    ensures PlanAt(lib, td, i, op).Err? ==> PlanAt(lib, td, i, op).error.UnknownKind? || PlanAt(lib, td, i, op).error.AtOp?
  {
  }

  lemma PlanFailures(lib: Library, td: TableDetail, ops: seq<Op>)
    requires Plans(lib, td, ops).Err?
    ensures Plans(lib, td, ops).error.UnknownKind? || Plans(lib, td, ops).error.AtOp?
  {
    var e := Plans(lib, td, ops).error;
    FailureExactly(lib, td, ops, e);
    var i: nat :| FailsFirst(Results(lib, td, ops), i, e);
    FailuresOfPlans(lib, td, i, ops[i]);
  }

  /** Nothing stands in the way of a commit exactly if the connection is known and not read-only, the table is known, all
      edits compile, and there is a session if there is an edit; otherwise the first of these that fails is reported. */
  lemma {:induction false} ObstacleExactly(lib: Library, w: Surroundings, ops: seq<Op>)
    ensures var o := Obstacle(lib, w, ops);
      && (o == Some(UnknownConnection) <==> !w.known)
      && (o == Some(ReadOnlyConnection) <==> w.known && w.readOnly)
      && (o == Some(UnknownTable) <==> w.known && !w.readOnly && w.table.None?)
      && (o == Some(NoSession) <==>
          w.known && !w.readOnly && w.table.Some? && AllCompile(lib, w.table.value, ops) && ops != [] && !w.session)
      && (o == None <==>
          w.known && !w.readOnly && w.table.Some? && AllCompile(lib, w.table.value, ops) && (ops == [] || w.session))
  {
    if w.table.Some? {
      var td := w.table.value;
      CompileExactly(lib, td, ops);
      if Plans(lib, td, ops).Err? {
        PlanFailures(lib, td, ops);
      }
    }
  }
}
