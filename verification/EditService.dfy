/** Changesets as a whole (internal/dataedit/service.go): the batch to commit and its preview. */
module EditService {
  import opened Sequences
  import opened Options
  import opened Quoting
  import opened CqlLexer
  import opened Coercion
  import opened TableSchema
  import opened Dml
  import opened DmlReading
  import opened DmlRoundTrip

  /** What an edit meets: whether its connection is known and read-only, the table as the schema has it, whether a
      session is to be had, and whether the cluster takes the batch. */
  datatype Surroundings =
    Surroundings(known: bool, readOnly: bool, table: Option<TableDetail>, session: bool, success: bool)

  datatype Failure = UnknownConnection | ReadOnlyConnection | UnknownTable | NoSession | BatchFailed
    | UnknownKind(index: nat, kind: string) | AtOp(index: nat, kind: string, error: Error)

  // ----- what is to be built -----

  ghost function PlanAt(lib: Library, td: TableDetail, index: nat, op: Op): Result<Plan, Failure> {
    match PlanOf(lib, td, op)
    case None => Err(UnknownKind(index, op.kind))
    case Some(Err(e)) => Err(AtOp(index, op.kind, e))
    case Some(Ok(p)) => Ok(p)
  }

  /** The plans of all edits, or the failure of the first one that fails. */
  ghost function Plans(lib: Library, td: TableDetail, ops: seq<Op>): Result<seq<Plan>, Failure> {
    if ops == [] then Ok([])
    else match Plans(lib, td, ops[..|ops| - 1])
      case Err(e) => Err(e)
      case Ok(plans) =>
        match PlanAt(lib, td, |ops| - 1, ops[|ops| - 1])
        case Err(e) => Err(e)
        case Ok(p) => Ok(plans + [p])
  }

  function StatementOf(td: TableDetail, p: Plan): Statement {
    Statement(PlanText(td, p, false), PlanArgs(p), PlanText(td, p, true))
  }

  function Statements(td: TableDetail, plans: seq<Plan>): seq<Statement> {
    if plans == [] then [] else Statements(td, plans[..|plans| - 1]) + [StatementOf(td, plans[|plans| - 1])]
  }

  function Deletes(ops: seq<Op>): nat {
    if ops == [] then 0 else Deletes(ops[..|ops| - 1]) + (if ops[|ops| - 1].kind == "delete" then 1 else 0)
  }

  function BodyText(stmts: seq<Statement>): string {
    if stmts == [] then "" else BodyText(stmts[..|stmts| - 1]) + "  " + stmts[|stmts| - 1].display + ";\n"
  }

  function PreviewText(stmts: seq<Statement>): string {
    "BEGIN BATCH\n" + BodyText(stmts) + "APPLY BATCH;"
  }

  // ----- the code -----

  lemma {:induction false} FailureStays(lib: Library, td: TableDetail, ops: seq<Op>, i: nat)
    requires i <= |ops| && Plans(lib, td, ops[..i]).Err?
    ensures Plans(lib, td, ops) == Plans(lib, td, ops[..i])
    decreases |ops|
  {
    if i < |ops| {
      assert ops[..|ops| - 1][..i] == ops[..i];
      FailureStays(lib, td, ops[..|ops| - 1], i);
    } else {
      assert ops[..i] == ops;
    }
  }

  lemma PlansStep(lib: Library, td: TableDetail, ops: seq<Op>, i: nat, plans: seq<Plan>)
    requires i < |ops| && Plans(lib, td, ops[..i]) == Ok(plans)
    ensures Plans(lib, td, ops[..i + 1]) ==
            (match PlanAt(lib, td, i, ops[i])
             case Err(e) => Err(e)
             case Ok(p) => Ok(plans + [p]))
    ensures Deletes(ops[..i + 1]) == Deletes(ops[..i]) + (if ops[i].kind == "delete" then 1 else 0)
  {
    assert ops[..i + 1][..i] == ops[..i];
  }

  lemma StatementsSnoc(td: TableDetail, plans: seq<Plan>, p: Plan)
    ensures Statements(td, plans + [p]) == Statements(td, plans) + [StatementOf(td, p)]
  {
    assert (plans + [p])[..|plans|] == plans;
  }

  predicate Built(r: Result<(seq<Statement>, nat), Failure>, td: TableDetail, plans: Result<seq<Plan>, Failure>, ops: seq<Op>) {
    match plans
    case Err(e) => r == Err(e)
    case Ok(ps) => r == Ok((Statements(td, ps), Deletes(ops)))
  }

  // One round of the loop of buildAll.
  method BuildOne(lib: Library, td: TableDetail, index: nat, op: Op) returns (r: Result<Statement, Failure>, ghost p: Result<Plan, Failure>)
    ensures p == PlanAt(lib, td, index, op)
    ensures p.Err? ==> r == Err(p.error)
    ensures p.Ok? ==> r == Ok(StatementOf(td, p.value))
  {
    p := PlanAt(lib, td, index, op);
    var built: Result<Statement, Error>;
    if op.kind == "insert" {
      built := BuildInsert(lib, td, op);
    } else if op.kind == "update" {
      built := BuildUpdate(lib, td, op);
    } else if op.kind == "delete" {
      built := BuildDelete(lib, td, op);
    } else {
      return Err(UnknownKind(index, op.kind)), p;
    }
    match built {
      case Err(e) => r := Err(AtOp(index, op.kind, e));
      case Ok(st) => r := Ok(st);
    }
  }

  method BuildAll(lib: Library, td: TableDetail, ops: seq<Op>) returns (r: Result<(seq<Statement>, nat), Failure>)
    ensures Built(r, td, Plans(lib, td, ops), ops)
  {
    var stmts, deletes := [], 0;
    ghost var plans: seq<Plan> := [];
    for i := 0 to |ops|
      invariant Plans(lib, td, ops[..i]) == Ok(plans) && stmts == Statements(td, plans) && deletes == Deletes(ops[..i])
    {
      PlansStep(lib, td, ops, i, plans);
      ghost var p;
      var st;
      st, p := BuildOne(lib, td, i, ops[i]);
      if st.Err? {
        FailureStays(lib, td, ops, i + 1);
        return Err(st.error);
      }
      if ops[i].kind == "delete" {
        deletes := deletes + 1;
      }
      StatementsSnoc(td, plans, p.value);
      plans, stmts := plans + [p.value], stmts + [st.value];
    }
    assert ops[..|ops|] == ops;
    return Ok((stmts, deletes));
  }

  datatype PreviewResponse = PreviewResponse(cql: string, deleteCount: nat, statementCount: nat)

  method Preview(lib: Library, td: TableDetail, ops: seq<Op>) returns (r: Result<PreviewResponse, Failure>)
    ensures match Plans(lib, td, ops)
            case Err(e) => r == Err(e)
            case Ok(ps) => r == Ok(PreviewResponse(PreviewText(Statements(td, ps)), Deletes(ops), |Statements(td, ps)|))
  {
    var built := BuildAll(lib, td, ops);
    if built.Err? {
      return Err(built.error);
    }
    var (stmts, deletes) := built.value;
    var body := WriteBody(stmts);
    return Ok(PreviewResponse("BEGIN BATCH\n" + body + "APPLY BATCH;", deletes, |stmts|));
  }

  method WriteBody(stmts: seq<Statement>) returns (b: string)
    ensures b == BodyText(stmts)
  {
    b := "";
    for i := 0 to |stmts|
      invariant b == BodyText(stmts[..i])
    {
      assert stmts[..i + 1][..i] == stmts[..i];
      b := b + "  ";
      b := b + stmts[i].display;
      b := b + ";\n";
    }
    assert stmts[..|stmts|] == stmts;
  }

  function Entries(stmts: seq<Statement>): seq<(string, seq<Datum>)> {
    if stmts == [] then []
    else Entries(stmts[..|stmts| - 1]) + [(stmts[|stmts| - 1].cql, stmts[|stmts| - 1].args)]
  }

  /** The changeset passes all checks: this is its plan. */
  ghost predicate Committable(lib: Library, w: Surroundings, ops: seq<Op>, ps: seq<Plan>) {
    w.known && !w.readOnly && w.table.Some? && Plans(lib, w.table.value, ops) == Ok(ps)
  }

  /** The first obstacle in the way of a commit. */
  ghost function Obstacle(lib: Library, w: Surroundings, ops: seq<Op>): Option<Failure> {
    if !w.known then Some(UnknownConnection)
    else if w.readOnly then Some(ReadOnlyConnection)
    else match w.table
      case None => Some(UnknownTable)
      case Some(td) =>
        match Plans(lib, td, ops)
        case Err(e) => Some(e)
        case Ok(ps) => if ps == [] || w.session then None else Some(NoSession)
  }

  /** Commit executes a batch exactly if nothing is in its way and there is something to execute: then it is that of the
      statements with their arguments, and history is given the text of its preview and whether it succeeded. */
  method Commit(lib: Library, w: Surroundings, ops: seq<Op>)
    returns (r: Result<nat, Failure>, batch: Option<seq<(string, seq<Datum>)>>, history: Option<(string, bool)>,
             ghost ps: seq<Plan>)
    ensures Obstacle(lib, w, ops).Some? ==> r == Err(Obstacle(lib, w, ops).value) && batch == None && history == None
    ensures Obstacle(lib, w, ops).None? ==>
      && Committable(lib, w, ops, ps)
      && r == (if ps == [] || w.success then Ok(|ps|) else Err(BatchFailed))
      && batch == (if ps == [] then None else Some(Entries(Statements(w.table.value, ps))))
      && history == (if ps == [] then None else Some((PreviewText(Statements(w.table.value, ps)), w.success)))
  {
    ps := [];
    if !w.known {
      return Err(UnknownConnection), None, None, ps;
    }
    if w.readOnly {
      return Err(ReadOnlyConnection), None, None, ps;
    }
    if w.table.None? {
      return Err(UnknownTable), None, None, ps;
    }
    var td := w.table.value;
    var built := BuildAll(lib, td, ops);
    if built.Err? {
      return Err(built.error), None, None, ps;
    }
    var stmts := built.value.0;
    ps := Plans(lib, td, ops).value;
    AsMany(td, ps);
    if |stmts| == 0 {
      return Ok(0), None, None, ps;
    }
    if !w.session {
      return Err(NoSession), None, None, ps;
    }
    var entries := FillBatch(stmts);
    var p := Preview(lib, td, ops);
    history := Some((p.value.cql, w.success));
    if !w.success {
      return Err(BatchFailed), Some(entries), history, ps;
    }
    return Ok(|stmts|), Some(entries), history, ps;
  }

  /** What history is given of a commit reads back as the edits that were executed. */
  lemma {:induction false} HistoryReadsBack(lib: Library, w: Surroundings, ops: seq<Op>, ps: seq<Plan>)
    requires Committable(lib, w, ops, ps)
    ensures ReadPreview(PreviewText(Statements(w.table.value, ps))) == Some(Asts(w.table.value, ps)) && |ps| == |ops|
  {
    PreviewReadsBack(lib, w.table.value, ops, ps);
    AsMany(w.table.value, ps);
  }

  lemma {:induction false} AsMany(td: TableDetail, plans: seq<Plan>)
    ensures |Statements(td, plans)| == |plans|
    decreases |plans|
  {
    if plans != [] {
      AsMany(td, plans[..|plans| - 1]);
    }
  }

  method FillBatch(stmts: seq<Statement>) returns (batch: seq<(string, seq<Datum>)>)
    ensures batch == Entries(stmts)
  {
    batch := [];
    for i := 0 to |stmts|
      invariant batch == Entries(stmts[..i])
    {
      assert stmts[..i + 1][..i] == stmts[..i];
      batch := batch + [(stmts[i].cql, stmts[i].args)];
    }
    assert stmts[..|stmts|] == stmts;
  }

  // ----- reading a preview -----

  /** The place of the first semicolon outside quotes. */
  function Semicolon(ts: seq<Token>): nat {
    if ts == [] || ts[0] == Mark(';') then 0 else 1 + Semicolon(ts[1..])
  }

  const APPLY := [Word("APPLY"), Word("BATCH"), Mark(';')]

  /** The statements up to APPLY BATCH, split at the semicolons. */
  function ParseBody(ts: seq<Token>): Option<seq<Ast>>
    decreases |ts|
  {
    if ts == APPLY then Some([])
    else
      var n := Semicolon(ts);
      if n >= |ts| then None
      else match Parse(ts[..n])
        case None => None
        case Some(ast) =>
          match ParseBody(ts[n + 1..])
          case None => None
          case Some(asts) => Some([ast] + asts)
  }

  function ReadPreview(text: string): Option<seq<Ast>> {
    var ts := Lex(text);
    if Begins(ts, "BEGIN") && Begins(ts[1..], "BATCH") then ParseBody(ts[2..]) else None
  }

  function Asts(td: TableDetail, plans: seq<Plan>): seq<Ast> {
    if plans == [] then [] else [AstOf(td, plans[0], true)] + Asts(td, plans[1..])
  }

  function BodyTokens(td: TableDetail, plans: seq<Plan>): seq<Token> {
    if plans == [] then []
    else PlanTokens(td, plans[0], true) + ([Mark(';')] + BodyTokens(td, plans[1..]))
  }

  predicate NoSemicolon(ts: seq<Token>) {
    Mark(';') !in ts
  }

  lemma {:induction false} SemicolonAfter(a: seq<Token>, rest: seq<Token>)
    requires NoSemicolon(a)
    ensures Semicolon(a + ([Mark(';')] + rest)) == |a|
  {
    if a == [] {
      assert a + ([Mark(';')] + rest) == [Mark(';')] + rest;
    } else {
      assert a[0] in a && forall t :: t in a[1..] ==> t in a;
      SemicolonAfter(a[1..], rest);
      assert (a + ([Mark(';')] + rest))[1..] == a[1..] + ([Mark(';')] + rest);
    }
  }

  lemma {:induction false} ItemsNoSemicolon(items: seq<Token>)
    requires NoSemicolon(items)
    ensures NoSemicolon(ItemTokens(items))
  {
    if |items| > 1 {
      assert items[0] in items && forall t :: t in items[1..] ==> t in items;
      ItemsNoSemicolon(items[1..]);
    }
  }

  lemma {:induction false} PairsNoSemicolon(binds: seq<Bind>, sep: Token)
    requires sep != Mark(';')
    ensures NoSemicolon(PairTokens(binds, true, sep))
  {
    if binds != [] {
      PairsNoSemicolon(binds[1..], sep);
    }
  }

  lemma {:induction false} RowNoSemicolon(row: seq<Bind>)
    ensures NoSemicolon(IdentTokens(row)) && NoSemicolon(CellTokens(row, true))
  {
    if row != [] {
      RowNoSemicolon(row[1..]);
    }
  }

  // However the names and strings are spelled, none of the statement's own tokens is a semicolon.
  lemma {:induction false} PlanNoSemicolon(td: TableDetail, p: Plan)
    ensures NoSemicolon(PlanTokens(td, p, true))
  {
    match p
    case Insert(row) =>
      RowNoSemicolon(row);
      ItemsNoSemicolon(IdentTokens(row));
      ItemsNoSemicolon(CellTokens(row, true));
    case Update(changes, keys) =>
      PairsNoSemicolon(changes, Mark(','));
      PairsNoSemicolon(keys, Word("AND"));
    case Delete(keys) =>
      PairsNoSemicolon(keys, Word("AND"));
  }

  lemma {:induction false} PlanBegins(td: TableDetail, p: Plan, rest: seq<Token>)
    ensures PlanTokens(td, p, true) + rest != APPLY
  {
    var first := (PlanTokens(td, p, true) + rest)[0];
    assert first == Word("INSERT") || first == Word("UPDATE") || first == Word("DELETE");
    assert "INSERT"[0] != "APPLY"[0] && "UPDATE"[0] != "APPLY"[0] && "DELETE"[0] != "APPLY"[0];
  }

  ghost predicate AllAccepted(lib: Library, plans: seq<Plan>) {
    forall p :: p in plans ==> PlanAccepted(lib, p)
  }

  lemma {:induction false} BodyParses(lib: Library, td: TableDetail, plans: seq<Plan>)
    requires AllAccepted(lib, plans)
    ensures ParseBody(BodyTokens(td, plans) + APPLY) == Some(Asts(td, plans))
  {
    if plans == [] {
      assert BodyTokens(td, plans) + APPLY == APPLY;
    } else {
      var p, rest := plans[0], BodyTokens(td, plans[1..]) + APPLY;
      var ts := PlanTokens(td, p, true);
      var all := ts + ([Mark(';')] + rest);
      assert BodyTokens(td, plans) + APPLY == all;
      BodyParses(lib, td, plans[1..]);
      PlanNoSemicolon(td, p);
      PlanBegins(td, p, [Mark(';')] + rest);
      assert p in plans;
      PlanParses(lib, td, p, true);
      FirstStatement(ts, rest, all, AstOf(td, p, true), Asts(td, plans[1..]));
    }
  }

  lemma {:induction false} FirstStatement(ts: seq<Token>, rest: seq<Token>, all: seq<Token>, ast: Ast, asts: seq<Ast>)
    requires NoSemicolon(ts) && all == ts + ([Mark(';')] + rest) && all != APPLY
    requires Parse(ts) == Some(ast) && ParseBody(rest) == Some(asts)
    ensures ParseBody(all) == Some([ast] + asts)
  {
    SemicolonAfter(ts, rest);
    assert all[..|ts|] == ts && all[|ts| + 1..] == rest;
  }

  lemma {:induction false} BodyTokensSnoc(td: TableDetail, plans: seq<Plan>, p: Plan)
    ensures BodyTokens(td, plans + [p]) == BodyTokens(td, plans) + (PlanTokens(td, p, true) + [Mark(';')])
  {
    var item := PlanTokens(td, p, true) + [Mark(';')];
    if plans == [] {
      assert plans + [p] == [p] && [p][1..] == [];
      assert [Mark(';')] + BodyTokens(td, []) == [Mark(';')] && [] + item == item;
    } else {
      var first := PlanTokens(td, plans[0], true);
      assert (plans + [p])[1..] == plans[1..] + [p];
      BodyTokensSnoc(td, plans[1..], p);
      var rest := BodyTokens(td, plans[1..]);
      Assoc([Mark(';')], rest, item);
      Assoc(first, [Mark(';')] + rest, item);
    }
  }

  lemma {:induction false} SpacesAre(s: string)
    requires forall i :: 0 <= i < |s| ==> Space(s[i])
    ensures Lexes(s, [])
    decreases |s|
  {
    AllSpaces(s);
    SpacesLex(s);
  }

  lemma {:induction false} AllSpaces(s: string)
    requires forall i :: 0 <= i < |s| ==> Space(s[i])
    ensures AllSpace(s)
    decreases |s|
  {
    if s != "" {
      AllSpaces(s[..|s| - 1]);
    }
  }

  // A statement on its line.
  lemma {:induction false} LineLexes(before: string, x: seq<Token>, display: string, y: seq<Token>)
    requires Lexes(before, x) && LexesOpen(display, y)
    ensures Lexes(before + "  " + display + ";\n", x + (y + [Mark(';')]))
  {
    SpacesAre("  ");
    LexesConcat(before, x, "  ", []);
    assert x + [] == x;
    LexesThenOpen(before + "  ", x, display, y);
    LexesClose(before + "  " + display, x + y, ';');
    SpacesAre("\n");
    LexesConcat(before + "  " + display + ";", x + y + [Mark(';')], "\n", []);
    assert before + "  " + display + ";" + "\n" == before + "  " + display + ";\n";
    assert x + y + [Mark(';')] + [] == x + (y + [Mark(';')]);
  }

  lemma {:induction false} BodyLexes(lib: Library, td: TableDetail, plans: seq<Plan>)
    requires AllAccepted(lib, plans)
    ensures Lexes(BodyText(Statements(td, plans)), BodyTokens(td, plans))
    decreases |plans|
  {
    if plans == [] {
      LexesEmpty();
    } else {
      var front, p := plans[..|plans| - 1], plans[|plans| - 1];
      FrontLast(plans);
      BodyLexes(lib, td, front);
      StatementsSnoc(td, front, p);
      BodyTokensSnoc(td, front, p);
      PlanLexes(lib, td, p, true);
      LineLexes(BodyText(Statements(td, front)), BodyTokens(td, front), PlanText(td, p, true), PlanTokens(td, p, true));
      BodySnoc(Statements(td, front), StatementOf(td, p));
    }
  }

  lemma BodySnoc(stmts: seq<Statement>, st: Statement)
    ensures BodyText(stmts + [st]) == BodyText(stmts) + "  " + st.display + ";\n"
  {
    assert (stmts + [st])[..|stmts|] == stmts;
  }

  lemma {:induction false} PlansAccepted(lib: Library, td: TableDetail, ops: seq<Op>, plans: seq<Plan>)
    requires Plans(lib, td, ops) == Ok(plans)
    ensures AllAccepted(lib, plans) && |plans| == |ops|
    decreases |ops|
  {
    if ops != [] {
      var front := Plans(lib, td, ops[..|ops| - 1]).value;
      PlansAccepted(lib, td, ops[..|ops| - 1], front);
      PlanIsAccepted(lib, td, ops[|ops| - 1], plans[|plans| - 1]);
    }
  }

  lemma {:induction false} HeadLexes()
    ensures Lexes("BEGIN BATCH\n", [Word("BEGIN"), Word("BATCH")])
  {
    WordCharsAll("BEGIN");
    WordCharsAll("BATCH");
    Keyword("BEGIN");
    WordLexes("BATCH");
    LexesThenOpen("BEGIN" + " ", [Word("BEGIN")], "BATCH", [Word("BATCH")]);
    LexesClose("BEGIN" + " " + "BATCH", [Word("BEGIN")] + [Word("BATCH")], '\n');
    assert "BEGIN" + " " + "BATCH" + "\n" == "BEGIN BATCH\n";
    assert [Word("BEGIN")] + [Word("BATCH")] + [] == [Word("BEGIN"), Word("BATCH")];
  }

  lemma {:induction false} TailLexes()
    ensures Lexes("APPLY BATCH;", APPLY)
  {
    WordCharsAll("APPLY");
    WordCharsAll("BATCH");
    Keyword("APPLY");
    WordLexes("BATCH");
    LexesThenOpen("APPLY" + " ", [Word("APPLY")], "BATCH", [Word("BATCH")]);
    LexesClose("APPLY" + " " + "BATCH", [Word("APPLY")] + [Word("BATCH")], ';');
    assert "APPLY" + " " + "BATCH" + ";" == "APPLY BATCH;";
    assert [Word("APPLY")] + [Word("BATCH")] + [Mark(';')] == APPLY;
  }

  /** The preview of an accepted changeset, split at the semicolons outside quotes, is one statement for each edit,
      in order, and each of them reads back as its edit's table, columns and literals. */
  lemma {:induction false} PreviewReadsBack(lib: Library, td: TableDetail, ops: seq<Op>, plans: seq<Plan>)
    requires Plans(lib, td, ops) == Ok(plans)
    ensures ReadPreview(PreviewText(Statements(td, plans))) == Some(Asts(td, plans)) && |Statements(td, plans)| == |ops|
  {
    var body, tokens := BodyText(Statements(td, plans)), BodyTokens(td, plans);
    PlansAccepted(lib, td, ops, plans);
    AsMany(td, plans);
    HeadLexes();
    BodyLexes(lib, td, plans);
    TailLexes();
    LexesConcat("BEGIN BATCH\n", [Word("BEGIN"), Word("BATCH")], body, tokens);
    LexesConcat("BEGIN BATCH\n" + body, [Word("BEGIN"), Word("BATCH")] + tokens, "APPLY BATCH;", APPLY);
    Assoc([Word("BEGIN"), Word("BATCH")], tokens, APPLY);
    HeadReads(PreviewText(Statements(td, plans)), tokens + APPLY);
    BodyParses(lib, td, plans);
  }

  lemma HeadReads(text: string, tokens: seq<Token>)
    requires Lex(text) == [Word("BEGIN"), Word("BATCH")] + tokens
    ensures ReadPreview(text) == ParseBody(tokens)
  {
    var ts := Lex(text);
    assert ts[1..][0] == Word("BATCH") && ts[2..] == tokens;
  }
}
