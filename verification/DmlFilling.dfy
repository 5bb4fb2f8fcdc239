/** Placeholders, arguments and shown literals belong together: filling the literals into the parameterised text,
    in order, gives the shown one. */
module DmlFilling {
  import opened Sequences
  import opened Options
  import opened Quoting
  import opened Coercion
  import opened TableSchema
  import opened Dml

  // ----- filling in, by a machine that knows nothing but quotes and question marks -----

  datatype Quote = Outside | InDouble | InSingle

  datatype Filling = Filling(quote: Quote, next: nat, out: string)

  function Literal(literals: seq<string>, i: nat): string {
    if i < |literals| then literals[i] else "?"
  }

  function Step(literals: seq<string>, f: Filling, c: char): Filling {
    match f.quote
    case Outside =>
      if c == '"' then Filling(InDouble, f.next, f.out + [c])
      else if c == '\'' then Filling(InSingle, f.next, f.out + [c])
      else if c == '?' then Filling(Outside, f.next + 1, f.out + Literal(literals, f.next))
      else Filling(Outside, f.next, f.out + [c])
    case InDouble => Filling(if c == '"' then Outside else InDouble, f.next, f.out + [c])
    case InSingle => Filling(if c == '\'' then Outside else InSingle, f.next, f.out + [c])
  }

  function Run(literals: seq<string>, f: Filling, text: string): Filling
    decreases |text|
  {
    if text == "" then f else Step(literals, Run(literals, f, text[..|text| - 1]), text[|text| - 1])
  }

  /** Every placeholder outside quotes replaced by the next literal, provided there are as many of either. */
  function Fill(text: string, literals: seq<string>): Option<string> {
    var f := Run(literals, Filling(Outside, 0, ""), text);
    if f.quote == Outside && f.next == |literals| then Some(f.out) else None
  }

  // ----- composition -----

  lemma {:induction false} RunSnoc(l: seq<string>, f: Filling, text: string, c: char)
    ensures Run(l, f, text + [c]) == Step(l, Run(l, f, text), c)
  {
    assert (text + [c])[..|text|] == text;
  }

  lemma {:induction false} RunConcat(l: seq<string>, f: Filling, a: string, b: string)
    ensures Run(l, f, a + b) == Run(l, Run(l, f, a), b)
    decreases |b|
  {
    if b == "" {
      assert a + b == a;
    } else {
      var front, last := b[..|b| - 1], b[|b| - 1];
      assert a + b == (a + front) + [last];
      RunSnoc(l, f, a + front, last);
      RunConcat(l, f, a, front);
    }
  }

  function After(before: string, f: Filling): Filling {
    Filling(f.quote, f.next, before + f.out)
  }

  lemma StepAfter(l: seq<string>, before: string, f: Filling, c: char)
    ensures Step(l, After(before, f), c) == After(before, Step(l, f, c))
  {
    Assoc(before, f.out, [c]);
    Assoc(before, f.out, Literal(l, f.next));
  }

  lemma {:induction false} RunAfter(l: seq<string>, before: string, f: Filling, text: string)
    ensures Run(l, After(before, f), text) == After(before, Run(l, f, text))
    decreases |text|
  {
    if text != "" {
      RunAfter(l, before, f, text[..|text| - 1]);
      StepAfter(l, before, Run(l, f, text[..|text| - 1]), text[|text| - 1]);
    }
  }

  /** From literal `i` on, the text takes the literals up to `j` and becomes `result`. */
  predicate Fills(l: seq<string>, i: nat, text: string, j: nat, result: string) {
    Run(l, Filling(Outside, i, ""), text) == Filling(Outside, j, result)
  }

  lemma {:induction false} FillsConcat(l: seq<string>, i: nat, a: string, j: nat, x: string, b: string, k: nat, y: string)
    requires Fills(l, i, a, j, x) && Fills(l, j, b, k, y)
    ensures Fills(l, i, a + b, k, x + y)
  {
    RunConcat(l, Filling(Outside, i, ""), a, b);
    RunAfter(l, x, Filling(Outside, j, ""), b);
    assert x + "" == x;
  }

  // ----- the pieces -----

  predicate Plain(text: string) {
    text == "" ||
    (Plain(text[..|text| - 1]) && text[|text| - 1] != '"' && text[|text| - 1] != '\'' && text[|text| - 1] != '?')
  }

  lemma {:induction false} PlainAll(text: string)
    requires forall i :: 0 <= i < |text| ==> text[i] != '"' && text[i] != '\'' && text[i] != '?'
    ensures Plain(text)
    decreases |text|
  {
    if text != "" {
      PlainAll(text[..|text| - 1]);
    }
  }

  lemma {:induction false} PlainFills(l: seq<string>, i: nat, text: string)
    requires Plain(text)
    ensures Fills(l, i, text, i, text)
    decreases |text|
  {
    if text != "" {
      PlainFills(l, i, text[..|text| - 1]);
      assert text == text[..|text| - 1] + [text[|text| - 1]];
    }
  }

  lemma {:induction false} BareIsPlain(s: string)
    requires AllBare(s)
    ensures Plain(s)
    decreases |s|
  {
    if s != "" {
      BareIsPlain(s[..|s| - 1]);
    }
  }

  lemma {:induction false} Inside(l: seq<string>, i: nat, s: string)
    ensures Run(l, Filling(InDouble, i, ""), Doubled(s, '"')) == Filling(InDouble, i, Doubled(s, '"'))
    decreases |s|
  {
    if s != "" {
      var front, last := Doubled(s[..|s| - 1], '"'), s[|s| - 1];
      Inside(l, i, s[..|s| - 1]);
      RunSnoc(l, Filling(InDouble, i, ""), front, last);
      if last == '"' {
        assert front + Twice(last, '"') == (front + [last]) + [last];
        RunSnoc(l, Filling(InDouble, i, ""), front + [last], last);
      }
    }
  }

  lemma {:induction false} IdentFills(l: seq<string>, i: nat, s: string)
    ensures Fills(l, i, QuotedIdent(s), i, QuotedIdent(s))
  {
    if Bare(s) {
      BareIsPlain(s);
      PlainFills(l, i, s);
    } else {
      var d, start := Doubled(s, '"'), Filling(Outside, i, "");
      Inside(l, i, s);
      RunSnoc(l, start, "", '"');
      assert "" + ['"'] == "\"" && "" + "\"" == "\"" && "\"" + "" == "\"";
      RunConcat(l, start, "\"", d);
      RunAfter(l, "\"", Filling(InDouble, i, ""), d);
      RunSnoc(l, start, "\"" + d, '"');
    }
  }

  lemma {:induction false} MarkFills(l: seq<string>, i: nat)
    requires i < |l|
    ensures Fills(l, i, "?", i + 1, l[i])
  {
    RunSnoc(l, Filling(Outside, i, ""), "", '?');
    assert "" + ['?'] == "?" && "" + l[i] == l[i];
  }

  /** From `i` on the literals are those of the columns. */
  predicate Holds(l: seq<string>, i: nat, binds: seq<Bind>)
    decreases |binds|
  {
    binds == [] || (i < |l| && l[i] == Cell(binds[0], true) && Holds(l, i + 1, binds[1..]))
  }

  lemma {:induction false} ClauseFills(l: seq<string>, i: nat, b: Bind)
    requires i < |l| && l[i] == Cell(b, true)
    ensures Fills(l, i, Clause(b, false), i + 1, Clause(b, true))
  {
    var q := QuotedIdent(b.column);
    IdentFills(l, i, b.column);
    PlainAll(" = ");
    PlainFills(l, i, " = ");
    FillsConcat(l, i, q, i, q, " = ", i, " = ");
    MarkFills(l, i);
    FillsConcat(l, i, q + " = ", i, q + " = ", "?", i + 1, l[i]);
  }

  lemma {:induction false} ClausesFill(l: seq<string>, i: nat, binds: seq<Bind>, sep: string)
    requires Holds(l, i, binds) && Plain(sep)
    ensures Fills(l, i, Join(Clauses(binds, false), sep), i + |binds|, Join(Clauses(binds, true), sep))
    decreases |binds|
  {
    if binds != [] {
      var b := binds[0];
      ClauseFills(l, i, b);
      ClausesTail(binds, false);
      ClausesTail(binds, true);
      if |binds| > 1 {
        ClausesFill(l, i + 1, binds[1..], sep);
        PlainFills(l, i + 1, sep);
        FillsConcat(l, i, Clause(b, false), i + 1, Clause(b, true), sep, i + 1, sep);
        FillsConcat(l, i, Clause(b, false) + sep, i + 1, Clause(b, true) + sep, Join(Clauses(binds[1..], false), sep),
                    i + |binds|, Join(Clauses(binds[1..], true), sep));
      }
    }
  }

  lemma {:induction false} CellsFill(l: seq<string>, i: nat, binds: seq<Bind>)
    requires Holds(l, i, binds)
    ensures Fills(l, i, Join(Cells(binds, false), ", "), i + |binds|, Join(Cells(binds, true), ", "))
    decreases |binds|
  {
    if binds != [] {
      MarkFills(l, i);
      CellsTail(binds, false);
      CellsTail(binds, true);
      if |binds| > 1 {
        CellsFill(l, i + 1, binds[1..]);
        PlainAll(", ");
        PlainFills(l, i + 1, ", ");
        FillsConcat(l, i, "?", i + 1, l[i], ", ", i + 1, ", ");
        FillsConcat(l, i, "?" + ", ", i + 1, l[i] + ", ", Join(Cells(binds[1..], false), ", "),
                    i + |binds|, Join(Cells(binds[1..], true), ", "));
      }
    }
  }

  lemma {:induction false} IdentsFill(l: seq<string>, i: nat, binds: seq<Bind>)
    ensures Fills(l, i, Join(Idents(binds), ", "), i, Join(Idents(binds), ", "))
    decreases |binds|
  {
    if binds != [] {
      var q := QuotedIdent(binds[0].column);
      IdentFills(l, i, binds[0].column);
      IdentsTail(binds);
      if |binds| > 1 {
        var rest := Join(Idents(binds[1..]), ", ");
        IdentsFill(l, i, binds[1..]);
        PlainAll(", ");
        PlainFills(l, i, ", ");
        FillsConcat(l, i, q, i, q, ", ", i, ", ");
        FillsConcat(l, i, q + ", ", i, q + ", ", rest, i, rest);
      }
    }
  }

  // ----- whole statements -----

  /** The shown literals of a plan, in the order of its arguments. */
  function PlanCells(p: Plan): seq<string> {
    match p
    case Insert(row) => Cells(row, true)
    case Update(changes, keys) => Cells(changes, true) + Cells(keys, true)
    case Delete(keys) => Cells(keys, true)
  }

  lemma ConsBetween(before: seq<string>, c: string, rest: seq<string>, after: seq<string>)
    ensures before + ([c] + rest) + after == before + [c] + rest + after
  {
  }

  lemma {:induction false} HoldsCells(before: seq<string>, binds: seq<Bind>, after: seq<string>)
    ensures Holds(before + Cells(binds, true) + after, |before|, binds)
    decreases |binds|
  {
    if binds != [] {
      var c := Cell(binds[0], true);
      CellsTail(binds, true);
      HoldsCells(before + [c], binds[1..], after);
      var l, rest := before + Cells(binds, true) + after, Cells(binds[1..], true);
      ConsBetween(before, c, rest, after);
      assert l == before + [c] + rest + after && l[|before|] == c;
    }
  }

  // More text without quotes or placeholders.
  lemma {:induction false} ThenPlain(l: seq<string>, a: string, j: nat, x: string, after: string)
    requires Fills(l, 0, a, j, x) && Plain(after)
    ensures Fills(l, 0, a + after, j, x + after)
  {
    PlainFills(l, j, after);
    FillsConcat(l, 0, a, j, x, after, j, after);
  }

  lemma {:induction false} TableFills(l: seq<string>, verb: string, td: TableDetail)
    requires Plain(verb)
    ensures Fills(l, 0, verb + TableName(td), 0, verb + TableName(td))
  {
    var ks, name := QuotedIdent(td.keyspace), QuotedIdent(td.name);
    IdentFills(l, 0, td.keyspace);
    IdentFills(l, 0, td.name);
    PlainAll(".");
    ThenPlain(l, ks, 0, ks, ".");
    FillsConcat(l, 0, ks + ".", 0, ks + ".", name, 0, name);
    PlainFills(l, 0, verb);
    FillsConcat(l, 0, verb, 0, verb, TableName(td), 0, TableName(td));
  }

  lemma {:induction false} InsertFills(td: TableDetail, row: seq<Bind>)
    ensures Fills(Cells(row, true), 0, PlanText(td, Insert(row), false), |row|, PlanText(td, Insert(row), true))
  {
    var l := Cells(row, true);
    var cols, marks, values := Join(Idents(row), ", "), Join(Cells(row, false), ", "), Join(Cells(row, true), ", ");
    HoldsCells([], row, []);
    assert [] + l + [] == l;
    PlainAll("INSERT INTO ");
    PlainAll(" (");
    PlainAll(") VALUES (");
    PlainAll(")");
    TableFills(l, "INSERT INTO ", td);
    var head := "INSERT INTO " + TableName(td);
    ThenPlain(l, head, 0, head, " (");
    IdentsFill(l, 0, row);
    FillsConcat(l, 0, head + " (", 0, head + " (", cols, 0, cols);
    ThenPlain(l, head + " (" + cols, 0, head + " (" + cols, ") VALUES (");
    CellsFill(l, 0, row);
    FillsConcat(l, 0, head + " (" + cols + ") VALUES (", 0, head + " (" + cols + ") VALUES (", marks, |row|, values);
    ThenPlain(l, head + " (" + cols + ") VALUES (" + marks, |row|, head + " (" + cols + ") VALUES (" + values, ")");
  }

  lemma {:induction false} WhereFills(l: seq<string>, a: string, j: nat, x: string, keys: seq<Bind>)
    requires Fills(l, 0, a, j, x) && Holds(l, j, keys)
    ensures Fills(l, 0, a + " WHERE " + Join(Clauses(keys, false), " AND "), j + |keys|,
                  x + " WHERE " + Join(Clauses(keys, true), " AND "))
  {
    PlainAll(" WHERE ");
    PlainAll(" AND ");
    ThenPlain(l, a, j, x, " WHERE ");
    ClausesFill(l, j, keys, " AND ");
    FillsConcat(l, 0, a + " WHERE ", j, x + " WHERE ", Join(Clauses(keys, false), " AND "),
                j + |keys|, Join(Clauses(keys, true), " AND "));
  }

  lemma {:induction false} UpdateHead(l: seq<string>, td: TableDetail, head: string)
    requires head == "UPDATE " + TableName(td) + " SET "
    ensures Fills(l, 0, head, 0, head)
  {
    PlainAll("UPDATE ");
    PlainAll(" SET ");
    TableFills(l, "UPDATE ", td);
    ThenPlain(l, "UPDATE " + TableName(td), 0, "UPDATE " + TableName(td), " SET ");
  }

  lemma {:induction false} HoldsBoth(changes: seq<Bind>, keys: seq<Bind>)
    ensures var l := Cells(changes, true) + Cells(keys, true); Holds(l, 0, changes) && Holds(l, |changes|, keys)
  {
    var l := Cells(changes, true) + Cells(keys, true);
    HoldsCells([], changes, Cells(keys, true));
    HoldsCells(Cells(changes, true), keys, []);
    assert [] + Cells(changes, true) + Cells(keys, true) == l && l + [] == l;
  }

  lemma {:induction false} UpdateFills(td: TableDetail, changes: seq<Bind>, keys: seq<Bind>)
    ensures var p := Update(changes, keys);
      Fills(PlanCells(p), 0, PlanText(td, p, false), |changes| + |keys|, PlanText(td, p, true))
  {
    var l := Cells(changes, true) + Cells(keys, true);
    var head := "UPDATE " + TableName(td) + " SET ";
    var before, after := Join(Clauses(changes, false), ", "), Join(Clauses(changes, true), ", ");
    HoldsBoth(changes, keys);
    UpdateHead(l, td, head);
    PlainAll(", ");
    ClausesFill(l, 0, changes, ", ");
    FillsConcat(l, 0, head, 0, head, before, |changes|, after);
    WhereFills(l, head + before, |changes|, head + after, keys);
  }

  lemma {:induction false} DeleteFills(td: TableDetail, keys: seq<Bind>)
    ensures var p := Delete(keys); Fills(PlanCells(p), 0, PlanText(td, p, false), |keys|, PlanText(td, p, true))
  {
    var l := Cells(keys, true);
    HoldsCells([], keys, []);
    assert [] + l + [] == l;
    PlainAll("DELETE FROM ");
    TableFills(l, "DELETE FROM ", td);
    WhereFills(l, "DELETE FROM " + TableName(td), 0, "DELETE FROM " + TableName(td), keys);
  }

  /** The parameterised text has exactly as many placeholders as there are arguments, and with the shown literals
      filled in for them in order it is the shown text: the k-th placeholder, argument and literal are of one column. */
  lemma {:induction false} DisplayIsFilledIn(td: TableDetail, p: Plan)
    ensures Fill(PlanText(td, p, false), PlanCells(p)) == Some(PlanText(td, p, true))
    ensures |PlanArgs(p)| == |PlanCells(p)|
  {
    match p
    case Insert(row) => InsertFills(td, row);
    case Update(changes, keys) => UpdateFills(td, changes, keys);
    case Delete(keys) => DeleteFills(td, keys);
  }
}
