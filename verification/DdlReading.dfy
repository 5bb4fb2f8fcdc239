/** A reader of the printed CREATE TABLE statements, and the round trip through it. */
module DdlReading {
  import opened Sequences
  import opened Options
  import opened Quoting
  import opened TableSchema
  import opened Ddl
  import NameOrder

  // ----- the reader -----

  datatype ColumnAst = ColumnAst(name: string, cqlType: string, isStatic: bool)

  datatype TableAst = TableAst(keyspace: string, name: string, columns: seq<ColumnAst>, partition: seq<string>,
                               clustering: seq<string>, settings: seq<Setting>)

  /** The text after `lit`, if it begins with that. */
  function Expect(text: string, lit: string): (r: Option<string>)
    ensures r.Some? ==> |r.value| + |lit| == |text|
  {
    if lit <= text then Some(text[|lit|..]) else None
  }

  /** The text up to the first of two characters, and the rest from there on. */
  function Until(text: string, c: char, d: char): (r: Read)
    ensures |r.rest| <= |text|
  {
    if text == "" || text[0] == c || text[0] == d then Read("", text)
    else var r := Until(text[1..], c, d); Read([text[0]] + r.text, r.rest)
  }

  predicate EndsWith(text: string, tail: string) {
    |tail| <= |text| && text[|text| - |tail|..] == tail
  }

  /** A line `  name type[ static],`: the type is whatever stands there. */
  function ReadColumn(text: string): (r: Option<(ColumnAst, string)>)
    ensures r.Some? ==> |r.value.1| < |text|
  {
    match Expect(text, "  ")
    case None => None
    case Some(a) =>
      match ReadIdent(a)
      case None => None
      case Some(name) =>
        match Expect(name.rest, " ")
        case None => None
        case Some(b) =>
          var line := Until(b, '\n', '\n');
          match Expect(line.rest, "\n")
          case None => None
          case Some(rest) =>
            if !EndsWith(line.text, ",") then None
            else
              var t := line.text[..|line.text| - 1];
              if EndsWith(t, " static") then Some((ColumnAst(name.text, t[..|t| - 7], true), rest))
              else Some((ColumnAst(name.text, t, false), rest))
  }

  const KEY := "  PRIMARY KEY ("

  /** Lines of columns up to the primary key. */
  function ReadColumns(text: string): Option<(seq<ColumnAst>, string)>
    decreases |text|
  {
    match Expect(text, KEY)
    case Some(rest) => Some(([], rest))
    case None =>
      match ReadColumn(text)
      case None => None
      case Some(first) =>
        match ReadColumns(first.1)
        case None => None
        case Some(others) => Some(([first.0] + others.0, others.1))
  }

  /** Names each preceded by a comma. */
  function ReadMore(text: string): (r: Option<(seq<string>, string)>)
    ensures r.Some? ==> |r.value.1| <= |text|
    decreases |text|
  {
    match Expect(text, ", ")
    case None => Some(([], text))
    case Some(a) =>
      match ReadIdent(a)
      case None => None
      case Some(name) =>
        match ReadMore(name.rest)
        case None => None
        case Some(others) => Some(([name.text] + others.0, others.1))
  }

  function ReadNames(text: string): Option<(seq<string>, string)> {
    match ReadIdent(text)
    case None => None
    case Some(name) =>
      match ReadMore(name.rest)
      case None => None
      case Some(others) => Some(([name.text] + others.0, others.1))
  }

  /** One name, or several in parentheses. */
  function ReadPartition(text: string): Option<(seq<string>, string)> {
    match Expect(text, "(")
    case None => (match ReadIdent(text) case None => None case Some(name) => Some(([name.text], name.rest)))
    case Some(a) =>
      match ReadNames(a)
      case None => None
      case Some(names) =>
        match Expect(names.1, ")")
        case None => None
        case Some(rest) => Some((names.0, rest))
  }

  /** Items separated by commas; `order` tells orders from pairs of strings. */
  function ReadItem(text: string, order: bool): (r: Option<((string, string), string)>)
    ensures r.Some? ==> |r.value.1| <= |text|
  {
    match (if order then ReadIdent(text) else ReadString(text))
    case None => None
    case Some(k) =>
      match Expect(k.rest, if order then " " else ": ")
      case None => None
      case Some(a) =>
        if order then var v := Until(a, ',', ')'); Some(((k.text, v.text), v.rest))
        else match ReadString(a)
          case None => None
          case Some(v) => Some(((k.text, v.text), v.rest))
  }

  function ReadItems(text: string, order: bool): (r: Option<(seq<(string, string)>, string)>)
    ensures r.Some? ==> |r.value.1| <= |text|
    decreases |text|
  {
    match ReadItem(text, order)
    case None => None
    case Some(first) =>
      match Expect(first.1, ", ")
      case None => Some(([first.0], first.1))
      case Some(a) =>
        match ReadItems(a, order)
        case None => None
        case Some(others) => Some(([first.0] + others.0, others.1))
  }

  const ORDER := "CLUSTERING ORDER BY ("

  function ReadValue(name: string, text: string): (r: Option<(Setting, string)>)
    ensures r.Some? ==> |r.value.1| <= |text|
  {
    match Expect(text, "{")
    case Some(a) =>
      (match ReadItems(a, false)
       case None => None
       case Some(pairs) =>
         (match Expect(pairs.1, "}")
          case None => None
          case Some(rest) => Some((MapSetting(name, pairs.0), rest))))
    case None =>
      if text != "" && text[0] == '\'' then
        (match ReadString(text)
         case None => None
         case Some(s) => Some((TextSetting(name, s.text), s.rest)))
      else var n := Until(text, '\n', ';'); Some((NumberSetting(name, n.text), n.rest))
  }

  function ReadSetting(text: string): (r: Option<(Setting, string)>)
    ensures r.Some? ==> |r.value.1| <= |text|
  {
    match Expect(text, ORDER)
    case Some(a) =>
      (match ReadItems(a, true)
       case None => None
       case Some(orders) =>
         (match Expect(orders.1, ")")
          case None => None
          case Some(rest) => Some((OrderBy(orders.0), rest))))
    case None =>
      var name := ReadBare(text);
      match Expect(name.rest, " = ")
      case None => None
      case Some(a) => ReadValue(name.text, a)
  }

  const AND := "\n  AND "

  function ReadSettings(text: string): Option<(seq<Setting>, string)>
    decreases |text|
  {
    match ReadSetting(text)
    case None => None
    case Some(first) =>
      match Expect(first.1, AND)
      case None => Some(([first.0], first.1))
      case Some(a) =>
        match ReadSettings(a)
        case None => None
        case Some(others) => Some(([first.0] + others.0, others.1))
  }

  function ReadWith(text: string): Option<seq<Setting>> {
    match Expect(text, " WITH ")
    case None => if text == ";" then Some([]) else None
    case Some(a) =>
      match ReadSettings(a)
      case None => None
      case Some(settings) => if settings.1 == ";" then Some(settings.0) else None
  }

  /** The primary key and what follows it. */
  function ReadKey(text: string): Option<(seq<string>, seq<string>, seq<Setting>)> {
    match ReadPartition(text)
    case None => None
    case Some(partition) =>
      match ReadMore(partition.1)
      case None => None
      case Some(clustering) =>
        match Expect(clustering.1, ")\n)")
        case None => None
        case Some(a) =>
          match ReadWith(a)
          case None => None
          case Some(settings) => Some((partition.0, clustering.0, settings))
  }

  function ReadTable(text: string): Option<TableAst> {
    match Expect(text, "CREATE TABLE ")
    case None => None
    case Some(a) =>
      match ReadIdent(a)
      case None => None
      case Some(keyspace) =>
        match Expect(keyspace.rest, ".")
        case None => None
        case Some(b) =>
          match ReadIdent(b)
          case None => None
          case Some(name) =>
            match Expect(name.rest, " (\n")
            case None => None
            case Some(c) =>
              match ReadColumns(c)
              case None => None
              case Some(columns) =>
                match ReadKey(columns.1)
                case None => None
                case Some(k) => Some(TableAst(keyspace.text, name.text, columns.0, k.0, k.1, k.2))
  }

  // ----- what should be read -----

  function AstOfColumns(cols: seq<Column>): seq<ColumnAst> {
    if cols == [] then [] else [ColumnAst(cols[0].name, cols[0].cqlType, cols[0].kind == Static)] + AstOfColumns(cols[1..])
  }

  ghost function AstOf(td: TableDetail): TableAst {
    TableAst(td.keyspace, td.name, AstOfColumns(Ordered(td)), Names(PartitionColumns(td)), Names(ClusteringColumns(td)), Settings(td))
  }

  // ----- pieces -----

  lemma Expected(lit: string, rest: string, all: string)
    requires all == lit + rest
    ensures Expect(all, lit) == Some(rest)
  {
  }

  lemma Unexpected(all: string, lit: string, i: nat)
    requires i < |lit| && (i >= |all| || all[i] != lit[i])
    ensures Expect(all, lit) == None
  {
  }

  predicate Avoids(s: string, c: char, d: char) {
    c !in s && d !in s
  }

  lemma {:induction false} UntilReads(s: string, c: char, d: char, rest: string, all: string)
    requires Avoids(s, c, d) && (rest == "" || rest[0] == c || rest[0] == d) && all == s + rest
    ensures Until(all, c, d) == Read(s, rest)
    decreases |s|
  {
    if s == "" {
      assert all == rest;
    } else {
      assert s[0] in s && forall x :: x in s[1..] ==> x in s;
      assert all[1..] == s[1..] + rest && all[0] == s[0];
      UntilReads(s[1..], c, d, rest, s[1..] + rest);
      HeadTail(s);
    }
  }

  /** A type is on one line, and does not itself end like that of a static column. */
  predicate PlainType(c: Column) {
    '\n' !in c.cqlType && (c.kind == Static || !EndsWith(c.cqlType, " static"))
  }

  // A column whose type ends like that prints like a static one.
  lemma LooksStatic(c: Column, t: string)
    requires c.kind != Static && c.cqlType == t + " static"
    ensures ColumnText(c) == ColumnText(c.(cqlType := t, kind := Static))
  {
    var q := "  " + QuotedIdent(c.name) + " ";
    Assoc(q, t, " static");
    assert q + (t + " static") + "" == q + (t + " static");
  }

  // The rest of a column's line, after its name.
  function TypeText(c: Column): string {
    c.cqlType + (if c.kind == Static then " static" else "")
  }

  lemma {:induction false} StaticEnds(c: Column)
    requires PlainType(c)
    ensures EndsWith(TypeText(c), " static") <==> c.kind == Static
    ensures c.kind == Static ==> TypeText(c)[..|TypeText(c)| - 7] == c.cqlType
    ensures c.kind != Static ==> TypeText(c) == c.cqlType
  {
    if c.kind == Static {
      assert TypeText(c)[|TypeText(c)| - 7..] == " static";
    } else {
      assert TypeText(c) == c.cqlType;
    }
  }

  lemma {:induction false} ColumnReads(c: Column, rest: string, all: string)
    requires PlainType(c) && all == ColumnText(c) + rest
    ensures ReadColumn(all) == Some((ColumnAst(c.name, c.cqlType, c.kind == Static), rest))
    ensures Expect(all, KEY) == None
  {
    var b := (TypeText(c) + ",") + ("\n" + rest);
    var a := QuotedIdent(c.name) + (" " + b);
    LineParts(c, rest, all, a);
    LineReads(c, rest, b);
    Expected("  ", a, all);
    IdentReads(c.name, " " + b, a);
    Expected(" ", b, " " + b);
    IdentStart(c.name);
    assert all[2] == QuotedIdent(c.name)[0];
    Unexpected(all, KEY, 2);
  }

  /** Of the types on one line, the line of a column reads back as the column exactly if the column is static or its
      type does not end in ` static`: otherwise it reads as that of a static column. */
  lemma {:induction false} ColumnReadsExactly(c: Column, rest: string)
    requires '\n' !in c.cqlType
    ensures ReadColumn(ColumnText(c) + rest) == Some((ColumnAst(c.name, c.cqlType, c.kind == Static), rest))
      <==> c.kind == Static || !EndsWith(c.cqlType, " static")
  {
    if PlainType(c) {
      ColumnReads(c, rest, ColumnText(c) + rest);
    } else {
      var t := c.cqlType[..|c.cqlType| - 7];
      var d := c.(cqlType := t, kind := Static);
      assert c.cqlType == t + " static";
      LooksStatic(c, t);
      ColumnReads(d, rest, ColumnText(d) + rest);
    }
  }

  // The line after the name and a space.
  lemma {:induction false} LineReads(c: Column, rest: string, b: string)
    requires PlainType(c) && b == (TypeText(c) + ",") + ("\n" + rest)
    ensures Until(b, '\n', '\n') == Read(TypeText(c) + ",", "\n" + rest) && Expect("\n" + rest, "\n") == Some(rest)
    ensures EndsWith(TypeText(c) + ",", ",") && (TypeText(c) + ",")[..|TypeText(c) + ","| - 1] == TypeText(c)
    ensures EndsWith(TypeText(c), " static") <==> c.kind == Static
    ensures c.kind == Static ==> TypeText(c)[..|TypeText(c)| - 7] == c.cqlType
    ensures c.kind != Static ==> TypeText(c) == c.cqlType
  {
    var line := TypeText(c) + ",";
    LineAvoids(c);
    UntilReads(line, '\n', '\n', "\n" + rest, b);
    Expected("\n", rest, "\n" + rest);
    assert line[|line| - 1..] == "," && line[..|line| - 1] == TypeText(c);
    StaticEnds(c);
  }

  lemma IdentStart(s: string)
    ensures QuotedIdent(s) != "" && QuotedIdent(s)[0] != 'P' && QuotedIdent(s)[0] != '('
  {
    if Bare(s) {
      AllBareTail(s);
    }
  }

  lemma LineParts(c: Column, rest: string, all: string, a: string)
    requires all == ColumnText(c) + rest && a == QuotedIdent(c.name) + (" " + ((TypeText(c) + ",") + ("\n" + rest)))
    ensures all == "  " + a
  {
    var q, s := QuotedIdent(c.name), if c.kind == Static then " static" else "";
    assert ColumnText(c) == "  " + q + " " + c.cqlType + s + ",\n";
    assert ",\n" == "," + "\n";
    calc {
      all;
      "  " + q + " " + c.cqlType + s + ",\n" + rest;
      { Assoc("  " + q + " ", c.cqlType, s); }
      "  " + q + " " + (c.cqlType + s) + ",\n" + rest;
      { Assoc("  " + q + " " + (c.cqlType + s), ",", "\n"); }
      "  " + q + " " + (c.cqlType + s) + "," + "\n" + rest;
      { Assoc("  " + q + " ", c.cqlType + s, ","); }
      "  " + q + " " + (TypeText(c) + ",") + "\n" + rest;
      { Assoc("  " + q + " " + (TypeText(c) + ","), "\n", rest); }
      "  " + q + " " + (TypeText(c) + ",") + ("\n" + rest);
      { Assoc("  " + q + " ", TypeText(c) + ",", "\n" + rest); }
      "  " + q + " " + ((TypeText(c) + ",") + ("\n" + rest));
      { Assoc("  " + q, " ", (TypeText(c) + ",") + ("\n" + rest)); }
      "  " + q + (" " + ((TypeText(c) + ",") + ("\n" + rest)));
      { Assoc("  ", q, " " + ((TypeText(c) + ",") + ("\n" + rest))); }
      "  " + a;
    }
  }

  lemma LineAvoids(c: Column)
    requires PlainType(c)
    ensures Avoids(TypeText(c) + ",", '\n', '\n')
  {
    assert '\n' !in " static";
  }

  lemma {:induction false} ColumnsRead(cols: seq<Column>, rest: string, all: string)
    requires (forall c :: c in cols ==> PlainType(c)) && all == ColumnsTextCons(cols) + (KEY + rest)
    ensures ReadColumns(all) == Some((AstOfColumns(cols), rest))
    decreases |cols|
  {
    if cols == [] {
      assert all == KEY + rest;
      Expected(KEY, rest, all);
    } else {
      var later := ColumnsTextCons(cols[1..]) + (KEY + rest);
      Assoc(ColumnText(cols[0]), ColumnsTextCons(cols[1..]), KEY + rest);
      assert cols[0] in cols && forall c :: c in cols[1..] ==> c in cols;
      ColumnReads(cols[0], later, all);
      ColumnsRead(cols[1..], rest, later);
    }
  }

  function ColumnsTextCons(cols: seq<Column>): string {
    if cols == [] then "" else ColumnText(cols[0]) + ColumnsTextCons(cols[1..])
  }

  lemma {:induction false} ColumnsSnoc(cols: seq<Column>, c: Column)
    ensures ColumnsTextCons(cols + [c]) == ColumnsTextCons(cols) + ColumnText(c)
  {
    if cols == [] {
      assert cols + [c] == [c] && [c][1..] == [] && ColumnsTextCons([]) == "";
      assert ColumnText(c) + "" == ColumnText(c) && "" + ColumnText(c) == ColumnText(c);
    } else {
      assert (cols + [c])[1..] == cols[1..] + [c];
      ColumnsSnoc(cols[1..], c);
      Assoc(ColumnText(cols[0]), ColumnsTextCons(cols[1..]), ColumnText(c));
    }
  }

  lemma {:induction false} SameColumnsText(cols: seq<Column>)
    ensures ColumnsText(cols) == ColumnsTextCons(cols)
  {
    if cols != [] {
      var front, last := cols[..|cols| - 1], cols[|cols| - 1];
      FrontLast(cols);
      SameColumnsText(front);
      ColumnsSnoc(front, last);
      assert ColumnsText(cols) == ColumnsText(front) + ColumnText(last);
    }
  }

  // ----- the primary key -----

  function MoreTextCons(cols: seq<Column>): string {
    if cols == [] then "" else ", " + QuotedIdent(cols[0].name) + MoreTextCons(cols[1..])
  }

  lemma {:induction false} MoreSnoc(cols: seq<Column>, c: Column)
    ensures MoreTextCons(cols + [c]) == MoreTextCons(cols) + ", " + QuotedIdent(c.name)
  {
    var q := QuotedIdent(c.name);
    if cols == [] {
      assert cols + [c] == [c] && [c][1..] == [] && MoreTextCons([]) == "";
      assert ", " + q + "" == ", " + q && "" + ", " + q == ", " + q;
    } else {
      var head, rest := ", " + QuotedIdent(cols[0].name), MoreTextCons(cols[1..]);
      assert (cols + [c])[1..] == cols[1..] + [c];
      MoreSnoc(cols[1..], c);
      Assoc(rest, ", ", q);
      Assoc(head, rest, ", " + q);
      Assoc(head + rest, ", ", q);
    }
  }

  lemma {:induction false} SameMoreText(cols: seq<Column>)
    ensures MoreText(cols) == MoreTextCons(cols)
  {
    if cols != [] {
      var front, last := cols[..|cols| - 1], cols[|cols| - 1];
      FrontLast(cols);
      SameMoreText(front);
      MoreSnoc(front, last);
      assert MoreText(cols) == MoreText(front) + ", " + QuotedIdent(last.name);
    }
  }

  predicate EndsMore(rest: string) {
    rest != "" && rest[0] == ')'
  }

  lemma {:induction false} MoreReads(cols: seq<Column>, rest: string, all: string)
    requires EndsMore(rest) && all == MoreTextCons(cols) + rest
    ensures ReadMore(all) == Some((Names(cols), rest)) && EndsIdent(all)
    decreases |cols|
  {
    if cols == [] {
      assert all == rest;
      Unexpected(all, ", ", 0);
    } else {
      var q, later := QuotedIdent(cols[0].name), MoreTextCons(cols[1..]) + rest;
      NamesHead(cols);
      MoreReads(cols[1..], rest, later);
      Assoc(", " + q, MoreTextCons(cols[1..]), rest);
      Assoc(", ", q, later);
      assert all == ", " + (q + later);
      Expected(", ", q + later, all);
      IdentReads(cols[0].name, later, q + later);
    }
  }

  // Joined names are one name and then more.
  lemma {:induction false} JoinIsMore(cols: seq<Column>)
    requires cols != []
    ensures Join(Idents(cols), ", ") == QuotedIdent(cols[0].name) + MoreTextCons(cols[1..])
    decreases |cols|
  {
    if |cols| == 1 {
      assert cols[1..] == [] && QuotedIdent(cols[0].name) + "" == QuotedIdent(cols[0].name);
    } else {
      var q, rest := QuotedIdent(cols[0].name), QuotedIdent(cols[1].name);
      assert Idents(cols)[1..] == Idents(cols[1..]);
      JoinIsMore(cols[1..]);
      assert cols[1..][0] == cols[1];
      var more := MoreTextCons(cols[1..][1..]);
      Assoc(q, ", ", rest + more);
      Assoc(", ", rest, more);
    }
  }

  lemma {:induction false} PartitionReads(pk: seq<Column>, rest: string, all: string)
    requires pk != [] && EndsIdent(rest) && all == PartitionText(pk) + rest
    ensures ReadPartition(all) == Some((Names(pk), rest))
  {
    if |pk| == 1 {
      OneReads(pk[0].name, rest, all);
      assert pk[1..] == [] && Names(pk) == [pk[0].name];
    } else {
      NamesHead(pk);
      JoinIsMore(pk);
      SeveralRead(pk[0].name, pk[1..], rest, all);
    }
  }

  lemma {:induction false} OneReads(name: string, rest: string, all: string)
    requires EndsIdent(rest) && all == QuotedIdent(name) + rest
    ensures ReadPartition(all) == Some(([name], rest))
  {
    IdentStart(name);
    assert all[0] == QuotedIdent(name)[0];
    Unexpected(all, "(", 0);
    IdentReads(name, rest, all);
  }

  lemma {:induction false} SeveralRead(name: string, others: seq<Column>, rest: string, all: string)
    requires all == "(" + (QuotedIdent(name) + MoreTextCons(others)) + ")" + rest
    ensures ReadPartition(all) == Some(([name] + Names(others), rest))
  {
    var q, end := QuotedIdent(name), ")" + rest;
    var more := MoreTextCons(others) + end;
    ListParts(q, MoreTextCons(others), rest, all);
    Expected("(", q + more, all);
    MoreReads(others, end, more);
    IdentReads(name, more, q + more);
    Expected(")", rest, end);
  }

  lemma ListParts(q: string, more: string, rest: string, all: string)
    requires all == "(" + (q + more) + ")" + rest
    ensures all == "(" + (q + (more + (")" + rest)))
  {
    Assoc("(" + (q + more), ")", rest);
    Assoc("(", q + more, ")" + rest);
    Assoc(q, more, ")" + rest);
  }

  // ----- the options -----

  /** What the reader needs of the printed options: names are bare words, numbers and orders are free of the
      characters that end them. */
  ghost predicate Readable(s: Setting) {
    match s
    case OrderBy(orders) => orders != [] && PlainItems(orders, true)
    case MapSetting(name, pairs) => Bare(name) && pairs != []
    case TextSetting(name, _) => Bare(name)
    case NumberSetting(name, number) => Bare(name) && Avoids(number, '\n', ';') && (number == "" || (number[0] != '{' && number[0] != '\''))
  }

  function ItemText(p: (string, string), order: bool): string {
    if order then OrderText(p) else PairText(p)
  }

  function ItemTexts(items: seq<(string, string)>, order: bool): seq<string> {
    if order then OrderTexts(items) else PairTexts(items)
  }

  lemma {:induction false} ItemReads(p: (string, string), order: bool, rest: string, all: string)
    requires (order ==> Avoids(p.1, ',', ')')) && rest != "" && (rest[0] == ',' || rest[0] == if order then ')' else '}')
    requires all == ItemText(p, order) + rest
    ensures ReadItem(all, order) == Some((p, rest))
  {
    if order {
      var q, b := QuotedIdent(p.0), p.1 + rest;
      Assoc(q + " ", p.1, rest);
      Assoc(q, " ", b);
      IdentReads(p.0, " " + b, all);
      Expected(" ", b, " " + b);
      UntilReads(p.1, ',', ')', rest, b);
    } else {
      var q, b := QuotedString(p.0), QuotedString(p.1) + rest;
      Assoc(q + ": ", QuotedString(p.1), rest);
      Assoc(q, ": ", b);
      StringReads(p.0, ": " + b, all);
      Expected(": ", b, ": " + b);
      StringReads(p.1, rest, b);
    }
  }

  lemma OrderTextsTail(items: seq<(string, string)>)
    requires items != []
    ensures OrderTexts(items)[0] == OrderText(items[0]) && OrderTexts(items)[1..] == OrderTexts(items[1..])
  {
  }

  lemma PairTextsTail(items: seq<(string, string)>)
    requires items != []
    ensures PairTexts(items)[0] == PairText(items[0]) && PairTexts(items)[1..] == PairTexts(items[1..])
  {
  }

  // A joined list is its first item, and then a separator and the rest.
  lemma {:induction false} JoinedItems(items: seq<(string, string)>, order: bool)
    requires items != []
    ensures Join(ItemTexts(items, order), ", ")
         == ItemText(items[0], order) + (if |items| == 1 then "" else ", " + Join(ItemTexts(items[1..], order), ", "))
  {
    var first := ItemText(items[0], order);
    if order {
      OrderTextsTail(items);
    } else {
      PairTextsTail(items);
    }
    if |items| == 1 {
      assert first + "" == first;
    } else {
      Assoc(first, ", ", Join(ItemTexts(items[1..], order), ", "));
    }
  }

  lemma LastItem(items: seq<(string, string)>, order: bool, rest: string, all: string)
    requires |items| == 1 && ReadItem(all, order) == Some((items[0], rest)) && Expect(rest, ", ") == None
    ensures ReadItems(all, order) == Some((items, rest))
  {
    assert items == [items[0]];
  }

  lemma FirstItem(items: seq<(string, string)>, order: bool, later: string, rest: string, all: string)
    requires items != [] && ReadItem(all, order) == Some((items[0], ", " + later))
    requires ReadItems(later, order) == Some((items[1..], rest))
    ensures ReadItems(all, order) == Some((items, rest))
  {
    Expected(", ", later, ", " + later);
    HeadTail(items);
  }

  ghost predicate PlainItems(items: seq<(string, string)>, order: bool) {
    order ==> forall o :: o in items ==> Avoids(o.1, ',', ')')
  }

  lemma {:induction false} ItemsRead(items: seq<(string, string)>, order: bool, rest: string, all: string)
    requires items != [] && PlainItems(items, order)
    requires rest != "" && rest[0] == if order then ')' else '}'
    requires all == Join(ItemTexts(items, order), ", ") + rest
    ensures ReadItems(all, order) == Some((items, rest))
    decreases |items|
  {
    var first := ItemText(items[0], order);
    JoinedItems(items, order);
    assert items[0] in items;
    if |items| == 1 {
      assert first + "" == first;
      ItemReads(items[0], order, rest, all);
      Unexpected(rest, ", ", 0);
      LastItem(items, order, rest, all);
    } else {
      var body := Join(ItemTexts(items[1..], order), ", ");
      Assoc(first, ", " + body, rest);
      Assoc(", ", body, rest);
      ItemReads(items[0], order, ", " + (body + rest), all);
      assert forall o :: o in items[1..] ==> o in items;
      ItemsRead(items[1..], order, rest, body + rest);
      FirstItem(items, order, body + rest, rest, all);
    }
  }

  // After an option comes another one, or the end.
  predicate EndsSetting(rest: string) {
    rest == ";" || AND <= rest
  }

  lemma {:induction false} ValueReads(s: Setting, value: string, rest: string, all: string)
    requires Readable(s) && !s.OrderBy? && EndsSetting(rest) && all == value + rest
    requires SettingText(s) == s.name + " = " + value
    requires match s
             case MapSetting(_, pairs) => value == "{" + Join(PairTexts(pairs), ", ") + "}"
             case TextSetting(_, text) => value == QuotedString(text)
             case NumberSetting(_, number) => value == number
             case OrderBy(_) => false
    ensures ReadValue(s.name, all) == Some((s, rest))
  {
    match s
    case MapSetting(name, pairs) =>
      var body := Join(PairTexts(pairs), ", ");
      Assoc("{" + body, "}", rest);
      Assoc("{", body, "}" + rest);
      Expected("{", body + ("}" + rest), all);
      ItemsRead(pairs, false, "}" + rest, body + ("}" + rest));
      Expected("}", rest, "}" + rest);
    case TextSetting(name, text) =>
      assert all[0] == '\'';
      Unexpected(all, "{", 0);
      StringReads(text, rest, all);
    case NumberSetting(name, number) =>
      assert number != "" ==> all[0] == number[0];
      assert number == "" ==> all == rest;
      Unexpected(all, "{", 0);
      UntilReads(number, '\n', ';', rest, all);
  }

  function ValueText(s: Setting): string {
    match s
    case OrderBy(_) => ""
    case MapSetting(_, pairs) => "{" + Join(PairTexts(pairs), ", ") + "}"
    case TextSetting(_, text) => QuotedString(text)
    case NumberSetting(_, number) => number
  }

  lemma SettingIsNameAndValue(s: Setting)
    requires !s.OrderBy?
    ensures SettingText(s) == s.name + " = " + ValueText(s)
  {
    if s.MapSetting? {
      var body := Join(PairTexts(s.pairs), ", ");
      assert " = {" == " = " + "{";
      Assoc(s.name, " = ", "{");
      Assoc(s.name + " = ", "{", body);
      Assoc(s.name + " = ", "{" + body, "}");
    }
  }

  lemma {:induction false} SettingReads(s: Setting, rest: string, all: string)
    requires Readable(s) && EndsSetting(rest) && all == SettingText(s) + rest
    ensures ReadSetting(all) == Some((s, rest))
  {
    if s.OrderBy? {
      var body := Join(OrderTexts(s.orders), ", ");
      Assoc(ORDER + body, ")", rest);
      Assoc(ORDER, body, ")" + rest);
      Expected(ORDER, body + (")" + rest), all);
      ItemsRead(s.orders, true, ")" + rest, body + (")" + rest));
      Expected(")", rest, ")" + rest);
    } else {
      var value := ValueText(s);
      SettingIsNameAndValue(s);
      Assoc(s.name + " = ", value, rest);
      Assoc(s.name, " = ", value + rest);
      AllBareTail(s.name);
      assert all[0] == s.name[0];
      Unexpected(all, ORDER, 0);
      BareReads(s.name, " = " + (value + rest), all);
      Expected(" = ", value + rest, " = " + (value + rest));
      ValueReads(s, value, rest, value + rest);
    }
  }

  lemma SettingTextsTail(settings: seq<Setting>)
    requires settings != []
    ensures SettingTexts(settings)[0] == SettingText(settings[0]) && SettingTexts(settings)[1..] == SettingTexts(settings[1..])
  {
    var a, b := SettingTexts(settings)[1..], SettingTexts(settings[1..]);
    assert |a| == |b|;
    forall i | 0 <= i < |a| ensures a[i] == b[i] {
      assert settings[1..][i] == settings[i + 1];
    }
  }

  lemma {:induction false} JoinedSettings(settings: seq<Setting>)
    requires settings != []
    ensures Join(SettingTexts(settings), AND)
         == SettingText(settings[0]) + (if |settings| == 1 then "" else AND + Join(SettingTexts(settings[1..]), AND))
  {
    var first := SettingText(settings[0]);
    SettingTextsTail(settings);
    if |settings| == 1 {
      assert first + "" == first;
    } else {
      Assoc(first, AND, Join(SettingTexts(settings[1..]), AND));
    }
  }

  lemma MoreSettings(all: string, first: Setting, after: string, later: string, others: seq<Setting>, rest: string)
    requires ReadSetting(all) == Some((first, after)) && Expect(after, AND) == Some(later)
    requires ReadSettings(later) == Some((others, rest))
    ensures ReadSettings(all) == Some(([first] + others, rest))
  {
  }

  lemma FirstSetting(settings: seq<Setting>, later: string, rest: string, all: string)
    requires settings != [] && ReadSetting(all) == Some((settings[0], AND + later))
    requires ReadSettings(later) == Some((settings[1..], rest))
    ensures ReadSettings(all) == Some((settings, rest))
  {
    Expected(AND, later, AND + later);
    MoreSettings(all, settings[0], AND + later, later, settings[1..], rest);
    HeadTail(settings);
  }

  ghost predicate AllReadable(settings: seq<Setting>) {
    forall s :: s in settings ==> Readable(s)
  }

  lemma {:induction false} SettingsRead(settings: seq<Setting>, all: string)
    requires settings != [] && AllReadable(settings) && all == Join(SettingTexts(settings), AND) + ";"
    ensures ReadSettings(all) == Some((settings, ";"))
    decreases |settings|
  {
    var first := SettingText(settings[0]);
    JoinedSettings(settings);
    assert settings[0] in settings;
    if |settings| == 1 {
      assert first + "" == first;
      SettingReads(settings[0], ";", all);
      Unexpected(";", AND, 0);
      assert settings == [settings[0]];
    } else {
      var body := Join(SettingTexts(settings[1..]), AND);
      Assoc(first, AND + body, ";");
      Assoc(AND, body, ";");
      assert AND <= AND + (body + ";");
      SettingReads(settings[0], AND + (body + ";"), all);
      assert forall s :: s in settings[1..] ==> s in settings;
      SettingsRead(settings[1..], body + ";");
      FirstSetting(settings, body + ";", ";", all);
    }
  }

  lemma {:induction false} WithReads(settings: seq<Setting>, all: string)
    requires AllReadable(settings) && all == WithText(settings) + ";"
    ensures ReadWith(all) == Some(settings)
  {
    if settings == [] {
      assert all == ";";
      Unexpected(all, " WITH ", 0);
    } else {
      var body := Join(SettingTexts(settings), AND);
      Assoc(" WITH ", body, ";");
      Expected(" WITH ", body + ";", all);
      SettingsRead(settings, body + ";");
    }
  }

  // ----- whole statements -----

  lemma {:induction false} KeyReads(pk: seq<Column>, ck: seq<Column>, settings: seq<Setting>, all: string)
    requires pk != [] && AllReadable(settings)
    requires all == PartitionText(pk) + (MoreText(ck) + (")\n)" + (WithText(settings) + ";")))
    ensures ReadKey(all) == Some((Names(pk), Names(ck), settings))
  {
    var with := WithText(settings) + ";";
    var more := MoreText(ck) + (")\n)" + with);
    SameMoreText(ck);
    MoreReads(ck, ")\n)" + with, more);
    PartitionReads(pk, more, all);
    Expected(")\n)", with, ")\n)" + with);
    WithReads(settings, with);
  }

  lemma {:induction false} TableReads(ks: string, name: string, cols: seq<Column>, key: string, all: string)
    requires ReadKey(key).Some? && forall c :: c in cols ==> PlainType(c)
    requires all == "CREATE TABLE " + (QuotedIdent(ks) + ("." + (QuotedIdent(name) + (" (\n" + (ColumnsText(cols) + (KEY + key))))))
    ensures var k := ReadKey(key).value; ReadTable(all) == Some(TableAst(ks, name, AstOfColumns(cols), k.0, k.1, k.2))
  {
    var columns := ColumnsText(cols) + (KEY + key);
    var b := QuotedIdent(name) + (" (\n" + columns);
    var a := QuotedIdent(ks) + ("." + b);
    Expected("CREATE TABLE ", a, all);
    IdentReads(ks, "." + b, a);
    Expected(".", b, "." + b);
    IdentReads(name, " (\n" + columns, b);
    Expected(" (\n", columns, " (\n" + columns);
    SameColumnsText(cols);
    ColumnsRead(cols, key, columns);
  }

  lemma Regroup(a: string, b: string, c: string, d: string, e: string, rest: string)
    ensures a + b + c + d + e + rest == a + (b + (c + (d + (e + rest))))
  {
    Assoc(a + b + c + d, e, rest);
    Assoc(a + b + c, d, e + rest);
    Assoc(a + b, c, d + (e + rest));
    Assoc(a, b, c + (d + (e + rest)));
  }

  lemma RegroupTable(td: TableDetail)
    ensures TableText(td) == "CREATE TABLE " + (QuotedIdent(td.keyspace) + ("." + (QuotedIdent(td.name) + (" (\n"
            + (ColumnsText(Ordered(td)) + (KEY + (PartitionText(PartitionColumns(td)) + (MoreText(ClusteringColumns(td))
            + (")\n)" + (WithText(Settings(td)) + ";"))))))))))
  {
    RegroupTexts("CREATE TABLE ", QuotedIdent(td.keyspace), ".", QuotedIdent(td.name), " (\n", ColumnsText(Ordered(td)), KEY,
                 PartitionText(PartitionColumns(td)), MoreText(ClusteringColumns(td)), ")\n)", WithText(Settings(td)), ";");
  }

  lemma RegroupTexts(a: string, b: string, c: string, d: string, e: string, f: string, g: string, h: string, i: string,
                     j: string, k: string, l: string)
    ensures a + b + c + d + e + f + g + h + i + j + k + l == a + (b + (c + (d + (e + (f + (g + (h + (i + (j + (k + l))))))))))
  {
    Assoc(a + b + c + d + e + f + g + h + i + j, k, l);
    Assoc(a + b + c + d + e + f + g + h + i, j, k + l);
    Assoc(a + b + c + d + e + f + g + h, i, j + (k + l));
    Assoc(a + b + c + d + e + f + g, h, i + (j + (k + l)));
    Assoc(a + b + c + d + e + f, g, h + (i + (j + (k + l))));
    Regroup(a, b, c, d, e, f + (g + (h + (i + (j + (k + l))))));
    Assoc(a + b + c + d + e, f, g + (h + (i + (j + (k + l)))));
  }

  // ----- which tables read back -----

  /** The table has a partition key; types are on one line and do not end like a static column; clustering orders and
      the number printed by %g are plain. */
  ghost predicate PlainTable(td: TableDetail) {
    && PartitionColumns(td) != []
    && (forall c :: c in td.columns ==> PlainType(c) && Avoids(OrderOf(c), ',', ')'))
    && Avoids(td.bloomFilter, '\n', ';') && (td.bloomFilter == "" || (td.bloomFilter[0] != '{' && td.bloomFilter[0] != '\''))
  }

  lemma {:induction false} BareAll(s: string)
    requires forall i :: 0 <= i < |s| ==> BareChar(s[i])
    ensures AllBare(s)
    decreases |s|
  {
    if s != "" {
      BareAll(s[..|s| - 1]);
    }
  }

  lemma {:induction false} DecimalPlain(n: nat)
    ensures var s := Texts.Decimal(n); Avoids(s, '\n', ';') && s != "" && s[0] != '{' && s[0] != '\''
  {
    if n >= 10 {
      DecimalPlain(n / 10);
    }
  }

  lemma {:induction false} PairsThere(m: map<string, string>)
    requires m != map[]
    ensures SortedPairs(m) != []
  {
    NameOrder.SortedSetRises(m.Keys);
    var k :| k in m.Keys;
    assert k in NameOrder.SortedSet(m.Keys);
  }

  lemma {:induction false} OrderReadable(td: TableDetail)
    requires PlainTable(td)
    ensures AllReadable(OrderSettings(ClusteringColumns(td)))
  {
    var ck := ClusteringColumns(td);
    forall o | o in Orders(ck) ensures Avoids(o.1, ',', ')') {
      var i :| 0 <= i < |ck| && Orders(ck)[i] == o;
      assert ck[i] in ck;
      KindHas(td.columns, Clustering, ck[i]);
    }
    assert NonDefaultOrder(ck) ==> Orders(ck) != [];
  }

  lemma {:induction false} MapsReadable(td: TableDetail)
    ensures AllReadable(MapSettings(td))
  {
    BareAll("compaction");
    BareAll("compression");
    BareAll("caching");
    if td.compaction != map[] { PairsThere(td.compaction); }
    if td.compression != map[] { PairsThere(td.compression); }
    if td.caching != map[] { PairsThere(td.caching); }
  }

  lemma {:induction false} NumbersReadable(td: TableDetail)
    ensures AllReadable(NumberSettings(td))
  {
    BareAll("gc_grace_seconds");
    BareAll("default_time_to_live");
    DecimalPlain(Positive(td.gcGraceSeconds));
    DecimalPlain(Positive(td.defaultTTL));
  }

  lemma ReadableWhen(before: seq<Setting>, c: bool, s: Setting)
    requires AllReadable(before) && (c ==> Readable(s))
    ensures AllReadable(before + When(c, s))
  {
  }

  lemma {:induction false} TextsReadable(td: TableDetail)
    requires PlainTable(td)
    ensures AllReadable(TextSettings(td))
  {
    BareAll("speculative_retry");
    BareAll("bloom_filter_fp_chance");
    BareAll("comment");
    var retry := When(td.speculativeRetry != "", TextSetting("speculative_retry", td.speculativeRetry));
    ReadableWhen([], td.speculativeRetry != "", TextSetting("speculative_retry", td.speculativeRetry));
    assert [] + retry == retry;
    ReadableWhen(retry, td.bloomFilter != "", NumberSetting("bloom_filter_fp_chance", td.bloomFilter));
    ReadableWhen(retry + When(td.bloomFilter != "", NumberSetting("bloom_filter_fp_chance", td.bloomFilter)),
                 td.comment != "", TextSetting("comment", td.comment));
  }

  lemma {:induction false} SettingsReadable(td: TableDetail)
    requires PlainTable(td)
    ensures AllReadable(Settings(td))
  {
    OrderReadable(td);
    MapsReadable(td);
    NumbersReadable(td);
    TextsReadable(td);
  }

  lemma {:induction false} OthersHas(cols: seq<Column>, c: Column)
    ensures c in Others(cols) <==> c in cols && (c.kind == Regular || c.kind == Static)
  {
    if cols != [] {
      OthersHas(cols[..|cols| - 1], c);
      LastIn(cols, c);
    }
  }

  /** Every column is printed. */
  lemma {:induction false} OrderedHas(td: TableDetail, c: Column)
    ensures c in Ordered(td) <==> c in td.columns
  {
    KindHas(td.columns, PartitionKey, c);
    KindHas(td.columns, Clustering, c);
    OthersHas(td.columns, c);
    NameOrder.SortHas(Others(td.columns), Ddl.NameOf, c);
  }

  /** The printed statement reads back as the table: every column with its type and whether it is static, the partition
      and clustering columns in order, and every option, whatever the names, texts and map entries are. */
  lemma {:induction false} ReadsBack(td: TableDetail)
    requires PlainTable(td)
    ensures ReadTable(TableText(td)) == Some(AstOf(td))
  {
    var key := PartitionText(PartitionColumns(td)) + (MoreText(ClusteringColumns(td)) + (")\n)" + (WithText(Settings(td)) + ";")));
    SettingsReadable(td);
    KeyReads(PartitionColumns(td), ClusteringColumns(td), Settings(td), key);
    forall c | c in Ordered(td) ensures PlainType(c) {
      OrderedHas(td, c);
    }
    RegroupTable(td);
    TableReads(td.keyspace, td.name, Ordered(td), key, TableText(td));
  }

  lemma {:induction false} CountOthers(front: seq<Column>, last: Column, c: Column)
    ensures Count(Others(front + [last]), c)
         == Count(Others(front), c) + (if last == c && (c.kind == Regular || c.kind == Static) then 1 else 0)
  {
    assert (front + [last])[..|front|] == front;
    CountSnoc(Others(front), last, c);
    assert Others(front) + [] == Others(front);
  }

  lemma {:induction false} KindsTogether(cols: seq<Column>, c: Column)
    ensures Count(OfKind(cols, PartitionKey), c) + Count(OfKind(cols, Clustering), c) + Count(Others(cols), c) == Count(cols, c)
  {
    if cols != [] {
      var front, last := cols[..|cols| - 1], cols[|cols| - 1];
      FrontLast(cols);
      KindsTogether(front, c);
      CountOfKind(front, last, PartitionKey, c);
      CountOfKind(front, last, Clustering, c);
      CountOthers(front, last, c);
      CountSnoc(front, last, c);
    }
  }

  /** The columns printed are those of the table, each as often as it is there. */
  lemma {:induction false} EveryColumnOnce(td: TableDetail)
    ensures multiset(Ordered(td)) == multiset(td.columns)
  {
    SortKeeps(OfKind(td.columns, PartitionKey));
    SortKeeps(OfKind(td.columns, Clustering));
    NameOrder.SortKeeps(Others(td.columns), Ddl.NameOf);
    forall c ensures multiset(Ordered(td))[c] == multiset(td.columns)[c] {
      KindsTogether(td.columns, c);
    }
  }

  /** The clustering order of the i-th clustering column: where none is given, ascending. */
  function OrderIn(settings: seq<Setting>, i: nat): string {
    if settings != [] && settings[0].OrderBy? && i < |settings[0].orders| then settings[0].orders[i].1 else "ASC"
  }

  lemma {:induction false} OrderAt(ck: seq<Column>, rest: seq<Setting>, i: nat)
    requires i < |ck| && NoOrderBy(rest)
    ensures OrderIn(OrderSettings(ck) + rest, i) == EffectiveOrder(ck[i])
  {
    if !NonDefaultOrder(ck) {
      assert OrderSettings(ck) + rest == rest;
      assert rest != [] ==> rest[0] in rest;
    }
  }

  /** The clustering orders are recovered, although they are printed only if one of them is not the default. */
  lemma {:induction false} OrdersReadBack(td: TableDetail, i: nat)
    requires i < |ClusteringColumns(td)|
    ensures OrderIn(AstOf(td).settings, i) == EffectiveOrder(ClusteringColumns(td)[i])
  {
    var a, b, c, d := OrderSettings(ClusteringColumns(td)), MapSettings(td), NumberSettings(td), TextSettings(td);
    NoOrders(td);
    OrderAt(ClusteringColumns(td), b + c + d, i);
    GroupSettings(a, b, c, d);
  }

  lemma GroupSettings(a: seq<Setting>, b: seq<Setting>, c: seq<Setting>, d: seq<Setting>)
    ensures a + b + c + d == a + (b + c + d)
  {
  }

  ghost predicate NoOrderBy(settings: seq<Setting>) {
    forall s :: s in settings ==> !s.OrderBy?
  }

  lemma NoOrderWhen(before: seq<Setting>, c: bool, s: Setting)
    requires NoOrderBy(before) && !s.OrderBy?
    ensures NoOrderBy(before + When(c, s))
  {
  }

  lemma NoOrderMaps(td: TableDetail)
    ensures NoOrderBy(MapSettings(td))
  {
    NoOrderWhen([], td.compaction != map[], MapSetting("compaction", SortedPairs(td.compaction)));
    var a := When(td.compaction != map[], MapSetting("compaction", SortedPairs(td.compaction)));
    NoOrderWhen(a, td.compression != map[], MapSetting("compression", SortedPairs(td.compression)));
  }

  lemma NoOrderTexts(td: TableDetail)
    ensures NoOrderBy(TextSettings(td))
  {
    var a := When(td.speculativeRetry != "", TextSetting("speculative_retry", td.speculativeRetry));
    NoOrderWhen(a, td.bloomFilter != "", NumberSetting("bloom_filter_fp_chance", td.bloomFilter));
  }

  lemma NoOrders(td: TableDetail)
    ensures NoOrderBy(MapSettings(td) + NumberSettings(td) + TextSettings(td))
  {
    NoOrderMaps(td);
    NoOrderTexts(td);
  }

  lemma {:induction false} OthersCanonical(cols: seq<Column>, others: seq<Column>)
    requires SameColumns(cols, others)
    requires NameOrder.DistinctNames(Others(cols), Ddl.NameOf) && NameOrder.DistinctNames(Others(others), Ddl.NameOf)
    ensures NameOrder.Sort(Others(cols), Ddl.NameOf) == NameOrder.Sort(Others(others), Ddl.NameOf)
  {
    var a, b := Others(cols), Others(others);
    NameOrder.SortRises(a, Ddl.NameOf);
    NameOrder.SortRises(b, Ddl.NameOf);
    var s, t := NameOrder.Sort(a, Ddl.NameOf), NameOrder.Sort(b, Ddl.NameOf);
    forall c ensures c in s <==> c in t {
      OthersHas(cols, c);
      OthersHas(others, c);
    }
    NameOrder.RisingUnique(s, t, Ddl.NameOf);
  }

  // The text depends on the columns only through those in order.
  lemma SameSettings(td: TableDetail, other: TableDetail)
    requires other == td.(columns := other.columns) && ClusteringColumns(td) == ClusteringColumns(other)
    ensures Settings(td) == Settings(other)
  {
    assert MapSettings(td) == MapSettings(other) && NumberSettings(td) == NumberSettings(other);
    assert TextSettings(td) == TextSettings(other);
  }

  lemma SameText(td: TableDetail, other: TableDetail)
    requires other == td.(columns := other.columns)
    requires PartitionColumns(td) == PartitionColumns(other) && ClusteringColumns(td) == ClusteringColumns(other)
    requires Ordered(td) == Ordered(other)
    ensures TableText(td) == TableText(other)
  {
    assert HeadText(td) == HeadText(other) by {
      assert td.keyspace == other.keyspace && td.name == other.name;
    }
    SameSettings(td, other);
  }

  /** With distinct names and distinct key positions the statement does not depend on the order in which the columns
      were listed; nor does it on that of any map. */
  lemma {:induction false} Canonical(td: TableDetail, cols: seq<Column>)
    requires SameColumns(td.columns, cols)
    requires DistinctPositions(OfKind(td.columns, PartitionKey)) && DistinctPositions(OfKind(cols, PartitionKey))
    requires DistinctPositions(OfKind(td.columns, Clustering)) && DistinctPositions(OfKind(cols, Clustering))
    requires NameOrder.DistinctNames(Others(td.columns), Ddl.NameOf) && NameOrder.DistinctNames(Others(cols), Ddl.NameOf)
    ensures TableText(td.(columns := cols)) == TableText(td)
  {
    KindIsCanonical(td.columns, cols, PartitionKey);
    KindIsCanonical(td.columns, cols, Clustering);
    OthersCanonical(td.columns, cols);
    SameText(td, td.(columns := cols));
  }
}
