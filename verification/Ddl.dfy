/** The CREATE TABLE printer (internal/schema/ddl.go). */
module Ddl {
  import opened Sequences
  import opened Options
  import opened Quoting
  import opened TableSchema
  import NameOrder
  import Coercion
  import opened Texts

  // ----- what is printed -----

  /** An option of the WITH clause. */
  datatype Setting = OrderBy(orders: seq<(string, string)>) | MapSetting(name: string, pairs: seq<(string, string)>)
    | TextSetting(name: string, text: string) | NumberSetting(name: string, number: string)

  function NameOf(c: Column): string {
    c.name
  }

  /** Regular and static columns in the order given. */
  function Others(cols: seq<Column>): seq<Column> {
    if cols == [] then []
    else
      var last := cols[|cols| - 1];
      Others(cols[..|cols| - 1]) + (if last.kind == Regular || last.kind == Static then [last] else [])
  }

  /** The columns in the order printed: the key by position, then the others by name. */
  function Ordered(td: TableDetail): seq<Column> {
    PartitionColumns(td) + ClusteringColumns(td) + NameOrder.Sort(Others(td.columns), NameOf)
  }

  function OrderOf(c: Column): string {
    Upper(Coercion.Trim(c.clusteringOrder))
  }

  function EffectiveOrder(c: Column): string {
    if OrderOf(c) == "" then "ASC" else OrderOf(c)
  }

  predicate NonDefaultOrder(ck: seq<Column>) {
    exists i :: 0 <= i < |ck| && OrderOf(ck[i]) != "" && OrderOf(ck[i]) != "ASC"
  }

  function Orders(ck: seq<Column>): seq<(string, string)> {
    seq(|ck|, i requires 0 <= i < |ck| => (ck[i].name, EffectiveOrder(ck[i])))
  }

  ghost function SortedPairs(m: map<string, string>): seq<(string, string)> {
    PairsOf(m, NameOrder.SortedSet(m.Keys))
  }

  function PairsOf(m: map<string, string>, keys: seq<string>): seq<(string, string)> {
    seq(|keys|, i requires 0 <= i < |keys| => (keys[i], if keys[i] in m then m[keys[i]] else ""))
  }

  function When(c: bool, s: Setting): seq<Setting> {
    if c then [s] else []
  }

  function Positive(n: int): nat {
    if n > 0 then n else 0
  }

  function OrderSettings(ck: seq<Column>): seq<Setting> {
    When(NonDefaultOrder(ck), OrderBy(Orders(ck)))
  }

  ghost function MapSettings(td: TableDetail): seq<Setting> {
    When(td.compaction != map[], MapSetting("compaction", SortedPairs(td.compaction)))
    + When(td.compression != map[], MapSetting("compression", SortedPairs(td.compression)))
    + When(td.caching != map[], MapSetting("caching", SortedPairs(td.caching)))
  }

  function NumberSettings(td: TableDetail): seq<Setting> {
    When(td.gcGraceSeconds > 0, NumberSetting("gc_grace_seconds", Decimal(Positive(td.gcGraceSeconds))))
    + When(td.defaultTTL > 0, NumberSetting("default_time_to_live", Decimal(Positive(td.defaultTTL))))
  }

  function TextSettings(td: TableDetail): seq<Setting> {
    When(td.speculativeRetry != "", TextSetting("speculative_retry", td.speculativeRetry))
    + When(td.bloomFilter != "", NumberSetting("bloom_filter_fp_chance", td.bloomFilter))
    + When(td.comment != "", TextSetting("comment", td.comment))
  }

  /** The options in the order printed; those that are empty, zero or default are left out. */
  ghost function Settings(td: TableDetail): seq<Setting> {
    OrderSettings(ClusteringColumns(td)) + MapSettings(td) + NumberSettings(td) + TextSettings(td)
  }

  // ----- how it is printed -----

  function ColumnText(c: Column): string {
    "  " + QuotedIdent(c.name) + " " + c.cqlType + (if c.kind == Static then " static" else "") + ",\n"
  }

  function ColumnsText(cols: seq<Column>): string {
    if cols == [] then "" else ColumnsText(cols[..|cols| - 1]) + ColumnText(cols[|cols| - 1])
  }

  function Idents(cols: seq<Column>): seq<string> {
    seq(|cols|, i requires 0 <= i < |cols| => QuotedIdent(cols[i].name))
  }

  /** Each name preceded by a comma. */
  function MoreText(cols: seq<Column>): string {
    if cols == [] then "" else MoreText(cols[..|cols| - 1]) + ", " + QuotedIdent(cols[|cols| - 1].name)
  }

  function PartitionText(pk: seq<Column>): string {
    if |pk| > 1 then "(" + Join(Idents(pk), ", ") + ")"
    else if |pk| == 1 then QuotedIdent(pk[0].name)
    else ""
  }

  function OrderText(o: (string, string)): string {
    QuotedIdent(o.0) + " " + o.1
  }

  function PairText(p: (string, string)): string {
    QuotedString(p.0) + ": " + QuotedString(p.1)
  }

  function OrderTexts(orders: seq<(string, string)>): seq<string> {
    seq(|orders|, i requires 0 <= i < |orders| => OrderText(orders[i]))
  }

  function PairTexts(pairs: seq<(string, string)>): seq<string> {
    seq(|pairs|, i requires 0 <= i < |pairs| => PairText(pairs[i]))
  }

  function SettingText(s: Setting): string {
    match s
    case OrderBy(orders) => "CLUSTERING ORDER BY (" + Join(OrderTexts(orders), ", ") + ")"
    case MapSetting(name, pairs) => name + " = {" + Join(PairTexts(pairs), ", ") + "}"
    case TextSetting(name, text) => name + " = " + QuotedString(text)
    case NumberSetting(name, number) => name + " = " + number
  }

  function SettingTexts(settings: seq<Setting>): seq<string> {
    seq(|settings|, i requires 0 <= i < |settings| => SettingText(settings[i]))
  }

  function WithText(settings: seq<Setting>): string {
    if settings == [] then "" else " WITH " + Join(SettingTexts(settings), "\n  AND ")
  }

  /** The statement up to its options. */
  function HeadText(td: TableDetail): string {
    "CREATE TABLE " + QuotedIdent(td.keyspace) + "." + QuotedIdent(td.name) + " (\n" + ColumnsText(Ordered(td))
    + "  PRIMARY KEY (" + PartitionText(PartitionColumns(td)) + MoreText(ClusteringColumns(td)) + ")\n)"
  }

  ghost function TableText(td: TableDetail): string {
    HeadText(td) + WithText(Settings(td)) + ";"
  }

  // ----- the code -----

  method RegularAndStatic(td: TableDetail) returns (out: seq<Column>)
    ensures out == Others(td.columns)
  {
    out := [];
    for i := 0 to |td.columns|
      invariant out == Others(td.columns[..i])
    {
      assert td.columns[..i + 1][..i] == td.columns[..i];
      if td.columns[i].kind == Regular || td.columns[i].kind == Static {
        out := out + [td.columns[i]];
      }
    }
    assert td.columns[..|td.columns|] == td.columns;
  }

  method BuildCreateTable(td: TableDetail) returns (b: string)
    ensures b == TableText(td)
  {
    b := WriteHead(td);
    var with := WithClause(td);
    ghost var head := b;
    SettingsJoin(Settings(td));
    if with != "" {
      b := b + " WITH ";
      b := b + with;
      Assoc(head, " WITH ", with);
    } else {
      assert head + "" == head;
    }
    b := b + ";";
  }

  method WriteHead(td: TableDetail) returns (b: string)
    ensures b == HeadText(td)
  {
    var pk := ColumnsOfKind(td.columns, PartitionKey);
    var ck := ColumnsOfKind(td.columns, Clustering);
    var rest := RegularAndStatic(td);
    rest := NameOrder.Sort(rest, NameOf);
    var cols := pk[..] + ck[..] + rest;
    var ks := QuoteIdentDdl(td.keyspace);
    var name := QuoteIdentDdl(td.name);
    var lines := WriteColumns(cols);
    var partition := WritePartition(pk[..]);
    var clustering := WriteMore(ck[..]);
    b := "CREATE TABLE " + ks + "." + name + " (\n" + lines + "  PRIMARY KEY (" + partition + clustering + ")\n)";
  }

  // Some option is printed exactly if the clause is not empty.
  lemma {:induction false} SettingsJoin(settings: seq<Setting>)
    ensures settings != [] <==> Join(SettingTexts(settings), "\n  AND ") != ""
  {
  }

  method WriteColumns(cols: seq<Column>) returns (b: string)
    ensures b == ColumnsText(cols)
  {
    b := "";
    for i := 0 to |cols|
      invariant b == ColumnsText(cols[..i])
    {
      assert cols[..i + 1][..i] == cols[..i];
      var name := QuoteIdentDdl(cols[i].name);
      var line := "  " + name + " " + cols[i].cqlType;
      if cols[i].kind == Static {
        line := line + " static";
      }
      line := line + ",\n";
      assert line == ColumnText(cols[i]);
      b := b + line;
    }
    assert cols[..|cols|] == cols;
  }

  lemma IdentsSnoc(pk: seq<Column>, i: nat)
    requires i < |pk|
    ensures Idents(pk[..i + 1]) == Idents(pk[..i]) + [QuotedIdent(pk[i].name)]
  {
  }

  method WriteList(pk: seq<Column>) returns (list: string)
    ensures list == Join(Idents(pk), ", ")
  {
    list := "";
    for i := 0 to |pk|
      invariant list == Join(Idents(pk[..i]), ", ")
    {
      var name := QuoteIdentDdl(pk[i].name);
      IdentsSnoc(pk, i);
      JoinSnoc(Idents(pk[..i]), name, ", ");
      if i > 0 {
        list := list + ", ";
      }
      list := list + name;
    }
    assert pk[..|pk|] == pk;
  }

  method WritePartition(pk: seq<Column>) returns (b: string)
    ensures b == PartitionText(pk)
  {
    if |pk| > 1 {
      var list := WriteList(pk);
      return "(" + list + ")";
    }
    if |pk| == 1 {
      b := QuoteIdentDdl(pk[0].name);
      return;
    }
    return "";
  }

  method WriteMore(ck: seq<Column>) returns (b: string)
    ensures b == MoreText(ck)
  {
    b := "";
    for i := 0 to |ck|
      invariant b == MoreText(ck[..i])
    {
      assert ck[..i + 1][..i] == ck[..i];
      var name := QuoteIdentDdl(ck[i].name);
      b := b + ", ";
      b := b + name;
    }
    assert ck[..|ck|] == ck;
  }

  method HasNonDefaultClusteringOrder(ck: seq<Column>) returns (r: bool)
    ensures r <==> NonDefaultOrder(ck)
  {
    for i := 0 to |ck|
      invariant forall j :: 0 <= j < i ==> OrderOf(ck[j]) == "" || OrderOf(ck[j]) == "ASC"
    {
      var order := Upper(Coercion.Trim(ck[i].clusteringOrder));
      if order != "" && order != "ASC" {
        return true;
      }
    }
    return false;
  }

  method EscapeStringLiteral(s: string) returns (r: string)
    ensures "'" + r + "'" == QuotedString(s)
  {
    r := ReplaceAll(s, '\'');
  }

  method FormatPair(key: string, value: string) returns (part: string)
    ensures part == PairText((key, value))
  {
    var k := EscapeStringLiteral(key);
    var v := EscapeStringLiteral(value);
    part := "'" + k + "': '" + v + "'";
    assert part == ("'" + k + "'") + ": " + ("'" + v + "'");
  }

  method FormatStringMap(m: map<string, string>) returns (r: string)
    ensures r == "{" + Join(PairTexts(SortedPairs(m)), ", ") + "}"
  {
    if |m| == 0 {
      assert m.Keys == {};
      assert PairTexts(SortedPairs(m)) == [];
      return "{}";
    }
    var keys := NameOrder.SortedKeys(m);
    NameOrder.SortedSetRises(m.Keys);
    var parts := [];
    for i := 0 to |keys|
      invariant parts == PairTexts(PairsOf(m, keys[..i]))
    {
      assert keys[i] in m by { assert keys[i] in keys; }
      var part := FormatPair(keys[i], m[keys[i]]);
      PairTextsSnoc(m, keys, i);
      parts := parts + [part];
    }
    assert keys[..|keys|] == keys;
    r := "{" + Join(parts, ", ") + "}";
  }

  lemma PairTextsSnoc(m: map<string, string>, keys: seq<string>, i: nat)
    requires i < |keys| && keys[i] in m
    ensures PairTexts(PairsOf(m, keys[..i + 1])) == PairTexts(PairsOf(m, keys[..i])) + [PairText((keys[i], m[keys[i]]))]
  {
  }

  // The body of the loop over the clustering columns.
  method OrderPart(c: Column) returns (part: string)
    ensures part == OrderText((c.name, EffectiveOrder(c)))
  {
    var order := Upper(Coercion.Trim(c.clusteringOrder));
    if order == "" {
      order := "ASC";
    }
    var name := QuoteIdentDdl(c.name);
    part := name + " " + order;
  }

  lemma OrdersSnoc(ck: seq<Column>, i: nat)
    requires i < |ck|
    ensures OrderTexts(Orders(ck[..i + 1])) == OrderTexts(Orders(ck[..i])) + [OrderText((ck[i].name, EffectiveOrder(ck[i])))]
  {
    assert Orders(ck[..i + 1]) == Orders(ck[..i]) + [(ck[i].name, EffectiveOrder(ck[i]))];
  }

  method ClusteringOrder(ck: seq<Column>) returns (part: string)
    ensures part == SettingText(OrderBy(Orders(ck)))
  {
    var co := [];
    for i := 0 to |ck|
      invariant co == OrderTexts(Orders(ck[..i]))
    {
      var order := OrderPart(ck[i]);
      OrdersSnoc(ck, i);
      co := co + [order];
    }
    assert ck[..|ck|] == ck;
    part := "CLUSTERING ORDER BY (" + Join(co, ", ") + ")";
  }

  lemma SettingTextsSnoc(settings: seq<Setting>, s: Setting)
    ensures SettingTexts(settings + [s]) == SettingTexts(settings) + [SettingText(s)]
  {
  }

  // The parts of withClause, in order.
  method OrderParts(ck: seq<Column>) returns (parts: seq<string>)
    ensures parts == SettingTexts(OrderSettings(ck))
  {
    parts := [];
    var nonDefault := HasNonDefaultClusteringOrder(ck);
    if nonDefault {
      var part := ClusteringOrder(ck);
      parts := parts + [part];
    }
  }

  method MapPart(name: string, m: map<string, string>, parts: seq<string>, ghost before: seq<Setting>) returns (more: seq<string>)
    requires parts == SettingTexts(before)
    ensures more == SettingTexts(before + When(m != map[], MapSetting(name, SortedPairs(m))))
  {
    if |m| > 0 {
      var value := FormatStringMap(m);
      assert m != map[];
      assert name + " = " + value == name + " = {" + Join(PairTexts(SortedPairs(m)), ", ") + "}";
      SettingTextsSnoc(before, MapSetting(name, SortedPairs(m)));
      return parts + [name + " = " + value];
    }
    assert m == map[] && before + [] == before;
    return parts;
  }

  method MapParts(td: TableDetail) returns (parts: seq<string>)
    ensures parts == SettingTexts(MapSettings(td))
  {
    parts := MapPart("compaction", td.compaction, [], []);
    ghost var a := When(td.compaction != map[], MapSetting("compaction", SortedPairs(td.compaction)));
    assert [] + a == a;
    ghost var b := When(td.compression != map[], MapSetting("compression", SortedPairs(td.compression)));
    parts := MapPart("compression", td.compression, parts, a);
    parts := MapPart("caching", td.caching, parts, a + b);
  }

  method NumberParts(td: TableDetail) returns (parts: seq<string>)
    ensures parts == SettingTexts(NumberSettings(td))
  {
    parts := [];
    if td.gcGraceSeconds > 0 {
      parts := parts + ["gc_grace_seconds = " + Decimal(td.gcGraceSeconds)];
      assert "gc_grace_seconds" + " = " == "gc_grace_seconds = ";
    }
    if td.defaultTTL > 0 {
      parts := parts + ["default_time_to_live = " + Decimal(td.defaultTTL)];
      assert "default_time_to_live" + " = " == "default_time_to_live = ";
    }
  }

  method TextParts(td: TableDetail) returns (parts: seq<string>)
    ensures parts == SettingTexts(TextSettings(td))
  {
    parts := [];
    if td.speculativeRetry != "" {
      var text := EscapeStringLiteral(td.speculativeRetry);
      parts := parts + ["speculative_retry = '" + text + "'"];
      assert "speculative_retry = '" + text + "'" == "speculative_retry" + " = " + ("'" + text + "'");
    }
    if td.bloomFilter != "" {
      parts := parts + ["bloom_filter_fp_chance = " + td.bloomFilter];
      assert "bloom_filter_fp_chance" + " = " == "bloom_filter_fp_chance = ";
    }
    if td.comment != "" {
      var text := EscapeStringLiteral(td.comment);
      parts := parts + ["comment = '" + text + "'"];
      assert "comment = '" + text + "'" == "comment" + " = " + ("'" + text + "'");
    }
  }

  lemma TextsConcat(a: seq<Setting>, b: seq<Setting>)
    ensures SettingTexts(a + b) == SettingTexts(a) + SettingTexts(b)
  {
  }

  method WithClause(td: TableDetail) returns (with: string)
    ensures with == Join(SettingTexts(Settings(td)), "\n  AND ")
  {
    var ck := ColumnsOfKind(td.columns, Clustering);
    var parts := OrderParts(ck[..]);
    ghost var a := OrderSettings(ClusteringColumns(td));
    var more := MapParts(td);
    TextsConcat(a, MapSettings(td));
    parts := parts + more;
    more := NumberParts(td);
    TextsConcat(a + MapSettings(td), NumberSettings(td));
    parts := parts + more;
    more := TextParts(td);
    TextsConcat(a + MapSettings(td) + NumberSettings(td), TextSettings(td));
    parts := parts + more;
    if |parts| == 0 {
      return "";
    }
    return Join(parts, "\n  AND ");
  }
}
