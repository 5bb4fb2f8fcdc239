/** Option by option, what the printed CREATE TABLE statement says of the table. */
module DdlOptions {
  import opened Sequences
  import opened Options
  import opened Texts
  import opened TableSchema
  import opened Ddl
  import opened DdlReading
  import NameOrder
  import Coercion

  const COMPACTION := "compaction"
  const COMPRESSION := "compression"
  const CACHING := "caching"
  const GC_GRACE := "gc_grace_seconds"
  const TTL := "default_time_to_live"
  const RETRY := "speculative_retry"
  const BLOOM := "bloom_filter_fp_chance"
  const COMMENT := "comment"
  const CLUSTERING := "CLUSTERING ORDER BY"

  function OptionName(s: Setting): string {
    if s.OrderBy? then CLUSTERING else s.name
  }

  /** The option is there, and is the only one of its name. */
  ghost predicate Only(opts: seq<Setting>, s: Setting) {
    s in opts && forall x :: x in opts && OptionName(x) == OptionName(s) ==> x == s
  }

  ghost predicate NoneNamed(opts: seq<Setting>, name: string) {
    forall x :: x in opts ==> OptionName(x) != name
  }

  /** The pairs are the entries of the map, each once, by key. */
  ghost predicate Entries(pairs: seq<(string, string)>, m: map<string, string>) {
    && (forall p :: p in pairs <==> p.0 in m && p.1 == m[p.0])
    && (forall i, j :: 0 <= i < j < |pairs| ==> NameOrder.Less(pairs[i].0, pairs[j].0))
  }

  /** A map option is printed exactly if the map is not empty, with exactly its entries. */
  ghost predicate MapRead(opts: seq<Setting>, name: string, m: map<string, string>) {
    if m == map[] then NoneNamed(opts, name)
    else exists pairs :: Entries(pairs, m) && Only(opts, MapSetting(name, pairs))
  }

  /** A number is printed exactly if it is positive, in decimal. */
  ghost predicate NumberRead(opts: seq<Setting>, name: string, n: int) {
    if n <= 0 then NoneNamed(opts, name)
    else exists text :: Number(text) == n && AllDigits(text) && Only(opts, NumberSetting(name, text))
  }

  ghost predicate TextRead(opts: seq<Setting>, name: string, text: string) {
    if text == "" then NoneNamed(opts, name) else Only(opts, TextSetting(name, text))
  }

  ghost predicate BareRead(opts: seq<Setting>, name: string, text: string) {
    if text == "" then NoneNamed(opts, name) else Only(opts, NumberSetting(name, text))
  }

  /** The clustering order of a column: upper-cased, without spaces around it, ascending if none is given. */
  function Direction(c: Column): string {
    var order := Upper(Coercion.Trim(c.clusteringOrder));
    if order == "" then "ASC" else order
  }

  /** The clustering orders are printed exactly if one is not ascending, for all clustering columns in their order. */
  ghost predicate OrdersRead(opts: seq<Setting>, ck: seq<Column>) {
    if forall c :: c in ck ==> Direction(c) == "ASC" then NoneNamed(opts, CLUSTERING)
    else exists orders :: OrdersOf(orders, ck) && Only(opts, OrderBy(orders))
  }

  ghost predicate OrdersOf(orders: seq<(string, string)>, ck: seq<Column>) {
    |orders| == |ck| && forall i :: 0 <= i < |ck| ==> orders[i] == (ck[i].name, Direction(ck[i]))
  }

  ghost predicate NoNameTwice(opts: seq<Setting>) {
    forall i, j :: 0 <= i < j < |opts| ==> OptionName(opts[i]) != OptionName(opts[j])
  }

  const ALL_NAMES: set<string> :=
    {CLUSTERING, COMPACTION, COMPRESSION, CACHING, GC_GRACE, TTL, RETRY, BLOOM, COMMENT}

  // ----- options that are chosen or not -----

  /** An option and whether it is printed. */
  datatype Choice = Choice(chosen: bool, option: Setting)

  function Chosen(choices: seq<Choice>): seq<Setting> {
    if choices == [] then []
    else Chosen(choices[..|choices| - 1]) + When(choices[|choices| - 1].chosen, choices[|choices| - 1].option)
  }

  ghost predicate NamesDiffer(choices: seq<Choice>) {
    forall i, j :: 0 <= i < j < |choices| ==> OptionName(choices[i].option) != OptionName(choices[j].option)
  }

  lemma {:induction false} ChosenHas(choices: seq<Choice>, s: Setting)
    ensures s in Chosen(choices) <==> exists i :: 0 <= i < |choices| && choices[i].chosen && choices[i].option == s
    decreases |choices|
  {
    if choices != [] {
      var n := |choices| - 1;
      ChosenHas(choices[..n], s);
      if i :| 0 <= i < |choices| && choices[i].chosen && choices[i].option == s {
        assert i < n ==> choices[..n][i] == choices[i];
      }
      if i :| 0 <= i < n && choices[..n][i].chosen && choices[..n][i].option == s {
        assert choices[i] == choices[..n][i];
      }
    }
  }

  // With different names each option is there exactly if it is chosen, and is the only one of its name.
  lemma {:induction false} ChosenOnly(choices: seq<Choice>, i: nat)
    requires NamesDiffer(choices) && i < |choices|
    ensures var c := choices[i];
      if c.chosen then Only(Chosen(choices), c.option) else NoneNamed(Chosen(choices), OptionName(c.option))
  {
    var opts, c := Chosen(choices), choices[i];
    ChosenHas(choices, c.option);
    forall x | x in opts && OptionName(x) == OptionName(c.option) ensures c.chosen && x == c.option {
      ChosenHas(choices, x);
      var j :| 0 <= j < |choices| && choices[j].chosen && choices[j].option == x;
      assert j == i;
    }
  }

  lemma {:induction false} ChosenNamed(choices: seq<Choice>, x: Setting)
    requires x in Chosen(choices)
    ensures exists i :: 0 <= i < |choices| && OptionName(choices[i].option) == OptionName(x)
  {
    ChosenHas(choices, x);
  }

  lemma {:induction false} ChosenOnce(choices: seq<Choice>)
    requires NamesDiffer(choices)
    ensures NoNameTwice(Chosen(choices))
    decreases |choices|
  {
    if choices != [] {
      var n := |choices| - 1;
      var front, last := Chosen(choices[..n]), choices[n];
      assert forall i :: 0 <= i < n ==> choices[..n][i] == choices[i];
      ChosenOnce(choices[..n]);
      forall x | x in front ensures OptionName(x) != OptionName(last.option) {
        ChosenNamed(choices[..n], x);
        var i :| 0 <= i < n && OptionName(choices[..n][i].option) == OptionName(x);
        assert OptionName(choices[i].option) != OptionName(choices[n].option);
      }
      OnceMore(front, last.chosen, last.option);
    }
  }

  lemma OnceMore(front: seq<Setting>, chosen: bool, s: Setting)
    requires NoNameTwice(front) && NoneNamed(front, OptionName(s))
    ensures NoNameTwice(front + When(chosen, s))
  {
    var all := front + When(chosen, s);
    forall i, j | 0 <= i < j < |all| ensures OptionName(all[i]) != OptionName(all[j]) {
      assert all[i] in front;
      assert all[j] == if j < |front| then front[j] else s;
    }
  }

  // ----- the options of a table -----

  /** The options of the table in the order of the program. */
  ghost function Choices(td: TableDetail): seq<Choice> {
    [Choice(NonDefaultOrder(ClusteringColumns(td)), OrderBy(Orders(ClusteringColumns(td)))),
     Choice(td.compaction != map[], MapSetting(COMPACTION, SortedPairs(td.compaction))),
     Choice(td.compression != map[], MapSetting(COMPRESSION, SortedPairs(td.compression))),
     Choice(td.caching != map[], MapSetting(CACHING, SortedPairs(td.caching))),
     Choice(td.gcGraceSeconds > 0, NumberSetting(GC_GRACE, Decimal(Positive(td.gcGraceSeconds)))),
     Choice(td.defaultTTL > 0, NumberSetting(TTL, Decimal(Positive(td.defaultTTL)))),
     Choice(td.speculativeRetry != "", TextSetting(RETRY, td.speculativeRetry)),
     Choice(td.bloomFilter != "", NumberSetting(BLOOM, td.bloomFilter)),
     Choice(td.comment != "", TextSetting(COMMENT, td.comment))]
  }

  lemma {:induction false} ChosenSnoc(front: seq<Choice>, c: Choice)
    ensures Chosen(front + [c]) == Chosen(front) + When(c.chosen, c.option)
  {
    assert (front + [c])[..|front|] == front;
  }

  lemma ChosenThree(before: seq<Choice>, a: Choice, b: Choice, c: Choice)
    ensures Chosen(before + [a, b, c])
      == Chosen(before) + (When(a.chosen, a.option) + When(b.chosen, b.option) + When(c.chosen, c.option))
  {
    ChosenSnoc(before, a);
    ChosenSnoc(before + [a], b);
    ChosenSnoc(before + [a] + [b], c);
    assert before + [a] + [b] + [c] == before + [a, b, c];
    Assoc(Chosen(before) + When(a.chosen, a.option), When(b.chosen, b.option), When(c.chosen, c.option));
    Assoc(Chosen(before), When(a.chosen, a.option), When(b.chosen, b.option) + When(c.chosen, c.option));
    Assoc(When(a.chosen, a.option), When(b.chosen, b.option), When(c.chosen, c.option));
  }

  lemma ChosenTwo(before: seq<Choice>, a: Choice, b: Choice)
    ensures Chosen(before + [a, b]) == Chosen(before) + (When(a.chosen, a.option) + When(b.chosen, b.option))
  {
    ChosenSnoc(before, a);
    ChosenSnoc(before + [a], b);
    assert before + [a] + [b] == before + [a, b];
    Assoc(Chosen(before), When(a.chosen, a.option), When(b.chosen, b.option));
  }

  function Part(c: Choice): seq<Setting> {
    When(c.chosen, c.option)
  }

  lemma SplitNine(c: seq<Choice>)
    requires |c| == 9
    ensures c == [c[0]] + [c[1], c[2], c[3]] + [c[4], c[5]] + [c[6], c[7], c[8]]
  {
  }

  lemma {:induction false} ChosenFirst(c: Choice)
    ensures Chosen([c]) == Part(c)
  {
    ChosenSnoc([], c);
    assert [] + [c] == [c] && [] + Part(c) == Part(c);
  }

  lemma {:induction false} ChosenNine(c: seq<Choice>)
    requires |c| == 9
    ensures Chosen(c) == Part(c[0]) + (Part(c[1]) + Part(c[2]) + Part(c[3])) + (Part(c[4]) + Part(c[5]))
                         + (Part(c[6]) + Part(c[7]) + Part(c[8]))
  {
    var one := [c[0]];
    var four := one + [c[1], c[2], c[3]];
    var six := four + [c[4], c[5]];
    ChosenFirst(c[0]);
    ChosenThree(one, c[1], c[2], c[3]);
    ChosenTwo(four, c[4], c[5]);
    ChosenThree(six, c[6], c[7], c[8]);
    SplitNine(c);
  }

  // The options printed are those chosen.
  lemma {:induction false} SettingsAreChosen(td: TableDetail)
    ensures Settings(td) == Chosen(Choices(td))
  {
    var c := Choices(td);
    ChosenNine(c);
    assert OrderSettings(ClusteringColumns(td)) == Part(c[0]);
    assert MapSettings(td) == Part(c[1]) + Part(c[2]) + Part(c[3]);
    assert NumberSettings(td) == Part(c[4]) + Part(c[5]);
    assert TextSettings(td) == Part(c[6]) + Part(c[7]) + Part(c[8]);
  }

  function NameAt(i: nat): string
    requires i < 9
  {
    [CLUSTERING, COMPACTION, COMPRESSION, CACHING, GC_GRACE, TTL, RETRY, BLOOM, COMMENT][i]
  }

  // Eight of the names differ in their length, the other two in a letter.
  lemma NameLengths()
    ensures |CLUSTERING| == 19 && |COMPACTION| == 10 && |COMPRESSION| == 11 && |CACHING| == 7 && |GC_GRACE| == 16
    ensures |TTL| == 20 && |RETRY| == 17 && |BLOOM| == 22 && |COMMENT| == 7 && CACHING[1] != COMMENT[1]
  {
  }

  lemma ChoiceNames(td: TableDetail)
    ensures |Choices(td)| == 9 && forall i: nat :: i < 9 ==> OptionName(Choices(td)[i].option) == NameAt(i)
  {
  }

  lemma {:induction false} ChoicesDiffer(td: TableDetail)
    ensures NamesDiffer(Choices(td))
  {
    NameLengths();
    ChoiceNames(td);
    forall i: nat, j: nat | i < j < 9 ensures NameAt(i) != NameAt(j) {
      assert |NameAt(i)| != |NameAt(j)| || NameAt(i)[1] != NameAt(j)[1];
    }
  }

  lemma {:induction false} PairsAreEntries(m: map<string, string>)
    ensures Entries(SortedPairs(m), m)
  {
    var keys, pairs := NameOrder.SortedSet(m.Keys), SortedPairs(m);
    NameOrder.SortedSetRises(m.Keys);
    forall p ensures p in pairs <==> p.0 in m && p.1 == m[p.0] {
      if p in pairs {
        var i :| 0 <= i < |pairs| && pairs[i] == p;
        assert keys[i] in keys;
      }
      if p.0 in m && p.1 == m[p.0] {
        var i :| 0 <= i < |keys| && keys[i] == p.0;
        assert pairs[i] == p;
      }
    }
    forall i, j | 0 <= i < j < |pairs| ensures NameOrder.Less(pairs[i].0, pairs[j].0) {
      NameOrder.RisingAt(keys, NameOrder.Self, i, j);
    }
  }

  lemma {:induction false} NonDefaultExactly(ck: seq<Column>)
    ensures NonDefaultOrder(ck) <==> !(forall c :: c in ck ==> Direction(c) == "ASC")
    ensures OrdersOf(Orders(ck), ck)
  {
    if NonDefaultOrder(ck) {
      var i :| 0 <= i < |ck| && OrderOf(ck[i]) != "" && OrderOf(ck[i]) != "ASC";
      assert ck[i] in ck;
    }
    if c :| c in ck && Direction(c) != "ASC" {
      var i :| 0 <= i < |ck| && ck[i] == c;
      assert OrderOf(ck[i]) != "" && OrderOf(ck[i]) != "ASC";
    }
  }

  lemma {:induction false} DecimalNumber(n: nat)
    ensures Number(Decimal(n)) == n && AllDigits(Decimal(n))
  {
    NumberOfDecimal(n);
  }

  lemma {:induction false} OneOption(td: TableDetail, i: nat)
    requires i < 9
    ensures var opts, c := Settings(td), Choices(td)[i];
      OptionName(c.option) == NameAt(i) && if c.chosen then Only(opts, c.option) else NoneNamed(opts, NameAt(i))
  {
    ChoicesDiffer(td);
    ChoiceNames(td);
    SettingsAreChosen(td);
    ChosenOnly(Choices(td), i);
  }

  lemma {:induction false} MapOption(td: TableDetail, i: nat, m: map<string, string>)
    requires i < 9 && Choices(td)[i] == Choice(m != map[], MapSetting(NameAt(i), SortedPairs(m)))
    ensures MapRead(Settings(td), NameAt(i), m)
  {
    OneOption(td, i);
    PairsAreEntries(m);
  }

  lemma {:induction false} NumberOption(td: TableDetail, i: nat, n: int)
    requires i < 9 && Choices(td)[i] == Choice(n > 0, NumberSetting(NameAt(i), Decimal(Positive(n))))
    ensures NumberRead(Settings(td), NameAt(i), n)
  {
    OneOption(td, i);
    DecimalNumber(Positive(n));
  }

  lemma {:induction false} OrderOption(td: TableDetail)
    ensures OrdersRead(Settings(td), ClusteringColumns(td))
  {
    OneOption(td, 0);
    NonDefaultExactly(ClusteringColumns(td));
  }

  lemma {:induction false} OptionNamesKnown(td: TableDetail)
    ensures forall s :: s in Settings(td) ==> OptionName(s) in ALL_NAMES
  {
    forall s | s in Settings(td) ensures OptionName(s) in ALL_NAMES {
      var i := KnownAt(td, s);
      NameKnown(i);
    }
  }

  lemma {:induction false} KnownAt(td: TableDetail, s: Setting) returns (i: nat)
    requires s in Settings(td)
    ensures i < 9 && OptionName(s) == NameAt(i)
  {
    SettingsAreChosen(td);
    ChoiceNames(td);
    ChosenNamed(Choices(td), s);
    i :| i < |Choices(td)| && OptionName(Choices(td)[i].option) == OptionName(s);
  }

  lemma NameKnown(i: nat)
    requires i < 9
    ensures NameAt(i) in ALL_NAMES
  {
    assert NameAt(i) == CLUSTERING || NameAt(i) == COMPACTION || NameAt(i) == COMPRESSION || NameAt(i) == CACHING
      || NameAt(i) == GC_GRACE || NameAt(i) == TTL || NameAt(i) == RETRY || NameAt(i) == BLOOM || NameAt(i) == COMMENT;
  }

  /** The options are exactly those of the table: each is there exactly if its field is not empty, zero or default, and
      carries that field; none occurs twice, and there are no others. */
  ghost predicate Carry(opts: seq<Setting>, td: TableDetail) {
    && NoNameTwice(opts) && (forall s :: s in opts ==> OptionName(s) in ALL_NAMES)
    && OrdersRead(opts, ClusteringColumns(td))
    && MapRead(opts, COMPACTION, td.compaction)
    && MapRead(opts, COMPRESSION, td.compression)
    && MapRead(opts, CACHING, td.caching)
    && NumberRead(opts, GC_GRACE, td.gcGraceSeconds)
    && NumberRead(opts, TTL, td.defaultTTL)
    && TextRead(opts, RETRY, td.speculativeRetry)
    && BareRead(opts, BLOOM, td.bloomFilter)
    && TextRead(opts, COMMENT, td.comment)
  }

  lemma TextChoices(td: TableDetail)
    ensures Choices(td)[6] == Choice(td.speculativeRetry != "", TextSetting(NameAt(6), td.speculativeRetry))
    ensures Choices(td)[7] == Choice(td.bloomFilter != "", NumberSetting(NameAt(7), td.bloomFilter))
    ensures Choices(td)[8] == Choice(td.comment != "", TextSetting(NameAt(8), td.comment))
    ensures NameAt(6) == RETRY && NameAt(7) == BLOOM && NameAt(8) == COMMENT
  {
  }

  lemma {:induction false} TextOption(td: TableDetail, i: nat, text: string)
    requires i < 9 && Choices(td)[i] == Choice(text != "", TextSetting(NameAt(i), text))
    ensures TextRead(Settings(td), NameAt(i), text)
  {
    OneOption(td, i);
  }

  lemma {:induction false} BareOption(td: TableDetail, i: nat, text: string)
    requires i < 9 && Choices(td)[i] == Choice(text != "", NumberSetting(NameAt(i), text))
    ensures BareRead(Settings(td), NameAt(i), text)
  {
    OneOption(td, i);
  }

  lemma {:induction false} TextOptions(td: TableDetail)
    ensures TextRead(Settings(td), RETRY, td.speculativeRetry) && BareRead(Settings(td), BLOOM, td.bloomFilter)
    ensures TextRead(Settings(td), COMMENT, td.comment)
  {
    TextChoices(td);
    TextOption(td, 6, td.speculativeRetry);
    BareOption(td, 7, td.bloomFilter);
    TextOption(td, 8, td.comment);
  }

  lemma MapChoices(td: TableDetail)
    ensures Choices(td)[1] == Choice(td.compaction != map[], MapSetting(NameAt(1), SortedPairs(td.compaction)))
    ensures Choices(td)[2] == Choice(td.compression != map[], MapSetting(NameAt(2), SortedPairs(td.compression)))
    ensures Choices(td)[3] == Choice(td.caching != map[], MapSetting(NameAt(3), SortedPairs(td.caching)))
    ensures NameAt(1) == COMPACTION && NameAt(2) == COMPRESSION && NameAt(3) == CACHING
  {
  }

  lemma {:induction false} CompactionOption(td: TableDetail)
    ensures MapRead(Settings(td), COMPACTION, td.compaction)
  {
    MapChoices(td);
    MapOption(td, 1, td.compaction);
  }

  lemma {:induction false} CompressionOption(td: TableDetail)
    ensures MapRead(Settings(td), COMPRESSION, td.compression)
  {
    MapChoices(td);
    MapOption(td, 2, td.compression);
  }

  lemma {:induction false} CachingOption(td: TableDetail)
    ensures MapRead(Settings(td), CACHING, td.caching)
  {
    MapChoices(td);
    MapOption(td, 3, td.caching);
  }

  lemma {:induction false} NamesOnce(td: TableDetail)
    ensures NoNameTwice(Settings(td))
  {
    ChoicesDiffer(td);
    SettingsAreChosen(td);
    ChosenOnce(Choices(td));
  }

  lemma NumberChoices(td: TableDetail)
    ensures Choices(td)[4] == Choice(td.gcGraceSeconds > 0, NumberSetting(NameAt(4), Decimal(Positive(td.gcGraceSeconds))))
    ensures Choices(td)[5] == Choice(td.defaultTTL > 0, NumberSetting(NameAt(5), Decimal(Positive(td.defaultTTL))))
    ensures NameAt(4) == GC_GRACE && NameAt(5) == TTL
  {
  }

  lemma {:induction false} GcOption(td: TableDetail)
    ensures NumberRead(Settings(td), GC_GRACE, td.gcGraceSeconds)
  {
    NumberChoices(td);
    NumberOption(td, 4, td.gcGraceSeconds);
  }

  lemma {:induction false} TtlOption(td: TableDetail)
    ensures NumberRead(Settings(td), TTL, td.defaultTTL)
  {
    NumberChoices(td);
    NumberOption(td, 5, td.defaultTTL);
  }

  lemma Together(opts: seq<Setting>, td: TableDetail)
    requires NoNameTwice(opts) && (forall s :: s in opts ==> OptionName(s) in ALL_NAMES)
    requires OrdersRead(opts, ClusteringColumns(td))
    requires MapRead(opts, COMPACTION, td.compaction) && MapRead(opts, COMPRESSION, td.compression)
    requires MapRead(opts, CACHING, td.caching)
    requires NumberRead(opts, GC_GRACE, td.gcGraceSeconds) && NumberRead(opts, TTL, td.defaultTTL)
    requires TextRead(opts, RETRY, td.speculativeRetry) && BareRead(opts, BLOOM, td.bloomFilter)
    requires TextRead(opts, COMMENT, td.comment)
    ensures Carry(opts, td)
  {
  }

  lemma {:induction false} SettingsCarry(td: TableDetail)
    ensures Carry(Settings(td), td)
  {
    NamesOnce(td);
    OptionNamesKnown(td);
    OrderOption(td);
    CompactionOption(td);
    CompressionOption(td);
    CachingOption(td);
    GcOption(td);
    TtlOption(td);
    TextOptions(td);
    Together(Settings(td), td);
  }

  /** Whatever the table, its printed statement reads back with exactly its options. */
  lemma {:induction false} OptionsReadBack(td: TableDetail)
    requires PlainTable(td)
    ensures ReadTable(TableText(td)).Some? && Carry(ReadTable(TableText(td)).value.settings, td)
  {
    ReadsBack(td);
    SettingsCarry(td);
  }

  // ----- columns and key -----

  ghost predicate NamesRise(list: seq<Column>) {
    forall i, j :: 0 <= i < j < |list| ==> !NameOrder.Less(list[j].name, list[i].name)
  }

  /** The columns of a table as they are to be printed: the partition columns, the clustering columns, each by position,
      and the others by name, each as often as it is in the metadata. */
  ghost predicate InPrintOrder(pk: seq<Column>, ck: seq<Column>, others: seq<Column>, td: TableDetail) {
    && ListsKind(pk, td.columns, PartitionKey) && PositionsRise(pk)
    && ListsKind(ck, td.columns, Clustering) && PositionsRise(ck)
    && NamesRise(others) && multiset(pk + ck + others) == multiset(td.columns)
  }

  ghost predicate ReadsAs(read: seq<ColumnAst>, cols: seq<Column>) {
    |read| == |cols| && forall i :: 0 <= i < |cols| ==> read[i] == ColumnAst(cols[i].name, cols[i].cqlType, cols[i].kind == Static)
  }

  lemma {:induction false} AstsAre(cols: seq<Column>)
    ensures ReadsAs(AstOfColumns(cols), cols)
    decreases |cols|
  {
    if cols != [] {
      AstsAre(cols[1..]);
      forall i | 0 < i < |cols| ensures AstOfColumns(cols)[i] == AstOfColumns(cols[1..])[i - 1] && cols[i] == cols[1..][i - 1] {
      }
    }
  }

  lemma {:induction false} OthersByName(td: TableDetail)
    ensures NamesRise(NameOrder.Sort(Others(td.columns), Ddl.NameOf))
  {
    var list := NameOrder.Sort(Others(td.columns), Ddl.NameOf);
    NameOrder.SortIsStable(Others(td.columns), Ddl.NameOf, "");
    forall i, j | 0 <= i < j < |list| ensures !NameOrder.Less(list[j].name, list[i].name) {
      NameOrder.WeaklyAt(list, Ddl.NameOf, i, j);
    }
  }

  /** Whatever the table, its printed statement reads back with its names, exactly its columns with their types and static
      flags, and exactly the columns of its key, in order. */
  lemma {:induction false} HeadReadsBack(td: TableDetail) returns (pk: seq<Column>, ck: seq<Column>, others: seq<Column>)
    requires PlainTable(td)
    ensures InPrintOrder(pk, ck, others, td) && ReadTable(TableText(td)).Some?
    ensures var a := ReadTable(TableText(td)).value;
      && a.keyspace == td.keyspace && a.name == td.name && ReadsAs(a.columns, pk + ck + others)
      && a.partition == Names(pk) && a.clustering == Names(ck)
  {
    pk, ck := PartitionColumns(td), ClusteringColumns(td);
    others := NameOrder.Sort(Others(td.columns), Ddl.NameOf);
    ReadsBack(td);
    KindInOrder(td.columns, PartitionKey);
    KindInOrder(td.columns, Clustering);
    OthersByName(td);
    EveryColumnOnce(td);
    AstsAre(Ordered(td));
  }
}
