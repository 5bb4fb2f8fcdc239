/** Table metadata (internal/schema/dto.go): the columns of a kind, by position. */
module TableSchema {
  import opened Sequences

  datatype ColumnKind = PartitionKey | Clustering | Regular | Static

  datatype Column = Column(name: string, cqlType: string, kind: ColumnKind, position: int, clusteringOrder: string)

  datatype TableDetail = TableDetail(keyspace: string, name: string, columns: seq<Column>,
                                     comment: string, defaultTTL: int, gcGraceSeconds: int,
                                     caching: map<string, string>, compaction: map<string, string>,
                                     compression: map<string, string>, bloomFilter: string, speculativeRetry: string)

  function Names(cols: seq<Column>): (r: seq<string>)
    ensures |r| == |cols|
  {
    seq(|cols|, i requires 0 <= i < |cols| => cols[i].name)
  }

  lemma NamesHead(cols: seq<Column>)
    requires cols != []
    ensures Names(cols) == [cols[0].name] + Names(cols[1..])
  {
  }

  /** The columns of a kind in the order given. */
  function OfKind(cols: seq<Column>, kind: ColumnKind): seq<Column> {
    if cols == [] then []
    else
      var last := cols[|cols| - 1];
      OfKind(cols[..|cols| - 1], kind) + (if last.kind == kind then [last] else [])
  }

  /** `c` goes after every column whose position is not greater. */
  function Insert(s: seq<Column>, c: Column): (r: seq<Column>)
    ensures |r| == |s| + 1
  {
    if s == [] || s[|s| - 1].position <= c.position then s + [c]
    else Insert(s[..|s| - 1], c) + [s[|s| - 1]]
  }

  function ByPosition(s: seq<Column>): (r: seq<Column>)
    ensures |r| == |s|
  {
    if s == [] then [] else Insert(ByPosition(s[..|s| - 1]), s[|s| - 1])
  }

  function PartitionColumns(td: TableDetail): seq<Column> {
    ByPosition(OfKind(td.columns, PartitionKey))
  }

  function ClusteringColumns(td: TableDetail): seq<Column> {
    ByPosition(OfKind(td.columns, Clustering))
  }

  // ----- the code -----

  /** columnsOfKind: it filters, and then sorts what it has in place by swapping neighbours. */
  method ColumnsOfKind(cols: seq<Column>, kind: ColumnKind) returns (out: array<Column>)
    ensures fresh(out) && out[..] == ByPosition(OfKind(cols, kind))
  {
    var filtered := Filter(cols, kind);
    out := new Column[|filtered|](i requires 0 <= i < |filtered| => filtered[i]);
    assert out[..] == filtered;
    SortInPlace(out);
  }

  method Filter(cols: seq<Column>, kind: ColumnKind) returns (out: seq<Column>)
    ensures out == OfKind(cols, kind)
  {
    out := [];
    for i := 0 to |cols|
      invariant out == OfKind(cols[..i], kind)
    {
      assert cols[..i + 1][..i] == cols[..i];
      if cols[i].kind == kind {
        out := out + [cols[i]];
      }
    }
    assert cols[..|cols|] == cols;
  }

  method SortInPlace(out: array<Column>)
    modifies out
    ensures out[..] == ByPosition(old(out[..]))
  {
    ghost var was := out[..];
    assert was[..0] == [] && out[..0] == [];
    var i := 0;
    while i < out.Length
      invariant i <= out.Length && out[..i] == ByPosition(was[..i]) && out[i..] == was[i..]
    {
      SinkInPlace(out, i);
      assert was[..i + 1][..i] == was[..i] && was[i..][0] == was[i] && out[i + 1..] == was[i..][1..];
      i := i + 1;
    }
    assert out[..i] == out[..] && was[..i] == was;
  }

  // `c` put into the list at `j`.
  function With(s: seq<Column>, c: Column, j: nat): (r: seq<Column>)
    requires j <= |s|
    ensures |r| == |s| + 1 && r[j] == c && (j > 0 ==> r[j - 1] == s[j - 1])
  {
    s[..j] + [c] + s[j..]
  }

  lemma WithEarlier(s: seq<Column>, c: Column, j: nat)
    requires 0 < j <= |s|
    ensures With(s, c, j - 1) == With(s, c, j)[j - 1 := c][j := s[j - 1]]
  {
  }

  // The inner loop: the column at `i` sinks to its place among those before it.
  method SinkInPlace(out: array<Column>, i: nat)
    requires i < out.Length
    modifies out
    ensures out[..i + 1] == Insert(old(out[..i]), old(out[i])) && out[i + 1..] == old(out[i + 1..])
  {
    ghost var s, c, rest := out[..i], out[i], out[i + 1..];
    var j := i;
    assert out[..] == With(s, c, i) + rest;
    assert s[..i] == s && s[i..] == [];
    while j > 0 && out[j - 1].position > out[j].position
      invariant j <= i && |s| == i && out[..] == With(s, c, j) + rest
      invariant Insert(s, c) == Insert(s[..j], c) + s[j..]
    {
      assert out[..][j - 1] == s[j - 1] && out[..][j] == c;
      InsertEarlier(s, c, j);
      SwapDown(out, j, s, c, rest);
      j := j - 1;
    }
    assert out[..][j] == c && (j > 0 ==> out[..][j - 1] == s[j - 1]);
    Sunk(s, c, j, rest, out[..]);
    assert out[..i + 1] == out[..][..i + 1] && out[i + 1..] == out[..][i + 1..];
  }

  method SwapDown(out: array<Column>, j: nat, ghost s: seq<Column>, ghost c: Column, ghost rest: seq<Column>)
    requires 0 < j <= |s| && out[..] == With(s, c, j) + rest
    modifies out
    ensures out[..] == With(s, c, j - 1) + rest
  {
    ghost var was := out[..];
    WithEarlier(s, c, j);
    assert was[j - 1] == s[j - 1] && was[j] == c;
    out[j - 1], out[j] := out[j], out[j - 1];
    assert out[..] == was[j - 1 := c][j := s[j - 1]];
  }

  // The column stays where the one before it is not further on.
  lemma Sunk(s: seq<Column>, c: Column, j: nat, rest: seq<Column>, all: seq<Column>)
    requires j <= |s| && all == With(s, c, j) + rest && Insert(s, c) == Insert(s[..j], c) + s[j..]
    requires j > 0 ==> s[j - 1].position <= c.position
    ensures all[..|s| + 1] == Insert(s, c) && all[|s| + 1..] == rest
  {
    assert j > 0 ==> s[..j][j - 1] == s[j - 1];
    assert Insert(s[..j], c) == s[..j] + [c];
  }

  lemma InsertEarlier(s: seq<Column>, c: Column, j: nat)
    requires 0 < j <= |s| && s[j - 1].position > c.position && Insert(s, c) == Insert(s[..j], c) + s[j..]
    ensures Insert(s, c) == Insert(s[..j - 1], c) + s[j - 1..]
  {
    assert s[..j][..j - 1] == s[..j - 1] && s[j - 1..] == [s[j - 1]] + s[j..];
  }

  // ----- what the sort does -----

  /** The positions do not fall. */
  ghost predicate Sorted(s: seq<Column>) {
    s == [] || (Sorted(s[..|s| - 1]) && AtMost(s[..|s| - 1], s[|s| - 1].position))
  }

  ghost predicate AtMost(s: seq<Column>, position: int) {
    forall c :: c in s ==> c.position <= position
  }

  /** The columns at one position, in order. */
  function At(s: seq<Column>, position: int): seq<Column> {
    if s == [] then []
    else At(s[..|s| - 1], position) + (if s[|s| - 1].position == position then [s[|s| - 1]] else [])
  }

  lemma LastIn(s: seq<Column>, c: Column)
    requires s != []
    ensures c in s <==> c in s[..|s| - 1] || c == s[|s| - 1]
  {
    assert s == s[..|s| - 1] + [s[|s| - 1]];
  }

  lemma {:induction false} InsertHas(s: seq<Column>, c: Column, d: Column)
    ensures d in Insert(s, c) <==> d in s || d == c
  {
    if s != [] {
      InsertHas(s[..|s| - 1], c, d);
      LastIn(s, d);
    }
  }

  lemma AtSnoc(s: seq<Column>, c: Column, position: int)
    ensures At(s + [c], position) == At(s, position) + (if c.position == position then [c] else [])
  {
    assert (s + [c])[..|s|] == s;
  }

  lemma {:induction false} SortedSnoc(s: seq<Column>, c: Column)
    requires Sorted(s) && AtMost(s, c.position)
    ensures Sorted(s + [c])
  {
    assert (s + [c])[..|s|] == s;
  }

  lemma {:induction false} InsertSorted(s: seq<Column>, c: Column)
    requires Sorted(s)
    ensures Sorted(Insert(s, c))
  {
    if s == [] || s[|s| - 1].position <= c.position {
      forall d | d in s ensures d.position <= c.position { LastIn(s, d); }
      SortedSnoc(s, c);
    } else {
      var front, last := s[..|s| - 1], s[|s| - 1];
      InsertSorted(front, c);
      forall d | d in Insert(front, c) ensures d.position <= last.position { InsertHas(front, c, d); }
      SortedSnoc(Insert(front, c), last);
    }
  }

  // Columns past `position` have no part in it.
  lemma {:induction false} InsertAt(s: seq<Column>, c: Column, position: int)
    requires Sorted(s)
    ensures At(Insert(s, c), position) == At(s, position) + (if c.position == position then [c] else [])
  {
    if s == [] || s[|s| - 1].position <= c.position {
      AtSnoc(s, c, position);
    } else {
      var front, last := s[..|s| - 1], s[|s| - 1];
      InsertAt(front, c, position);
      AtSnoc(Insert(front, c), last, position);
    }
  }

  /** The sort is a stable one: positions rise, and columns at the same position keep their order. */
  lemma {:induction false} SortIsStable(s: seq<Column>, position: int)
    ensures Sorted(ByPosition(s)) && At(ByPosition(s), position) == At(s, position)
  {
    if s != [] {
      var front, last := s[..|s| - 1], s[|s| - 1];
      SortIsStable(front, position);
      InsertSorted(ByPosition(front), last);
      InsertAt(ByPosition(front), last, position);
    }
  }

  lemma {:induction false} InsertKeeps(s: seq<Column>, c: Column)
    ensures multiset(Insert(s, c)) == multiset(s) + multiset{c}
  {
    if s != [] && s[|s| - 1].position > c.position {
      InsertKeeps(s[..|s| - 1], c);
      assert s == s[..|s| - 1] + [s[|s| - 1]];
    }
  }

  /** And a permutation. */
  lemma {:induction false} SortKeeps(s: seq<Column>)
    ensures multiset(ByPosition(s)) == multiset(s)
  {
    if s != [] {
      SortKeeps(s[..|s| - 1]);
      InsertKeeps(ByPosition(s[..|s| - 1]), s[|s| - 1]);
      assert s == s[..|s| - 1] + [s[|s| - 1]];
    }
  }

  lemma {:induction false} SortHas(s: seq<Column>, c: Column)
    ensures c in ByPosition(s) <==> c in s
  {
    if s != [] {
      SortHas(s[..|s| - 1], c);
      InsertHas(ByPosition(s[..|s| - 1]), s[|s| - 1], c);
      LastIn(s, c);
    }
  }

  lemma {:induction false} OfKindHas(cols: seq<Column>, kind: ColumnKind, c: Column)
    ensures c in OfKind(cols, kind) <==> c in cols && c.kind == kind
  {
    if cols != [] {
      OfKindHas(cols[..|cols| - 1], kind, c);
      LastIn(cols, c);
    }
  }

  /** A column is among the sorted columns of its kind exactly if it is in the table. */
  lemma {:induction false} KindHas(cols: seq<Column>, kind: ColumnKind, c: Column)
    ensures c in ByPosition(OfKind(cols, kind)) <==> c in cols && c.kind == kind
  {
    SortHas(OfKind(cols, kind), c);
    OfKindHas(cols, kind, c);
  }

  lemma {:induction false} SortedAt(s: seq<Column>, i: nat, j: nat)
    requires Sorted(s) && i < j < |s|
    ensures s[i].position <= s[j].position
    decreases |s|
  {
    var front := s[..|s| - 1];
    assert front[i] == s[i] && front[i] in front;
    if j < |s| - 1 {
      assert front[j] == s[j];
      SortedAt(front, i, j);
    }
  }

  /** How often a column is in a list. */
  function Count(cols: seq<Column>, c: Column): nat {
    multiset(cols)[c]
  }

  lemma CountSnoc(front: seq<Column>, last: Column, c: Column)
    ensures Count(front + [last], c) == Count(front, c) + (if last == c then 1 else 0)
  {
  }

  lemma {:induction false} CountOfKind(front: seq<Column>, last: Column, kind: ColumnKind, c: Column)
    ensures Count(OfKind(front + [last], kind), c) == Count(OfKind(front, kind), c) + (if last == c && c.kind == kind then 1 else 0)
  {
    assert (front + [last])[..|front|] == front;
    CountSnoc(OfKind(front, kind), last, c);
    assert OfKind(front, kind) + [] == OfKind(front, kind);
  }

  /** The list is the columns of the kind, each as often as it is in the metadata. */
  ghost predicate ListsKind(list: seq<Column>, cols: seq<Column>, kind: ColumnKind) {
    forall c :: Count(list, c) == if c.kind == kind then Count(cols, c) else 0
  }

  ghost predicate PositionsRise(list: seq<Column>) {
    forall i, j :: 0 <= i < j < |list| ==> list[i].position <= list[j].position
  }

  lemma {:induction false} OfKindCount(cols: seq<Column>, kind: ColumnKind, c: Column)
    ensures Count(OfKind(cols, kind), c) == if c.kind == kind then Count(cols, c) else 0
  {
    if cols != [] {
      var front, last := cols[..|cols| - 1], cols[|cols| - 1];
      FrontLast(cols);
      OfKindCount(front, kind, c);
      CountOfKind(front, last, kind, c);
      CountSnoc(front, last, c);
    }
  }

  lemma {:induction false} KindListed(cols: seq<Column>, kind: ColumnKind)
    ensures ListsKind(ByPosition(OfKind(cols, kind)), cols, kind)
  {
    SortKeeps(OfKind(cols, kind));
    forall c ensures Count(ByPosition(OfKind(cols, kind)), c) == if c.kind == kind then Count(cols, c) else 0 {
      OfKindCount(cols, kind, c);
    }
  }

  lemma {:induction false} SortedRises(s: seq<Column>)
    requires Sorted(s)
    ensures PositionsRise(s)
  {
    forall i, j | 0 <= i < j < |s| ensures s[i].position <= s[j].position {
      SortedAt(s, i, j);
    }
  }

  /** The columns of a kind, by position: those of the metadata, each as often as there, and no others. */
  lemma {:induction false} KindInOrder(cols: seq<Column>, kind: ColumnKind)
    ensures ListsKind(ByPosition(OfKind(cols, kind)), cols, kind) && PositionsRise(ByPosition(OfKind(cols, kind)))
  {
    KindListed(cols, kind);
    SortIsStable(OfKind(cols, kind), 0);
    SortedRises(ByPosition(OfKind(cols, kind)));
  }

  // ----- the order of the columns in the metadata does not matter -----

  ghost predicate NoneAt(s: seq<Column>, position: int) {
    forall c :: c in s ==> c.position != position
  }

  ghost predicate DistinctPositions(s: seq<Column>) {
    s == [] || (DistinctPositions(s[..|s| - 1]) && NoneAt(s[..|s| - 1], s[|s| - 1].position))
  }

  /** The positions rise strictly. */
  ghost predicate Rising(s: seq<Column>) {
    s == [] || (Rising(s[..|s| - 1]) && forall c :: c in s[..|s| - 1] ==> c.position < s[|s| - 1].position)
  }

  lemma {:induction false} InsertRises(s: seq<Column>, c: Column)
    requires Rising(s) && NoneAt(s, c.position)
    ensures Rising(Insert(s, c))
  {
    if s == [] || s[|s| - 1].position <= c.position {
      forall d | d in s ensures d.position < c.position { LastIn(s, d); }
      assert (s + [c])[..|s|] == s;
    } else {
      var front, last := s[..|s| - 1], s[|s| - 1];
      assert last in s;
      InsertRises(front, c);
      var r := Insert(front, c);
      forall d | d in r ensures d.position < last.position { InsertHas(front, c, d); }
      assert (r + [last])[..|r|] == r;
    }
  }

  lemma {:induction false} SortRises(s: seq<Column>)
    requires DistinctPositions(s)
    ensures Rising(ByPosition(s))
  {
    if s != [] {
      var front, last := s[..|s| - 1], s[|s| - 1];
      SortRises(front);
      forall c | c in ByPosition(front) ensures c.position != last.position { SortHas(front, c); }
      InsertRises(ByPosition(front), last);
    }
  }

  ghost predicate SameColumns(s: seq<Column>, t: seq<Column>) {
    forall c :: c in s <==> c in t
  }

  lemma Inhabited(s: seq<Column>)
    ensures s != [] ==> s[0] in s
  {
  }

  lemma {:induction false} RisingUnique(s: seq<Column>, t: seq<Column>)
    requires Rising(s) && Rising(t) && SameColumns(s, t)
    ensures s == t
    decreases |s|
  {
    Inhabited(s);
    Inhabited(t);
    if s != [] && t != [] {
      var front, other, a, b := s[..|s| - 1], t[..|t| - 1], s[|s| - 1], t[|t| - 1];
      assert a in s && b in t;
      assert a in t && b in s;
      LastIn(t, a);
      LastIn(s, b);
      forall c ensures c in front <==> c in other {
        LastIn(s, c);
        LastIn(t, c);
      }
      RisingUnique(front, other);
      FrontLast(s);
      FrontLast(t);
    }
  }

  /** With distinct positions the key columns come out the same however the columns were listed. */
  lemma {:induction false} KindIsCanonical(cols: seq<Column>, others: seq<Column>, kind: ColumnKind)
    requires SameColumns(cols, others)
    requires DistinctPositions(OfKind(cols, kind)) && DistinctPositions(OfKind(others, kind))
    ensures ByPosition(OfKind(cols, kind)) == ByPosition(OfKind(others, kind))
  {
    SortRises(OfKind(cols, kind));
    SortRises(OfKind(others, kind));
    forall c ensures c in ByPosition(OfKind(cols, kind)) <==> c in ByPosition(OfKind(others, kind)) {
      KindHas(cols, kind, c);
      KindHas(others, kind, c);
    }
    RisingUnique(ByPosition(OfKind(cols, kind)), ByPosition(OfKind(others, kind)));
  }
}
