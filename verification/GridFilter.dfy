/** The filter of web/src/components/table-data.tsx: which rows it shows, and which rows the handlers then take them for. */
module GridFilter {
  import opened CellKeys
  import opened GridEdits
  import Coercion

  // ----- what is shown -----

  predicate OccursAt(s: string, part: string, i: nat) {
    i + |part| <= |s| && s[i..i + |part|] == part
  }

  predicate Contains(s: string, part: string) {
    exists i: nat :: i <= |s| && OccursAt(s, part, i)
  }

  /** The texts of the cells of a row: the existing rows as loaded, then the new ones. */
  function RowTexts(page: Page, b: Buffer, r: nat): set<string>
    requires r < |page.rows| + |b.newRows|
  {
    if r < |page.rows| then set c | c in AllNames(page.columns) :: TextOf(CellAt(page, r, c))
    else b.newRows[r - |page.rows|].Values
  }

  /** Some cell contains the filter, in whatever way letters are lowered. */
  predicate Matches(texts: set<string>, filter: string, lower: string -> string) {
    exists t :: t in texts && Contains(lower(t), lower(filter))
  }

  /** Which rows are shown; the empty filter shows all. */
  function Keeps(page: Page, b: Buffer, filter: string, lower: string -> string): (r: seq<bool>)
    ensures |r| == |page.rows| + |b.newRows|
  {
    seq(|page.rows| + |b.newRows|, r requires 0 <= r < |page.rows| + |b.newRows| =>
      filter == "" || Matches(RowTexts(page, b, r), filter, lower))
  }

  /** The numbers of the rows kept, in the order shown. */
  function Kept(keeps: seq<bool>): (r: seq<nat>)
    ensures |r| <= |keeps| && forall k :: k in r ==> k < |keeps| && keeps[k]
  {
    if keeps == [] then []
    else Kept(keeps[..|keeps| - 1]) + (if keeps[|keeps| - 1] then [|keeps| - 1] else [])
  }

  predicate NoneHidden(keeps: seq<bool>, n: nat) {
    forall j :: 0 <= j < n && j < |keeps| ==> keeps[j]
  }

  lemma {:induction false} KeptCounts(keeps: seq<bool>)
    ensures |Kept(keeps)| == |keeps| <==> NoneHidden(keeps, |keeps|)
    decreases |keeps|
  {
    if keeps != [] {
      var n := |keeps| - 1;
      KeptCounts(keeps[..n]);
      assert forall j :: 0 <= j < n ==> keeps[..n][j] == keeps[j];
    }
  }

  lemma {:induction false} KeptAtLeast(keeps: seq<bool>, k: nat)
    requires k <= |keeps| && NoneHidden(keeps, k)
    ensures |Kept(keeps)| >= k
    decreases |keeps|
  {
    if k > 0 {
      var n := |keeps| - 1;
      KeptAtLeast(keeps[..n], if k == |keeps| then k - 1 else k);
    }
  }

  /** The i-th row shown is the i-th row exactly if the filter hides no row up to it. */
  lemma {:induction false} KeptAt(keeps: seq<bool>, i: nat)
    requires i < |Kept(keeps)|
    ensures Kept(keeps)[i] == i <==> NoneHidden(keeps, i + 1)
    decreases |keeps|
  {
    var n := |keeps| - 1;
    assert forall j :: 0 <= j < n ==> keeps[..n][j] == keeps[j];
    if i < |Kept(keeps[..n])| {
      KeptAt(keeps[..n], i);
    } else {
      KeptCounts(keeps[..n]);
      if i < n && NoneHidden(keeps, i + 1) {
        KeptAtLeast(keeps[..n], i + 1);
      }
    }
  }

  lemma {:induction false} KeptNotBefore(keeps: seq<bool>, i: nat)
    requires i < |Kept(keeps)|
    ensures i <= Kept(keeps)[i]
    decreases |keeps|
  {
    var n := |keeps| - 1;
    if i < |Kept(keeps[..n])| {
      KeptNotBefore(keeps[..n], i);
    }
  }

  // ----- what is edited -----

  /** An edit is the same in both rows, whatever the column and the text. */
  ghost predicate SameEdits(page: Page, b: Buffer, r: nat, k: nat) {
    forall c, v :: Changed(page, b, r, c, v) == Changed(page, b, k, c, v)
  }

  lemma KeysDiffer(r: nat, k: nat, c: string)
    requires r != k
    ensures Key(r, c) != Key(k, c)
  {
    KeyRoundTrip(r, c);
    KeyRoundTrip(k, c);
  }

  // A text that is neither of the two.
  function Other(a: string, b: string): (v: string)
    ensures v != a && v != b
  {
    seq(|a| + |b| + 1, _ => 'x')
  }

  lemma {:induction false} EditsDiffer(page: Page, b: Buffer, r: nat, k: nat, c: string) returns (v: string)
    requires r < k < |page.rows| + |b.newRows|
    ensures Changed(page, b, r, c, v) != Changed(page, b, k, c, v)
  {
    if r < |page.rows| {
      var key := Key(r, c);
      v := Other(TextOf(CellAt(page, r, c)), if key in b.dirty then b.dirty[key] else "");
      KeysDiffer(r, k, c);
      assert Changed(page, b, r, c, v).dirty[key] == v;
      var there := Changed(page, b, k, c, v).dirty;
      assert key in there ==> key in b.dirty && there[key] == b.dirty[key];
    } else {
      var ni, nk := r - |page.rows|, k - |page.rows|;
      var row := b.newRows[ni];
      v := Other(if c in row then row[c] else "", "");
      assert Changed(page, b, r, c, v).newRows[ni][c] == v;
      assert Changed(page, b, k, c, v).newRows[ni] == row;
    }
  }

  /** While a filter is on, the handlers take the i-th row shown for the i-th row of the table.  They do what was meant,
      for every column and text, exactly if the filter hides no row up to that one. */
  lemma {:induction false} FilterMisaddresses(page: Page, b: Buffer, filter: string, lower: string -> string, i: nat)
    requires i < |Kept(Keeps(page, b, filter, lower))|
    ensures var keeps := Keeps(page, b, filter, lower);
      SameEdits(page, b, i, Kept(keeps)[i]) <==> NoneHidden(keeps, i + 1)
  {
    var keeps := Keeps(page, b, filter, lower);
    var k := Kept(keeps)[i];
    KeptAt(keeps, i);
    KeptNotBefore(keeps, i);
    if i < k {
      assert k in Kept(keeps);
      var v := EditsDiffer(page, b, i, k, "");
    }
  }

  /** Without a filter they always do. */
  lemma {:induction false} NoFilterAddresses(page: Page, b: Buffer, lower: string -> string, i: nat)
    requires i < |page.rows| + |b.newRows|
    ensures var keeps := Keeps(page, b, "", lower); i < |Kept(keeps)| && Kept(keeps)[i] == i
  {
    var keeps := Keeps(page, b, "", lower);
    KeptCounts(keeps);
    KeptAt(keeps, i);
  }

  // ----- an edit of the wrong row -----

  function TwoRows(c: ColumnMeta): Page {
    Page([c], [[Cell(Coercion.Text("a"), "a")], [Cell(Coercion.Text("b"), "b")]])
  }

  lemma TwoRowsCells(c: ColumnMeta)
    ensures CellAt(TwoRows(c), 0, c.name).text == "a" && CellAt(TwoRows(c), 1, c.name).text == "b"
    ensures AllNames(TwoRows(c).columns) == {c.name}
  {
    assert [c][..0] == [];
  }

  lemma ContainsLetter(a: char, b: char)
    ensures Contains([a], [b]) <==> a == b
  {
    assert a == b ==> OccursAt([a], [b], 0);
    forall i: nat | OccursAt([a], [b], i) ensures a == b {
      assert [a][i..i + 1][0] == a;
    }
  }

  /** Of two rows the filter `b` shows the second; an edit of it is taken for one of the first, which is hidden. */
  lemma WrongRowEdited(c: ColumnMeta, lower: string -> string)
    requires lower("a") == "a" && lower("b") == "b"
    ensures var keeps := Keeps(TwoRows(c), CLEAN, "b", lower); Kept(keeps) == [1]
    ensures Changed(TwoRows(c), CLEAN, 0, c.name, "x").dirty == map[Key(0, c.name) := "x"]
  {
    var page := TwoRows(c);
    TwoRowsCells(c);
    assert RowTexts(page, CLEAN, 0) == {"a"} && RowTexts(page, CLEAN, 1) == {"b"};
    ContainsLetter('b', 'b');
    ContainsLetter('a', 'b');
    var keeps := Keeps(page, CLEAN, "b", lower);
    assert keeps == [false, true];
    assert keeps[..1] == [false] && [false][..0] == [];
  }
}
