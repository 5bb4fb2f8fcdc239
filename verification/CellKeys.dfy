/** The keys under which web/src/components/table-data.tsx remembers edited cells: `row:column`. */
module CellKeys {
  import opened Sequences
  import opened Texts

  function Key(r: nat, column: string): string {
    Decimal(r) + ":" + column
  }

  /** The part before the first colon. */
  function Before(s: string): (r: string)
    ensures |r| <= |s| && ':' !in r
  {
    if s == "" || s[0] == ':' then "" else [s[0]] + Before(s[1..])
  }

  /** What split(":") yields first and second. */
  function Decode(key: string): (nat, string) {
    var row := Before(key);
    (Number(row), if |row| < |key| then Before(key[|row| + 1..]) else "")
  }

  lemma {:induction false} BeforeColon(a: string, rest: string)
    requires ':' !in a
    ensures Before(a + ":" + rest) == a
  {
    var all := a + ":" + rest;
    if a == "" {
      assert all == ":" + rest;
    } else {
      assert all[1..] == a[1..] + ":" + rest;
      assert a[0] in a && forall c :: c in a[1..] ==> c in a;
      BeforeColon(a[1..], rest);
    }
  }

  lemma {:induction false} BeforeWhole(s: string)
    ensures Before(s) == s <==> ':' !in s
  {
    if s != "" && s[0] != ':' {
      BeforeWhole(s[1..]);
      HeadTail(s);
      assert Before(s)[1..] == Before(s[1..]);
    }
  }

  /** A cell's key leads back to the cell exactly if there is no colon in the column's name. */
  lemma {:induction false} KeyRoundTrip(r: nat, column: string)
    ensures Decode(Key(r, column)).0 == r
    ensures Decode(Key(r, column)) == (r, column) <==> ':' !in column
  {
    NumberOfDecimal(r);
    BeforeColon(Decimal(r), column);
    assert Key(r, column)[|Decimal(r)| + 1..] == column;
    BeforeWhole(column);
  }

  /** The key of a cell in the column `a:b` leads to the column `a`. */
  lemma ColonMisleads()
    ensures Decode(Key(0, "a:b")) == (0, "a")
  {
    KeyRoundTrip(0, "a:b");
    BeforeColon(Decimal(0), "a:b");
    assert Key(0, "a:b")[|Decimal(0)| + 1..] == "a:b" == "a" + ":" + "b";
    BeforeColon("a", "b");
  }
}
