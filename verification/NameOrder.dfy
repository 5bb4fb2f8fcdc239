/** Sorting by name, as sort.Strings and sort.SliceStable do: the result does not depend on the order given. */
module NameOrder {
  import opened Sequences

  /** The order of strings by character. */
  predicate Less(a: string, b: string) {
    b != "" && (a == "" || a[0] < b[0] || (a[0] == b[0] && Less(a[1..], b[1..])))
  }

  lemma {:induction false} LessIrreflexive(a: string)
    ensures !Less(a, a)
  {
    if a != "" {
      LessIrreflexive(a[1..]);
    }
  }

  lemma {:induction false} LessTransitive(a: string, b: string, c: string)
    requires Less(a, b) && Less(b, c)
    ensures Less(a, c)
  {
    if a != "" && a[0] == b[0] && b[0] == c[0] {
      LessTransitive(a[1..], b[1..], c[1..]);
    }
  }

  lemma {:induction false} LessTotal(a: string, b: string)
    requires a != b
    ensures Less(a, b) || Less(b, a)
  {
    if a != "" && b != "" && a[0] == b[0] {
      assert a == [a[0]] + a[1..] && b == [b[0]] + b[1..];
      LessTotal(a[1..], b[1..]);
    }
  }

  /** Every name in the list is less than `name`. */
  ghost predicate Below<T(!new)>(s: seq<T>, key: T -> string, name: string) {
    forall x :: x in s ==> Less(key(x), name)
  }

  /** The names rise strictly. */
  ghost predicate Rising<T(!new)>(s: seq<T>, key: T -> string) {
    s == [] || (Rising(s[..|s| - 1], key) && Below(s[..|s| - 1], key, key(s[|s| - 1])))
  }

  lemma {:induction false} RisingAt<T(!new)>(s: seq<T>, key: T -> string, i: nat, j: nat)
    requires Rising(s, key) && i < j < |s|
    ensures Less(key(s[i]), key(s[j]))
    decreases |s|
  {
    var front := s[..|s| - 1];
    assert front[i] == s[i] && front[i] in front;
    if j < |s| - 1 {
      assert front[j] == s[j];
      RisingAt(front, key, i, j);
    }
  }

  /** At `k` the strings differ for the first time, and there `a` ends or has the smaller character. */
  predicate DiffersAt(a: string, b: string, k: nat) {
    k <= |a| && k < |b| && a[..k] == b[..k] && (k < |a| ==> a[k] < b[k])
  }

  /** The order is that of dictionaries, by the codes of the characters. */
  lemma {:induction false} LessExactly(a: string, b: string)
    ensures Less(a, b) <==> exists k: nat :: DiffersAt(a, b, k)
    decreases |a|
  {
    if b == "" {
    } else if a == "" || a[0] < b[0] {
      assert DiffersAt(a, b, 0);
    } else if a[0] == b[0] {
      LessExactly(a[1..], b[1..]);
      if k: nat :| DiffersAt(a[1..], b[1..], k) {
        DiffersLater(a, b, k);
      }
      if k: nat :| DiffersAt(a, b, k) {
        DiffersEarlier(a, b, k);
      }
    } else {
      forall k: nat ensures !DiffersAt(a, b, k) {
        LargerHead(a, b, k);
      }
    }
  }

  lemma LargerHead(a: string, b: string, k: nat)
    requires a != "" && b != "" && a[0] > b[0]
    ensures !DiffersAt(a, b, k)
  {
    if 0 < k <= |a| && k < |b| {
      assert a[..k][0] == a[0] && b[..k][0] == b[0];
    }
  }

  lemma DiffersLater(a: string, b: string, k: nat)
    requires a != "" && b != "" && a[0] == b[0] && DiffersAt(a[1..], b[1..], k)
    ensures DiffersAt(a, b, k + 1)
  {
    assert a[..k + 1] == [a[0]] + a[1..][..k] && b[..k + 1] == [b[0]] + b[1..][..k];
  }

  lemma DiffersEarlier(a: string, b: string, k: nat)
    requires a != "" && b != "" && a[0] == b[0] && DiffersAt(a, b, k)
    ensures k > 0 && DiffersAt(a[1..], b[1..], k - 1)
  {
    if k > 0 {
      assert a[1..][..k - 1] == a[..k][1..] && b[1..][..k - 1] == b[..k][1..];
    }
  }

  /** `x` goes after every element whose name is not greater. */
  function Insert<T>(s: seq<T>, key: T -> string, x: T): seq<T> {
    if s == [] || !Less(key(x), key(s[|s| - 1])) then s + [x]
    else Insert(s[..|s| - 1], key, x) + [s[|s| - 1]]
  }

  /** A stable sort by name. */
  function Sort<T>(s: seq<T>, key: T -> string): seq<T> {
    if s == [] then [] else Insert(Sort(s[..|s| - 1], key), key, s[|s| - 1])
  }

  lemma LastIn<T>(s: seq<T>, x: T)
    requires s != []
    ensures x in s <==> x in s[..|s| - 1] || x == s[|s| - 1]
  {
    assert s == s[..|s| - 1] + [s[|s| - 1]];
  }

  lemma {:induction false} InsertHas<T>(s: seq<T>, key: T -> string, x: T, y: T)
    ensures y in Insert(s, key, x) <==> y in s || y == x
  {
    if s != [] {
      InsertHas(s[..|s| - 1], key, x, y);
      LastIn(s, y);
    }
  }

  lemma {:induction false} SortHas<T>(s: seq<T>, key: T -> string, y: T)
    ensures y in Sort(s, key) <==> y in s
  {
    if s != [] {
      SortHas(s[..|s| - 1], key, y);
      InsertHas(Sort(s[..|s| - 1], key), key, s[|s| - 1], y);
      LastIn(s, y);
    }
  }

  lemma {:induction false} InsertKeeps<T>(s: seq<T>, key: T -> string, x: T)
    ensures multiset(Insert(s, key, x)) == multiset(s) + multiset{x}
  {
    if s != [] && Less(key(x), key(s[|s| - 1])) {
      InsertKeeps(s[..|s| - 1], key, x);
      assert s == s[..|s| - 1] + [s[|s| - 1]];
    }
  }

  /** Sorting is a permutation. */
  lemma {:induction false} SortKeeps<T>(s: seq<T>, key: T -> string)
    ensures multiset(Sort(s, key)) == multiset(s)
  {
    if s != [] {
      SortKeeps(s[..|s| - 1], key);
      InsertKeeps(Sort(s[..|s| - 1], key), key, s[|s| - 1]);
      assert s == s[..|s| - 1] + [s[|s| - 1]];
    }
  }

  // A list that rises to below `name` can be followed by it.
  lemma {:induction false} RisingSnoc<T(!new)>(s: seq<T>, key: T -> string, x: T)
    requires Rising(s, key) && Below(s, key, key(x))
    ensures Rising(s + [x], key)
  {
    assert (s + [x])[..|s|] == s;
  }

  lemma {:induction false} BelowLater<T(!new)>(s: seq<T>, key: T -> string, name: string, later: string)
    requires Below(s, key, name) && Less(name, later)
    ensures Below(s, key, later)
  {
    forall x | x in s ensures Less(key(x), later) { LessTransitive(key(x), name, later); }
  }

  /** No element of the list has this name. */
  ghost predicate Fresh<T(!new)>(s: seq<T>, key: T -> string, name: string) {
    forall x :: x in s ==> key(x) != name
  }

  lemma {:induction false} InsertRises<T(!new)>(s: seq<T>, key: T -> string, x: T)
    requires Rising(s, key) && Fresh(s, key, key(x))
    ensures Rising(Insert(s, key, x), key)
  {
    if s == [] || !Less(key(x), key(s[|s| - 1])) {
      if s != [] {
        var front, last := s[..|s| - 1], s[|s| - 1];
        LessTotal(key(x), key(last));
        BelowLater(front, key, key(last), key(x));
        forall y | y in s ensures Less(key(y), key(x)) { LastIn(s, y); }
      }
      RisingSnoc(s, key, x);
    } else {
      var front, last := s[..|s| - 1], s[|s| - 1];
      InsertRises(front, key, x);
      forall y | y in Insert(front, key, x) ensures Less(key(y), key(last)) { InsertHas(front, key, x, y); }
      RisingSnoc(Insert(front, key, x), key, last);
    }
  }

  /** No two elements share a name. */
  ghost predicate DistinctNames<T(!new)>(s: seq<T>, key: T -> string) {
    s == [] || (DistinctNames(s[..|s| - 1], key) && Fresh(s[..|s| - 1], key, key(s[|s| - 1])))
  }

  /** Sorting by distinct names gives a strictly rising list of the same elements. */
  lemma {:induction false} SortRises<T(!new)>(s: seq<T>, key: T -> string)
    requires DistinctNames(s, key)
    ensures Rising(Sort(s, key), key) && forall x :: x in Sort(s, key) <==> x in s
  {
    if s != [] {
      var front, last := s[..|s| - 1], s[|s| - 1];
      SortRises(front, key);
      InsertRises(Sort(front, key), key, last);
      forall x ensures x in Sort(s, key) <==> x in s { SortHas(s, key, x); }
    }
  }

  // ----- also where names are shared -----

  ghost predicate NotAbove<T(!new)>(s: seq<T>, key: T -> string, name: string) {
    forall x :: x in s ==> !Less(name, key(x))
  }

  /** The names do not fall. */
  ghost predicate Weakly<T(!new)>(s: seq<T>, key: T -> string) {
    s == [] || (Weakly(s[..|s| - 1], key) && NotAbove(s[..|s| - 1], key, key(s[|s| - 1])))
  }

  /** The elements of one name, in order. */
  function Named<T>(s: seq<T>, key: T -> string, name: string): seq<T> {
    if s == [] then [] else Named(s[..|s| - 1], key, name) + (if key(s[|s| - 1]) == name then [s[|s| - 1]] else [])
  }

  lemma WeaklySnoc<T(!new)>(s: seq<T>, key: T -> string, x: T)
    requires Weakly(s, key) && NotAbove(s, key, key(x))
    ensures Weakly(s + [x], key)
  {
    assert (s + [x])[..|s|] == s;
  }

  lemma NamedSnoc<T>(s: seq<T>, key: T -> string, name: string, x: T)
    ensures Named(s + [x], key, name) == Named(s, key, name) + (if key(x) == name then [x] else [])
  {
    assert (s + [x])[..|s|] == s;
  }

  lemma NotBefore(a: string, b: string, c: string)
    requires !Less(b, a) && !Less(c, b)
    ensures !Less(c, a)
  {
    if Less(c, a) && b != c {
      LessTotal(b, c);
      LessTransitive(b, c, a);
    }
  }

  lemma {:induction false} InsertWeakly<T(!new)>(s: seq<T>, key: T -> string, x: T)
    requires Weakly(s, key)
    ensures Weakly(Insert(s, key, x), key)
  {
    if s == [] || !Less(key(x), key(s[|s| - 1])) {
      forall y | y in s ensures !Less(key(x), key(y)) {
        LastIn(s, y);
        if y in s[..|s| - 1] {
          NotBefore(key(y), key(s[|s| - 1]), key(x));
        }
      }
      WeaklySnoc(s, key, x);
    } else {
      var front, last := s[..|s| - 1], s[|s| - 1];
      InsertWeakly(front, key, x);
      forall y | y in Insert(front, key, x) ensures !Less(key(last), key(y)) {
        InsertHas(front, key, x, y);
        if y == x && Less(key(last), key(x)) {
          LessTransitive(key(last), key(x), key(last));
          LessIrreflexive(key(last));
        }
      }
      WeaklySnoc(Insert(front, key, x), key, last);
    }
  }

  lemma {:induction false} InsertNamed<T>(s: seq<T>, key: T -> string, x: T, name: string)
    ensures Named(Insert(s, key, x), key, name) == Named(s, key, name) + (if key(x) == name then [x] else [])
  {
    if s == [] || !Less(key(x), key(s[|s| - 1])) {
      NamedSnoc(s, key, name, x);
    } else {
      var front, last := s[..|s| - 1], s[|s| - 1];
      InsertNamed(front, key, x, name);
      NamedSnoc(Insert(front, key, x), key, name, last);
      LessIrreflexive(name);
    }
  }

  /** Sorting makes the names not fall, and keeps elements of one name in their order. */
  lemma {:induction false} SortIsStable<T(!new)>(s: seq<T>, key: T -> string, name: string)
    ensures Weakly(Sort(s, key), key) && Named(Sort(s, key), key, name) == Named(s, key, name)
  {
    if s != [] {
      SortIsStable(s[..|s| - 1], key, name);
      InsertWeakly(Sort(s[..|s| - 1], key), key, s[|s| - 1]);
      InsertNamed(Sort(s[..|s| - 1], key), key, s[|s| - 1], name);
    }
  }

  lemma {:induction false} WeaklyAt<T(!new)>(s: seq<T>, key: T -> string, i: nat, j: nat)
    requires Weakly(s, key) && i < j < |s|
    ensures !Less(key(s[j]), key(s[i]))
    decreases |s|
  {
    var front := s[..|s| - 1];
    assert front[i] == s[i] && front[i] in front;
    if j < |s| - 1 {
      assert front[j] == s[j];
      WeaklyAt(front, key, i, j);
    }
  }

  ghost predicate SameElements<T(!new)>(s: seq<T>, t: seq<T>) {
    forall x :: x in s <==> x in t
  }

  /** A strictly rising list is determined by its elements. */
  lemma {:induction false} RisingUnique<T(!new)>(s: seq<T>, t: seq<T>, key: T -> string)
    requires Rising(s, key) && Rising(t, key) && SameElements(s, t)
    ensures s == t
    decreases |s|
  {
    Inhabited(s);
    Inhabited(t);
    if s != [] && t != [] {
      var a, b := s[|s| - 1], t[|t| - 1];
      LastsEqual(s, t, key);
      var front, other := s[..|s| - 1], t[..|t| - 1];
      LessIrreflexive(key(a));
      forall x ensures x in front <==> x in other {
        LastIn(s, x);
        LastIn(t, x);
      }
      RisingUnique(front, other, key);
      FrontLast(s);
      FrontLast(t);
    }
  }

  lemma Inhabited<T>(t: seq<T>)
    ensures t != [] ==> t[0] in t
  {
  }

  lemma {:induction false} LastsEqual<T(!new)>(s: seq<T>, t: seq<T>, key: T -> string)
    requires s != [] && t != [] && Rising(s, key) && Rising(t, key) && SameElements(s, t)
    ensures s[|s| - 1] == t[|t| - 1]
  {
    var a, b := s[|s| - 1], t[|t| - 1];
    assert a in s && b in t;
    assert a in t && b in s;
    LastIn(t, a);
    LastIn(s, b);
    if a != b {
      LessTransitive(key(a), key(b), key(a));
      LessIrreflexive(key(a));
    }
  }

  // ----- the keys of a map -----

  function Self(name: string): string {
    name
  }

  /** The names in the set, sorted. */
  ghost function SortedSet(names: set<string>): seq<string> {
    if names == {} then []
    else var x :| x in names; Insert(SortedSet(names - {x}), Self, x)
  }

  lemma {:induction false} SortedSetRises(names: set<string>)
    ensures Rising(SortedSet(names), Self) && forall x :: x in SortedSet(names) <==> x in names
    decreases |names|
  {
    if names != {} {
      var x :| x in names && SortedSet(names) == Insert(SortedSet(names - {x}), Self, x);
      var rest := SortedSet(names - {x});
      SortedSetRises(names - {x});
      assert Fresh(rest, Self, x);
      InsertRises(rest, Self, x);
      forall y ensures y in SortedSet(names) <==> y in names { InsertHas(rest, Self, x, y); }
    }
  }

  /** sortedKeys and its like collect the keys in the order the map yields them, and then sort. */
  method SortedKeys<V>(m: map<string, V>) returns (out: seq<string>)
    ensures out == SortedSet(m.Keys)
  {
    out := [];
    var todo := m.Keys;
    while todo != {}
      invariant todo <= m.Keys && DistinctNames(out, Self)
      invariant forall x :: x in out <==> x in m.Keys && x !in todo
      decreases todo
    {
      var k :| k in todo;
      ghost var before := out;
      out := out + [k];
      assert out[..|out| - 1] == before && Fresh(before, Self, k);
      todo := todo - {k};
    }
    SortRises(out, Self);
    SortedSetRises(m.Keys);
    RisingUnique(Sort(out, Self), SortedSet(m.Keys), Self);
    out := Sort(out, Self);
  }
}
