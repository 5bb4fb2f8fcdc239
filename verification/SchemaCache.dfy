/** The schema cache (internal/schema/cache.go) and the keys under which internal/schema/service.go uses it. */
module SchemaCache {
  import opened Sequences
  import opened Options

  datatype Entry<+V> = Entry(value: V, expiresAt: int)

  // ----- the trace of a cache -----

  datatype Event<+V> = Set(key: string, value: V, at: int) | Invalidate(prefix: string)

  predicate StartsWith(key: string, prefix: string) {
    prefix <= key
  }

  /** What was last set under a key, and when, if nothing invalidated it since. */
  function Last<V>(trace: seq<Event<V>>, key: string): Option<(V, int)> {
    if trace == [] then None
    else match trace[|trace| - 1]
      case Set(k, v, at) => if k == key then Some((v, at)) else Last(trace[..|trace| - 1], key)
      case Invalidate(prefix) => if StartsWith(key, prefix) then None else Last(trace[..|trace| - 1], key)
  }

  /** What a read of the key must return. */
  function Visible<V>(trace: seq<Event<V>>, ttl: nat, key: string, now: int): Option<V> {
    match Last(trace, key)
    case None => None
    case Some(last) => if now <= last.1 + ttl then Some(last.0) else None
  }

  /** The event decides what is under the key from then on. */
  predicate Concerns<V>(e: Event<V>, key: string) {
    match e
    case Set(k, _, _) => k == key
    case Invalidate(prefix) => StartsWith(key, prefix)
  }

  /** The event at `i` is the last that concerns the key. */
  ghost predicate Decides<V>(trace: seq<Event<V>>, key: string, i: nat) {
    i < |trace| && Concerns(trace[i], key) && forall j :: i < j < |trace| ==> !Concerns(trace[j], key)
  }

  lemma DecidesSnoc<V>(front: seq<Event<V>>, e: Event<V>, key: string, i: nat)
    ensures Decides(front + [e], key, i) <==> if Concerns(e, key) then i == |front| else Decides(front, key, i)
  {
    var all := front + [e];
    assert all[|front|] == e && forall j :: 0 <= j < |front| ==> all[j] == front[j];
    if Decides(front, key, i) && !Concerns(e, key) {
      forall j | i < j < |all| ensures !Concerns(all[j], key) {
        assert j < |front| ==> !Concerns(front[j], key);
      }
    }
    if Decides(all, key, i) && i < |front| {
      assert !Concerns(all[|front|], key);
      forall j | i < j < |front| ensures !Concerns(front[j], key) {
        assert !Concerns(all[j], key);
      }
    }
  }

  /** A value was last set under a key at a time exactly if some event set it then and none since set the key again
      or invalidated a prefix of it. */
  lemma {:induction false} LastExactly<V>(trace: seq<Event<V>>, key: string, v: V, at: int)
    ensures Last(trace, key) == Some((v, at)) <==> exists i: nat :: Decides(trace, key, i) && trace[i] == Set(key, v, at)
    decreases |trace|
  {
    if trace != [] {
      var n: nat := |trace| - 1;
      var front := trace[..n];
      FrontLast(trace);
      LastExactly(front, key, v, at);
      forall i: nat ensures Decides(trace, key, i) <==> if Concerns(trace[n], key) then i == n else Decides(front, key, i) {
        DecidesSnoc(front, trace[n], key, i);
      }
      if Concerns(trace[n], key) {
        assert Decides(trace, key, n);
        if i: nat :| Decides(trace, key, i) && trace[i] == Set(key, v, at) {
          assert i == n;
        }
      } else {
        if i: nat :| Decides(front, key, i) && front[i] == Set(key, v, at) {
          assert Decides(trace, key, i);
        }
        if i: nat :| Decides(trace, key, i) && trace[i] == Set(key, v, at) {
          assert Decides(front, key, i);
        }
      }
    }
  }

  /** A read of a key returns a value exactly if it was the last set under the key, nothing invalidated it since, and it
      is no older than the cache's lifetime. */
  lemma {:induction false} VisibleExactly<V>(trace: seq<Event<V>>, ttl: nat, key: string, now: int, v: V)
    ensures Visible(trace, ttl, key, now) == Some(v) <==>
      exists i: nat :: Decides(trace, key, i) && trace[i].Set? && trace[i].key == key && trace[i].value == v && now - trace[i].at <= ttl
  {
    if Visible(trace, ttl, key, now) == Some(v) {
      LastExactly(trace, key, v, Last(trace, key).value.1);
    }
    if i: nat :| Decides(trace, key, i) && trace[i].Set? && trace[i].key == key && trace[i].value == v && now - trace[i].at <= ttl {
      assert trace[i] == Set(key, v, trace[i].at);
      LastExactly(trace, key, v, trace[i].at);
    }
  }

  // ----- the cache -----

  class TtlCache<V> {
    const ttl: nat
    var m: map<string, Entry<V>>
    ghost var trace: seq<Event<V>>

    /** At the time `now` the cache holds what the trace says; it may have forgotten what has expired. */
    ghost predicate Agrees(now: int)
      reads this
    {
      forall key :: Kept(key, now)
    }

    ghost predicate Kept(key: string, now: int)
      reads this
    {
      match Last(trace, key)
      case None => key !in m
      case Some(last) => if key in m then m[key] == Entry(last.0, last.1 + ttl) else last.1 + ttl < now
    }

    constructor (ttl: int, ghost now: int)
      ensures this.ttl == (if ttl <= 0 then 30_000_000_000 else ttl) && trace == [] && Agrees(now)
    {
      this.ttl := if ttl <= 0 then 30_000_000_000 else ttl;
      m := map[];
      trace := [];
    }

    // Time passes.
    lemma Later(now: int, later: int)
      requires Agrees(now) && now <= later
      ensures Agrees(later)
    {
      forall key ensures Kept(key, later) {
        assert Kept(key, now);
      }
    }

    /** A read returns what the trace makes visible, and leaves the trace as it is. */
    method Get(key: string, now: int, ghost before: int) returns (v: Option<V>)
      requires Agrees(before) && before <= now
      modifies this`m
      ensures Agrees(now) && v == Visible(trace, ttl, key, now)
    {
      assert Kept(key, before);
      forall k ensures Kept(k, now) {
        assert Kept(k, before);
      }
      if key !in m {
        return None;
      }
      if now > m[key].expiresAt {
        m := m - {key};
        forall k ensures Kept(k, now) {
          assert old(Kept(k, before));
        }
        return None;
      }
      return Some(m[key].value);
    }

    method Put(key: string, v: V, now: int, ghost before: int)
      requires Agrees(before) && before <= now
      modifies this
      ensures Agrees(now) && trace == old(trace) + [Set(key, v, now)]
    {
      m := m[key := Entry(v, now + ttl)];
      trace := trace + [Set(key, v, now)];
      assert trace[..|trace| - 1] == old(trace);
      forall k ensures Kept(k, now) {
        assert old(Kept(k, before));
      }
    }

    // The loop looks at the keys in whatever order, and deletes as it goes.
    method InvalidatePrefix(prefix: string, ghost now: int)
      requires Agrees(now)
      modifies this
      ensures Agrees(now) && trace == old(trace) + [Invalidate(prefix)]
    {
      var todo := m.Keys;
      while todo != {}
        invariant todo <= m.Keys <= old(m).Keys && trace == old(trace)
        invariant forall k :: k in m ==> m[k] == old(m)[k]
        invariant forall k :: k in old(m) && k !in m ==> StartsWith(k, prefix)
        invariant forall k :: k in m && k !in todo ==> !StartsWith(k, prefix)
        decreases todo
      {
        var k :| k in todo;
        if StartsWith(k, prefix) {
          m := m - {k};
        }
        todo := todo - {k};
      }
      trace := trace + [Invalidate(prefix)];
      assert trace[..|trace| - 1] == old(trace);
      forall k ensures Kept(k, now) {
        assert old(Kept(k, now));
      }
    }
  }

  // ----- the keys of a connection -----

  /** What is cached for a connection. */
  datatype Topic = ClusterInfo | Keyspaces | Tables(keyspace: string) | Table(keyspace: string, table: string) | Types(keyspace: string)

  function CacheKey(t: Topic, connID: string): string {
    match t
    case ClusterInfo => "cluster:" + connID
    case Keyspaces => "keyspaces:" + connID
    case Tables(ks) => "tables:" + connID + ":" + ks
    case Table(ks, tbl) => "table:" + connID + ":" + ks + ":" + tbl
    case Types(ks) => "types:" + connID + ":" + ks
  }

  function CachePrefixes(connID: string): seq<string> {
    ["cluster:" + connID, "keyspaces:" + connID, "tables:" + connID + ":", "table:" + connID + ":", "types:" + connID + ":"]
  }

  function Invalidations<V>(connID: string): seq<Event<V>> {
    var p := CachePrefixes(connID);
    [Invalidate(p[0]), Invalidate(p[1]), Invalidate(p[2]), Invalidate(p[3]), Invalidate(p[4])]
  }

  /** InvalidateConn drops the entry of this topic and connection too. */
  predicate Dropped(invalidated: string, t: Topic, connID: string) {
    exists i :: 0 <= i < 5 && StartsWith(CacheKey(t, connID), CachePrefixes(invalidated)[i])
  }

  lemma {:induction false} OthersStay<V>(trace: seq<Event<V>>, later: seq<Event<V>>, key: string)
    requires forall i :: 0 <= i < |later| ==> !Concerns(later[i], key)
    ensures Last(trace + later, key) == Last(trace, key)
    decreases |later|
  {
    if later == [] {
      assert trace + later == trace;
    } else {
      var n := |later| - 1;
      assert later == later[..n] + [later[n]];
      assert (trace + later)[..|trace + later| - 1] == trace + later[..n];
      OthersStay(trace, later[..n], key);
    }
  }

  lemma {:induction false} DroppedIsGone<V>(trace: seq<Event<V>>, later: seq<Event<V>>, key: string, i: nat)
    requires forall j :: 0 <= j < |later| ==> later[j].Invalidate?
    requires i < |later| && StartsWith(key, later[i].prefix)
    ensures Last(trace + later, key) == None
    decreases |later|
  {
    var n := |later| - 1;
    assert later == later[..n] + [later[n]];
    assert (trace + later)[..|trace + later| - 1] == trace + later[..n];
    if i < n {
      DroppedIsGone(trace, later[..n], key, i);
    }
  }

  /** After InvalidateConn no key of a dropped entry is visible, and every other key is as it was. */
  lemma {:induction false} InvalidationDrops<V>(trace: seq<Event<V>>, invalidated: string, t: Topic, connID: string)
    ensures var key := CacheKey(t, connID);
      Last(trace + Invalidations(invalidated), key) == if Dropped(invalidated, t, connID) then None else Last(trace, key)
  {
    var key, later := CacheKey(t, connID), Invalidations<V>(invalidated);
    if Dropped(invalidated, t, connID) {
      var i :| 0 <= i < 5 && StartsWith(key, CachePrefixes(invalidated)[i]);
      DroppedIsGone(trace, later, key, i);
    } else {
      forall i | 0 <= i < |later| ensures !Concerns(later[i], key) {
        assert later[i].prefix == CachePrefixes(invalidated)[i];
      }
      OthersStay(trace, later, key);
    }
  }

  lemma SameHead(head: string, a: string, b: string)
    ensures head + a <= head + b <==> a <= b
  {
    if head + a <= head + b {
      assert (head + a)[|head|..] == a && (head + b)[|head|..|head + a|] == b[..|a|];
      assert (head + b)[..|head + a|] == head + a;
      forall i | 0 <= i < |a| ensures a[i] == b[i] {
        assert (head + a)[|head| + i] == (head + b)[|head| + i];
      }
    }
  }

  lemma OtherHead(head: string, a: string, other: string, b: string, i: nat)
    requires i < |head| && i < |other| && head[i] != other[i]
    ensures !(head + a <= other + b)
  {
    assert (head + a)[i] == head[i] && (other + b)[i] == other[i];
  }

  function Head(i: nat): string
    requires i < 5
  {
    ["cluster:", "keyspaces:", "tables:", "table:", "types:"][i]
  }

  function HeadOf(t: Topic): nat {
    match t
    case ClusterInfo => 0
    case Keyspaces => 1
    case Tables(_) => 2
    case Table(_, _) => 3
    case Types(_) => 4
  }

  /** The key without its head. */
  function Body(t: Topic, connID: string): string {
    match t
    case ClusterInfo => connID
    case Keyspaces => connID
    case Tables(ks) => connID + ":" + ks
    case Table(ks, tbl) => connID + ":" + ks + ":" + tbl
    case Types(ks) => connID + ":" + ks
  }

  lemma KeyIsHeadAndBody(t: Topic, connID: string)
    ensures HeadOf(t) < 5 && CacheKey(t, connID) == Head(HeadOf(t)) + Body(t, connID)
  {
    match t {
      case ClusterInfo =>
      case Keyspaces =>
      case Tables(ks) => assert "tables:" + connID + ":" + ks == "tables:" + (connID + ":" + ks);
      case Table(ks, tbl) => assert "table:" + connID + ":" + ks + ":" + tbl == "table:" + (connID + ":" + ks + ":" + tbl);
      case Types(ks) => assert "types:" + connID + ":" + ks == "types:" + (connID + ":" + ks);
    }
  }

  function PrefixBody(i: nat, connID: string): string {
    if i < 2 then connID else connID + ":"
  }

  lemma PrefixIsHeadAndBody(i: nat, connID: string)
    requires i < 5
    ensures CachePrefixes(connID)[i] == Head(i) + PrefixBody(i, connID)
  {
    if i == 2 {
      assert "tables:" + connID + ":" == "tables:" + (connID + ":");
    } else if i == 3 {
      assert "table:" + connID + ":" == "table:" + (connID + ":");
    } else if i == 4 {
      assert "types:" + connID + ":" == "types:" + (connID + ":");
    }
  }

  // The heads all differ before the first of them ends.
  lemma HeadsDiffer(i: nat, j: nat) returns (at: nat)
    requires i < 5 && j < 5 && i != j
    ensures at < |Head(i)| && at < |Head(j)| && Head(i)[at] != Head(j)[at]
  {
    at := if {i, j} == {2, 3} then 5 else if i >= 2 && j >= 2 then 1 else 0;
    assert {i, j} == {2, 3} <==> (i == 2 && j == 3) || (i == 3 && j == 2) by {
      assert i in {i, j} && j in {i, j};
    }
  }

  /** Only the prefix of the key's own kind matters. */
  lemma {:induction false} OwnPrefix(invalidated: string, t: Topic, connID: string)
    ensures Dropped(invalidated, t, connID) <==> PrefixBody(HeadOf(t), invalidated) <= Body(t, connID)
  {
    var n, key := HeadOf(t), CacheKey(t, connID);
    KeyIsHeadAndBody(t, connID);
    forall i | 0 <= i < 5
      ensures StartsWith(key, CachePrefixes(invalidated)[i]) <==> i == n && PrefixBody(n, invalidated) <= Body(t, connID)
    {
      PrefixIsHeadAndBody(i, invalidated);
      if i == n {
        SameHead(Head(n), PrefixBody(n, invalidated), Body(t, connID));
      } else {
        var at := HeadsDiffer(i, n);
        OtherHead(Head(i), PrefixBody(i, invalidated), Head(n), Body(t, connID), at);
      }
    }
    if PrefixBody(n, invalidated) <= Body(t, connID) {
      assert StartsWith(key, CachePrefixes(invalidated)[n]);
    }
  }

  lemma Leads(s: string, rest: string, all: string)
    requires all == s + rest
    ensures forall i :: 0 <= i < |s| ==> all[i] == s[i] && s[i] in s
  {
  }

  // With no colon in either, `id` and a colon lead another ID and a colon only if they are the same.
  lemma {:induction false} ColonPrefix(id: string, other: string, rest: string)
    requires ':' !in id && ':' !in other
    ensures id + ":" <= other + ":" + rest <==> id == other
  {
    var a, b := id + ":", other + ":" + rest;
    assert b == other + (":" + rest);
    if a <= b {
      assert forall i :: 0 <= i < |a| ==> a[i] == b[i];
      assert a[|id|] == ':' && b[|other|] == ':';
      Leads(id, ":", a);
      Leads(other, ":" + rest, b);
      assert |id| == |other|;
    }
  }

  /** Of a connection itself everything is dropped.  With colon-free IDs the keyspace-level entries of no other
      connection are, but the cluster and keyspace-list entries of one are if the invalidated ID is a proper prefix of
      its ID; among IDs of one length that cannot be. */
  lemma {:induction false} DropsExactly(invalidated: string, t: Topic, connID: string)
    requires ':' !in invalidated && ':' !in connID
    ensures Dropped(invalidated, t, connID) <==> if t.ClusterInfo? || t.Keyspaces? then invalidated <= connID else invalidated == connID
    ensures |invalidated| == |connID| ==> (Dropped(invalidated, t, connID) <==> invalidated == connID)
  {
    OwnPrefix(invalidated, t, connID);
    match t {
      case ClusterInfo =>
      case Keyspaces =>
      case Tables(ks) => ColonPrefix(invalidated, connID, ks);
      case Table(ks, tbl) =>
        assert connID + ":" + ks + ":" + tbl == connID + ":" + (ks + ":" + tbl);
        ColonPrefix(invalidated, connID, ks + ":" + tbl);
      case Types(ks) => ColonPrefix(invalidated, connID, ks);
    }
  }

  /** Invalidating the connection `a` drops the cluster entry of the connection `ab`. */
  lemma NeighbourDropped()
    ensures Dropped("a", ClusterInfo, "ab")
  {
    assert "a" <= "ab";
    DropsExactly("a", ClusterInfo, "ab");
  }

  /** Whatever its ID, a connection's own entries are all dropped. */
  lemma {:induction false} DropsOwn(t: Topic, connID: string)
    ensures Dropped(connID, t, connID)
  {
    OwnPrefix(connID, t, connID);
    match t {
      case ClusterInfo =>
      case Keyspaces =>
      case Tables(ks) =>
      case Table(ks, tbl) => assert connID + ":" + ks + ":" + tbl == connID + ":" + (ks + ":" + tbl);
      case Types(ks) =>
    }
  }

  // ----- no key stands for two things -----

  /** Two pairs of names that read alike with a colon between them. */
  ghost predicate SplitAlike(ks: string, tbl: string, other: string, more: string) {
    exists mid: string :: other == ks + ":" + mid && tbl == mid + ":" + more
  }

  lemma Cancel(head: string, a: string, b: string)
    ensures head + a == head + b <==> a == b
  {
    SameHead(head, a, b);
    SameHead(head, b, a);
  }

  // With colon-free IDs, the texts behind the first colon are compared.
  lemma {:induction false} BehindColon(id: string, rest: string, other: string, more: string)
    requires ':' !in id && ':' !in other
    ensures id + ":" + rest == other + ":" + more <==> id == other && rest == more
  {
    if id + ":" + rest == other + ":" + more {
      assert id + ":" <= other + ":" + more by {
        assert (id + ":" + rest)[..|id + ":"|] == id + ":";
      }
      ColonPrefix(id, other, more);
      Cancel(id + ":", rest, more);
    }
  }

  lemma LongerSplit(ks: string, tbl: string, other: string, more: string)
    requires ks + ":" + tbl == other + ":" + more && |ks| < |other|
    ensures SplitAlike(ks, tbl, other, more)
  {
    var all := ks + ":" + tbl;
    assert all[..|ks|] == ks && all[|ks|] == ':' && all[|ks| + 1..] == tbl;
    assert all[..|other|] == other && all[|other|] == ':' && all[|other| + 1..] == more;
    var mid := all[|ks| + 1..|other|];
    assert other == ks + ":" + mid;
    assert tbl == mid + ":" + more;
  }

  lemma {:induction false} SplitsExactly(ks: string, tbl: string, other: string, more: string)
    ensures ks + ":" + tbl == other + ":" + more
      <==> (ks == other && tbl == more) || SplitAlike(ks, tbl, other, more) || SplitAlike(other, more, ks, tbl)
  {
    if ks + ":" + tbl == other + ":" + more {
      if |ks| < |other| {
        LongerSplit(ks, tbl, other, more);
      } else if |other| < |ks| {
        LongerSplit(other, more, ks, tbl);
      } else {
        var all := ks + ":" + tbl;
        assert all[..|ks|] == ks == other && all[|ks| + 1..] == tbl == more;
      }
    }
    if mid :| other == ks + ":" + mid && tbl == mid + ":" + more {
      assert ks + ":" + tbl == other + ":" + more;
    }
    if mid :| ks == other + ":" + mid && more == mid + ":" + tbl {
      assert ks + ":" + tbl == other + ":" + more;
    }
  }

  lemma {:induction false} SameBody(t: Topic, a: string, u: Topic, b: string)
    ensures CacheKey(t, a) == CacheKey(u, b) <==> HeadOf(t) == HeadOf(u) && Body(t, a) == Body(u, b)
  {
    KeyIsHeadAndBody(t, a);
    KeyIsHeadAndBody(u, b);
    var i, j := HeadOf(t), HeadOf(u);
    if i == j {
      Cancel(Head(i), Body(t, a), Body(u, b));
    } else {
      var at := HeadsDiffer(i, j);
      OtherHead(Head(i), Body(t, a), Head(j), Body(u, b), at);
    }
  }

  /** With colon-free IDs two topics share a key exactly if they are the same topic of the same connection, or tables of
      the same connection whose names read alike with a colon between them. */
  lemma {:induction false} KeysExactly(t: Topic, a: string, u: Topic, b: string)
    requires ':' !in a && ':' !in b
    ensures CacheKey(t, a) == CacheKey(u, b) <==>
      a == b && (t == u || (t.Table? && u.Table?
        && (SplitAlike(t.keyspace, t.table, u.keyspace, u.table) || SplitAlike(u.keyspace, u.table, t.keyspace, t.table))))
  {
    SameBody(t, a, u, b);
    match (t, u) {
      case (Tables(ks), Tables(other)) => BehindColon(a, ks, b, other);
      case (Types(ks), Types(other)) => BehindColon(a, ks, b, other);
      case (Table(ks, tbl), Table(other, more)) =>
        assert a + ":" + ks + ":" + tbl == a + ":" + (ks + ":" + tbl);
        assert b + ":" + other + ":" + more == b + ":" + (other + ":" + more);
        BehindColon(a, ks + ":" + tbl, b, other + ":" + more);
        SplitsExactly(ks, tbl, other, more);
      case _ =>
    }
  }

  /** Without colons in the names of keyspaces no two topics share a key. */
  lemma {:induction false} KeysDiffer(t: Topic, u: Topic, id: string)
    requires ':' !in id && t != u && (t.Table? ==> ':' !in t.keyspace) && (u.Table? ==> ':' !in u.keyspace)
    ensures CacheKey(t, id) != CacheKey(u, id)
  {
    KeysExactly(t, id, u, id);
    if t.Table? && u.Table? {
      forall mid: string ensures u.keyspace != t.keyspace + ":" + mid && t.keyspace != u.keyspace + ":" + mid {
        Leads(t.keyspace + ":", mid, t.keyspace + ":" + mid);
        assert (t.keyspace + ":" + mid)[|t.keyspace|] == ':' && (u.keyspace + ":" + mid)[|u.keyspace|] == ':';
      }
    }
  }

  /** Two tables that are cached under one key. */
  lemma SharedKey(connID: string)
    ensures CacheKey(Table("a:b", "c"), connID) == CacheKey(Table("a", "b:c"), connID)
  {
    assert "a" + ":" + "b:c" == "a:b" + ":" + "c";
    assert "table:" + connID + ":" + "a:b" + ":" + "c" == "table:" + connID + ":" + ("a:b" + ":" + "c");
    assert "table:" + connID + ":" + "a" + ":" + "b:c" == "table:" + connID + ":" + ("a" + ":" + "b:c");
  }

  // ----- the service -----

  class SchemaService<V> {
    const cache: TtlCache<V>

    constructor (ghost now: int)
      ensures fresh(cache) && cache.ttl == 30_000_000_000 && cache.trace == [] && cache.Agrees(now)
    {
      var c := new TtlCache(30_000_000_000, now);
      cache := c;
    }

    /** The reads of ClusterInfo, Keyspaces, Tables, Table and Types: what is visible is returned; otherwise what the
        cluster answers, if it does, which is then cached. */
    method Fetch(t: Topic, connID: string, found: Option<V>, now: int, later: int, ghost before: int) returns (r: Option<V>)
      requires cache.Agrees(before) && before <= now <= later
      modifies cache
      ensures cache.Agrees(later)
      ensures var key := CacheKey(t, connID); var seen := Visible(old(cache.trace), cache.ttl, key, now);
        && r == (if seen.Some? then seen else found)
        && cache.trace == old(cache.trace) + (if seen.None? && found.Some? then [Set(key, found.value, later)] else [])
    {
      var key := CacheKey(t, connID);
      var hit := cache.Get(key, now, before);
      if hit.Some? || found.None? {
        cache.Later(now, later);
        assert cache.trace == old(cache.trace) + [];
        return if hit.Some? then hit else None;
      }
      cache.Put(key, found.value, later, now);
      return found;
    }

    method InvalidateConn(connID: string, ghost now: int)
      requires cache.Agrees(now)
      modifies cache
      ensures cache.Agrees(now) && cache.trace == old(cache.trace) + Invalidations(connID)
    {
      var prefixes := CachePrefixes(connID);
      ghost var before, all := cache.trace, Invalidations<V>(connID);
      assert before + all[..0] == before;
      for i := 0 to |prefixes|
        invariant cache.Agrees(now) && cache.trace == before + all[..i]
      {
        assert all[..i + 1] == all[..i] + [Invalidate(prefixes[i])];
        cache.InvalidatePrefix(prefixes[i], now);
        assert cache.trace == before + (all[..i] + [Invalidate(prefixes[i])]);
      }
      assert all[..|prefixes|] == all;
    }
  }
}
