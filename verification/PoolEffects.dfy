/** What each operation of the session pool does to each connection, entry by entry (internal/cluster/manager.go). */
module PoolEffects {
  import opened Sequences
  import opened RecencyList
  import opened PoolView

  /** The connection is pooled in both, with the same session and time of use. */
  predicate Untouched(v: View, w: View, x: string) {
    && (x in v.used <==> x in w.used) && (x in v.used ==> w.used[x] == v.used[x])
    && (x in v.live <==> x in w.live) && (x in v.live ==> w.live[x] == v.live[x])
  }

  predicate Gone(w: View, x: string) {
    x !in w.used && x !in w.live
  }

  /** A Get evicts: the pool is full, the connection new, and the oldest entry not that of the empty ID. */
  predicate Evicts(v: View, cap: nat, id: string, victim: string) {
    id !in v.used && |v.mru| >= cap && victim != ""
  }

  // ----- one removal -----

  lemma {:induction false} RemovedExactly(v: View, id: string, x: string)
    requires Sound(v)
    ensures var w := Remove(v, id);
      && (if x == id then Gone(w, x) else Untouched(v, w, x))
      && w.closed == v.closed + (if id in v.live then [v.live[id]] else []) && w.created == v.created
  {
  }

  // ----- a Get -----

  lemma {:induction false} EnteredExactly(v: View, cap: nat, id: string, now: int, victim: string, x: string)
    requires Sound(v) && id !in v.used && (Evicts(v, cap, id, victim) ==> victim in v.used)
    ensures var w := EnteredFor(v, cap, id, now, victim);
      && id in w.used && id !in w.live && w.created == v.created
      && w.closed == v.closed + (if Evicts(v, cap, id, victim) then [v.live[victim]] else [])
      && (x != id ==> if Evicts(v, cap, id, victim) && x == victim then Gone(w, x) else Untouched(v, w, x))
  {
    if Evicts(v, cap, id, victim) {
      RemovedExactly(v, victim, x);
    }
  }

  lemma {:induction false} ServedExactly(v: View, id: string, ok: bool, now: int, x: string)
    requires id in v.used
    ensures var w := Served(v, id, ok, now);
      && (if id in v.live || ok
          then id in w.used && w.used[id] == now && id in w.live && w.live[id] == (if id in v.live then v.live[id] else v.created)
          else Gone(w, id))
      && w.created == v.created + (if id !in v.live && ok then 1 else 0) && w.closed == v.closed
      && (x != id ==> Untouched(v, w, x))
  {
  }

  /** A Get leaves every other connection as it is, except the one it evicts to make room, whose session is closed.  Its
      own is pooled afterwards, used just now, with the session it had or the next one, unless its connect failed. */
  lemma {:induction false} GotExactly(
    v: View, cap: nat, id: string, ok: bool, now: int, later: int, victim: string, x: string)
    requires Sound(v) && (Evicts(v, cap, id, victim) ==> victim in v.used)
    ensures var w := GotFor(v, cap, id, ok, now, later, victim);
      && (x != id ==> if Evicts(v, cap, id, victim) && x == victim then Gone(w, x) else Untouched(v, w, x))
      && (if id in v.used || ok
          then id in w.used && w.used[id] == later && id in w.live && w.live[id] == (if id in v.used then v.live[id] else v.created)
          else Gone(w, id))
      && w.closed == v.closed + (if Evicts(v, cap, id, victim) then [v.live[victim]] else [])
      && w.created == v.created + (if id !in v.used && ok then 1 else 0)
  {
    if id in v.used {
      ServedExactly(v, id, ok, later, x);
    } else {
      EnteredExactly(v, cap, id, now, victim, x);
      ServedExactly(EnteredFor(v, cap, id, now, victim), id, ok, later, x);
    }
  }

  // ----- a sweep -----

  lemma {:induction false} RemovedAllExactly(v: View, ids: seq<string>, x: string)
    requires Sound(v)
    ensures var w := RemoveAll(v, ids); if x in ids then Gone(w, x) else Untouched(v, w, x)
    ensures RemoveAll(v, ids).created == v.created
    decreases |ids|
  {
    if ids != [] {
      var front, last := ids[..|ids| - 1], ids[|ids| - 1];
      FrontLast(ids);
      RemoveAllSound(v, front);
      RemovedAllExactly(v, front, x);
      RemovedExactly(RemoveAll(v, front), last, x);
    }
  }

  lemma {:induction false} SweptSound(v: View, ids: seq<string>, s: nat)
    requires Sound(v)
    ensures s in RemoveAll(v, ids).closed <==> s in v.closed || exists x :: x in ids && x in v.live && v.live[x] == s
    decreases |ids|
  {
    if ids != [] {
      var front, last := ids[..|ids| - 1], ids[|ids| - 1];
      FrontLast(ids);
      RemoveAllSound(v, front);
      SweptSound(v, front, s);
      RemovedAllExactly(v, front, last);
      RemovedExactly(RemoveAll(v, front), last, last);
      assert last in ids && forall x :: x in front ==> x in ids;
    }
  }

  /** The reaper removes exactly the connections last used before the cutoff, leaves the others as they are, and closes
      exactly the sessions of those it removes. */
  lemma {:induction false} SweptExactly(
    v: View, w: View, gone: seq<string>, cutoff: int, cap: nat, now: int, x: string, s: nat)
    requires Sound(v) && Swept(v, w, gone, cutoff, cap, now)
    ensures if x in v.used && v.used[x] < cutoff then Gone(w, x) else Untouched(v, w, x)
    ensures s in w.closed <==> s in v.closed || exists y :: y in v.live && v.used[y] < cutoff && v.live[y] == s
    ensures w.created == v.created
  {
    RemovedAllExactly(v, gone, x);
    SweptSound(v, gone, s);
  }
}
