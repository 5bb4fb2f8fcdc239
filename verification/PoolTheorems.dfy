/** What holds in every reachable state of the session pool, and over every run. */
module PoolTheorems {
  import opened Sequences
  import opened Options
  import opened PoolSteps
  import opened PoolProofs

  lemma {:induction false} RunCoherent(cap: nat, ls: seq<Label>) returns (places: seq<Place>)
    ensures Coherent(Run(cap, ls), places)
    decreases |ls|
  {
    if ls == [] {
      places := [];
    } else {
      places := RunCoherent(cap, ls[..|ls| - 1]);
      places := StepCoherent(Run(cap, ls[..|ls| - 1]), places, cap, ls[|ls| - 1]);
    }
  }

  // ----- accounting -----

  /** The session's entry is in the map. */
  ghost predicate Pooled(st: State, s: nat) {
    s < |st.owner| && exists id :: id in st.pool && st.pool[id] == st.owner[s]
  }

  ghost predicate Closed(st: State, s: nat) {
    s in st.closed
  }

  /** A thread or the reaper has removed the session's entry and has still to close it. */
  ghost predicate AwaitingClose(st: State, s: nat) {
    s < |st.owner| && (
      || (exists t: nat :: PcOf(st, t) == Closing(st.owner[s]))
      || (st.reaper.Sweeping? && exists i: nat :: st.reaper.next <= i < |st.reaper.stale| && st.reaper.stale[i] == st.owner[s]))
  }

  /** Nobody holds the session any more, and it was not closed. */
  ghost predicate Orphaned(st: State, s: nat) {
    s < |st.owner| && !Pooled(st, s) && !Closed(st, s) && !AwaitingClose(st, s)
  }

  lemma {:induction false} PlaceTells(st: State, places: seq<Place>, s: nat)
    requires Coherent(st, places) && s < |st.owner|
    ensures st.owner[s] < |places|
    ensures Pooled(st, s) <==> places[st.owner[s]] == InPool
    ensures Closed(st, s) <==> places[st.owner[s]].ClosedAt?
    ensures AwaitingClose(st, s) <==> places[st.owner[s]].ByThread? || places[st.owner[s]].ByReaper?
    ensures Orphaned(st, s) <==> places[st.owner[s]] == Unseen
    ensures st.owner[s] in st.unseen <==> places[st.owner[s]] == Unseen
  {
    assert SessionOk(st, s);
    var e := st.owner[s];
    assert PlaceOf(st, e, places[e]);
    if t: nat :| PcOf(st, t) == Closing(e) {
      assert st.pcs[t].Closing?;
    }
    if places[e].ByThread? {
      assert PcOf(st, places[e].t) == Closing(e);
    }
    if s in st.closed {
      var i :| 0 <= i < |st.closed| && st.closed[i] == s;
      assert places[st.owner[st.closed[i]]] == ClosedAt(i);
    }
  }

  lemma {:induction false} ClosedOnce(st: State, places: seq<Place>, i: nat, j: nat)
    requires Coherent(st, places) && i < |st.closed| && j < |st.closed| && st.closed[i] == st.closed[j]
    ensures i == j
  {
    assert places[st.owner[st.closed[i]]] == ClosedAt(i);
    assert places[st.owner[st.closed[j]]] == ClosedAt(j);
  }

  /** At most one of pooled, closed and awaiting its Close holds of a session.  None holds exactly when the
      remover of its entry found no session, and then the entry was removed before its connect had ended. */
  lemma {:induction false} Accounting(cap: nat, ls: seq<Label>, s: nat)
    requires s < |Run(cap, ls).owner|
    ensures var st := Run(cap, ls);
      && (Pooled(st, s) ==> !Closed(st, s) && !AwaitingClose(st, s)) && (Closed(st, s) ==> !AwaitingClose(st, s))
      && (Orphaned(st, s) <==> st.owner[s] in st.unseen) && (Orphaned(st, s) ==> st.owner[s] in st.early)
  {
    var st := Run(cap, ls);
    var places := RunCoherent(cap, ls);
    PlaceTells(st, places, s);
    assert SessionOk(st, s);
    assert EntryOk(st, st.owner[s]) && HistoryOk(st, places, st.owner[s]);
  }

  /** No session is closed twice, and only sessions that were created are closed. */
  lemma {:induction false} NoDoubleClose(cap: nat, ls: seq<Label>)
    ensures var closed := Run(cap, ls).closed;
      && (forall i: nat, j: nat :: i < j < |closed| ==> closed[i] != closed[j])
      && (forall i: nat :: i < |closed| ==> closed[i] < |Run(cap, ls).owner|)
  {
    var st := Run(cap, ls);
    var places := RunCoherent(cap, ls);
    forall i: nat, j: nat | i < j < |st.closed|
      ensures st.closed[i] != st.closed[j]
    {
      if st.closed[i] == st.closed[j] {
        ClosedOnce(st, places, i, j);
      }
    }
  }

  // ----- what a step does to the map and the history -----

  ghost predicate InMap(st: State, e: nat) {
    exists id :: id in st.pool && st.pool[id] == e
  }

  // A step drops entries from the map and adds only entries that did not exist before.
  ghost predicate Grown(st: State, next: State) {
    && |st.entries| <= |next.entries|
    && (forall id :: id in next.pool ==> (id in st.pool && next.pool[id] == st.pool[id]) || next.pool[id] >= |st.entries|)
    && st.unseen <= next.unseen && st.owner <= next.owner && st.early <= next.early
  }

  lemma {:induction false} DiscardAllGrown(st: State, ids: seq<string>)
    ensures Grown(st, DiscardAll(st, ids))
    decreases |ids|
  {
    if ids != [] && ids[0] in st.pool && st.pool[ids[0]] < |st.entries| {
      DiscardAllGrown(Discard(st, ids[0]), ids[1..]);
    }
  }

  lemma {:induction false} PickAllGrown(st: State, ids: seq<string>)
    ensures Grown(st, PickAll(st, ids))
    decreases |ids|
  {
    if ids != [] && ids[0] in st.pool && st.pool[ids[0]] < |st.entries| {
      PickAllGrown(Pick(st, ids[0]), ids[1..]);
    }
  }

  lemma EnterGrown(st: State, cap: nat, t: nat, id: string, victim: string)
    ensures Grown(st, Enter(st, cap, t, id, victim))
  {
  }

  lemma ThreadGrown(st: State, cap: nat, l: Label)
    requires Enabled(st, cap, l) && !l.GetEnter? && !l.ReapPick? && !l.ShutSweep?
    ensures Grown(st, Do(st, cap, l))
  {
  }

  lemma {:induction false} StepGrown(st: State, cap: nat, l: Label)
    ensures Grown(st, Step(st, cap, l))
  {
    if Enabled(st, cap, l) {
      match l
      case GetEnter(t, id, victim) => EnterGrown(st, cap, t, id, victim);
      case ReapPick(ids) => PickAllGrown(st, ids);
      case ShutSweep(_, ids) => DiscardAllGrown(st, ids);
      case _ => ThreadGrown(st, cap, l);
    }
  }

  lemma GrownTwice(a: State, b: State, c: State)
    requires Grown(a, b) && Grown(b, c)
    ensures Grown(a, c)
  {
  }

  lemma {:induction false} RunGrown(cap: nat, ls: seq<Label>, more: seq<Label>)
    ensures Grown(Run(cap, ls), Run(cap, ls + more))
    decreases |more|
  {
    if more == [] {
      assert ls + more == ls;
    } else {
      var rest, all := more[..|more| - 1], ls + more;
      RunGrown(cap, ls, rest);
      ConcatFront(ls, more);
      var last := Run(cap, ls + rest);
      StepGrown(last, cap, all[|all| - 1]);
      GrownTwice(Run(cap, ls), last, Step(last, cap, all[|all| - 1]));
    }
  }

  /** An entry that was removed from the map is never in it again. */
  lemma {:induction false} NeverReinserted(cap: nat, ls: seq<Label>, more: seq<Label>, e: nat)
    requires e < |Run(cap, ls).entries| && !InMap(Run(cap, ls), e)
    ensures !InMap(Run(cap, ls + more), e)
  {
    RunGrown(cap, ls, more);
  }

  /** An orphaned session stays one: nothing that happens later closes it. */
  lemma {:induction false} OrphanedForever(cap: nat, ls: seq<Label>, more: seq<Label>, s: nat)
    requires s < |Run(cap, ls).owner| && Orphaned(Run(cap, ls), s)
    ensures Orphaned(Run(cap, ls + more), s)
  {
    RunGrown(cap, ls, more);
    Accounting(cap, ls, s);
    Accounting(cap, ls + more, s);
    assert Run(cap, ls + more).owner[s] == Run(cap, ls).owner[s];
  }

  /** Each key maps to an entry made for it whose session is not closed, the connect of every entry runs at most once,
      and an entry has a session, its own, exactly when that run has ended well. */
  lemma {:induction false} EntriesSound(cap: nat, ls: seq<Label>)
    ensures var st := Run(cap, ls);
      && (forall id :: id in st.pool ==> st.pool[id] < |st.entries| && st.entries[st.pool[id]].connID == id)
      && (forall id, s :: id in st.pool && st.entries[st.pool[id]].session == Some(s) ==> !Closed(st, s))
      && (forall e: nat :: e < |st.entries| ==> st.entries[e].calls <= 1)
      && (forall e: nat :: e < |st.entries| ==>
        (st.entries[e].session.Some? <==> st.entries[e].once == Done && !st.entries[e].failed))
      && (forall s: nat, r: nat :: s < r < |st.owner| ==> st.owner[s] != st.owner[r])
  {
    var st := Run(cap, ls);
    var places := RunCoherent(cap, ls);
    forall e: nat | e < |st.entries|
      ensures st.entries[e].calls <= 1
      ensures st.entries[e].session.Some? <==> st.entries[e].once == Done && !st.entries[e].failed
    {
      assert EntryOk(st, e);
    }
    forall s: nat, r: nat | s < r < |st.owner|
      ensures st.owner[s] != st.owner[r]
    {
      assert SessionOk(st, s) && SessionOk(st, r);
    }
    forall id, s | id in st.pool && st.entries[st.pool[id]].session == Some(s)
      ensures !Closed(st, s)
    {
      PooledIsOpen(st, places, id, s);
    }
  }

  lemma {:induction false} PooledIsOpen(st: State, places: seq<Place>, id: string, s: nat)
    requires Coherent(st, places) && id in st.pool && st.entries[st.pool[id]].session == Some(s)
    ensures !Closed(st, s)
  {
    assert EntryOk(st, st.pool[id]);
    PlaceTells(st, places, s);
  }

  /** What a Get that succeeds returns. */
  function Returned(st: State, t: nat): Option<nat>
    requires PcOf(st, t).AfterOnce? && PcOf(st, t).entry < |st.entries|
  {
    st.entries[PcOf(st, t).entry].session
  }

  /** A Get that succeeds returns a session: the one that was created for the entry it looked up, which is an entry for
      the connection it was asked for. */
  lemma {:induction false} GetReturns(cap: nat, ls: seq<Label>, t: nat)
    requires Enabled(Run(cap, ls), cap, Return(t))
    ensures var st, pc := Run(cap, ls), PcOf(Run(cap, ls), t);
      && Returned(st, t).Some? && Returned(st, t).value < |st.owner| && st.owner[Returned(st, t).value] == pc.entry
      && st.entries[pc.entry].connID == pc.id
  {
    var places := RunCoherent(cap, ls);
    assert ThreadOk(Run(cap, ls), t);
    assert EntryOk(Run(cap, ls), PcOf(Run(cap, ls), t).entry);
  }

  // ----- early removal is what its name says -----

  /** Between two states of a run entry `e` left the map while its connect was still to end. */
  ghost predicate LeftEarly(cap: nat, ls: seq<Label>, i: nat, e: nat) {
    && i < |ls| && InMap(Run(cap, ls[..i]), e) && !InMap(Run(cap, ls[..i + 1]), e)
    && e < |Run(cap, ls[..i]).entries| && Run(cap, ls[..i]).entries[e].once != Done
  }

  lemma {:induction false} DiscardAllEarly(st: State, places: seq<Place>, ids: seq<string>, e: nat)
    requires Coherent(st, places) && Distinct(ids) && Elements(ids) <= st.pool.Keys
    requires e in DiscardAll(st, ids).early && e !in st.early
    ensures InMap(st, e) && e < |st.entries| && st.entries[e].once != Done && st.entries[e].connID in ids
    decreases |ids|
  {
    if ids != [] {
      DistinctTail(ids);
      assert ids[0] in st.pool.Keys;
      var moved := Discarded(st, places, ids[0]);
      if e !in Discard(st, ids[0]).early {
        DiscardAllEarly(Discard(st, ids[0]), moved, ids[1..], e);
      } else {
        assert e == st.pool[ids[0]];
      }
    }
  }

  lemma {:induction false} PickAllEarly(st: State, places: seq<Place>, ids: seq<string>)
    requires Coherent(st, places) && forall id :: id in ids ==> id in st.pool && st.entries[st.pool[id]].session.Some?
    ensures PickAll(st, ids).early == st.early
    decreases |ids|
  {
    if ids != [] && ids[0] in st.pool {
      assert EntryOk(st, st.pool[ids[0]]);
      PickAllSame(Pick(st, ids[0]), ids[1..], st);
    }
  }

  // The reaper picks only entries with a session, and their connect has ended.
  lemma {:induction false} PickAllSame(st: State, ids: seq<string>, start: State)
    requires st.entries == start.entries && (forall id :: id in st.pool ==> id in start.pool && st.pool[id] == start.pool[id])
    requires forall e: nat :: e < |start.entries| ==> EntryOk(start, e)
    requires forall id :: id in ids && id in start.pool && start.pool[id] < |start.entries| ==> start.entries[start.pool[id]].session.Some?
    ensures PickAll(st, ids).early == st.early
    decreases |ids|
  {
    if ids != [] && ids[0] in st.pool && st.pool[ids[0]] < |st.entries| {
      assert EntryOk(start, st.pool[ids[0]]);
      PickAllSame(Pick(st, ids[0]), ids[1..], start);
    }
  }

  lemma EnterEarly(st: State, places: seq<Place>, cap: nat, t: nat, id: string, victim: string, e: nat)
    requires Coherent(st, places) && e in Enter(st, cap, t, id, victim).early && e !in st.early
    ensures InMap(st, e) && e < |st.entries| && st.entries[e].once != Done && !InMap(Enter(st, cap, t, id, victim), e)
  {
    assert e == st.pool[victim];
  }

  lemma RemoveEarly(st: State, places: seq<Place>, t: nat, id: string, e: nat)
    requires Coherent(st, places) && e in RemoveFor(st, t, id).early && e !in st.early
    ensures InMap(st, e) && e < |st.entries| && st.entries[e].once != Done && !InMap(RemoveFor(st, t, id), e)
  {
    assert e == st.pool[id];
  }

  lemma OtherEarly(st: State, cap: nat, l: Label)
    requires Enabled(st, cap, l) && !l.GetEnter? && !l.ReapPick? && !l.ShutSweep? && !l.FailRemove? && !l.Invalidate?
    ensures Do(st, cap, l).early == st.early
  {
  }

  lemma {:induction false} StepEarly(st: State, places: seq<Place>, cap: nat, l: Label, e: nat)
    requires Coherent(st, places) && e in Step(st, cap, l).early && e !in st.early
    ensures InMap(st, e) && e < |st.entries| && st.entries[e].once != Done && !InMap(Step(st, cap, l), e)
  {
    match l
    case GetEnter(t, id, victim) => EnterEarly(st, places, cap, t, id, victim, e);
    case FailRemove(t) => RemoveEarly(st, places, t, PcOf(st, t).id, e);
    case Invalidate(t, id) => RemoveEarly(st, places, t, id, e);
    case ReapPick(ids) => PickAllEarly(st, places, ids);
    case ShutSweep(t, ids) =>
      assert Elements(ids) == st.pool.Keys;
      DiscardAllEarly(st, places, ids, e);
      var moved := Swept(st, places, t, ids);
    case _ => OtherEarly(st, cap, l);
  }

  /** The history variable `early` holds exactly what a run shows: entries that left the map before their
      connect had ended. */
  lemma {:induction false} EarlyIsEarly(cap: nat, ls: seq<Label>, e: nat) returns (i: nat)
    requires e in Run(cap, ls).early
    ensures LeftEarly(cap, ls, i, e)
    decreases |ls|
  {
    var last := |ls| - 1;
    var prefix := ls[..last];
    assert ls[..last + 1] == ls;
    if e in Run(cap, prefix).early {
      i := EarlyIsEarly(cap, prefix, e);
      assert prefix[..i] == ls[..i] && prefix[..i + 1] == ls[..i + 1];
    } else {
      var places := RunCoherent(cap, prefix);
      StepEarly(Run(cap, prefix), places, cap, ls[last], e);
      i := last;
    }
  }

  // ----- shutdown -----

  /** The lock region of Close leaves nothing in the map. */
  lemma {:induction false} CloseEmptiesPool(cap: nat, ls: seq<Label>, t: nat, ids: seq<string>)
    requires Enabled(Run(cap, ls), cap, ShutSweep(t, ids))
    ensures Run(cap, ls + [ShutSweep(t, ids)]).pool == map[]
  {
    var places := RunCoherent(cap, ls);
    var moved := Swept(Run(cap, ls), places, t, ids);
    assert (ls + [ShutSweep(t, ids)])[..|ls|] == ls;
  }

  /** Nothing is in the map and nobody has a removed entry left to close. */
  ghost predicate Quiet(st: State) {
    st.pool == map[] && (forall t: nat :: !PcOf(st, t).Closing?) && !st.reaper.Sweeping?
  }

  /** When the pool is empty and at rest, every session is closed, or it was created for an entry that was
      removed before the connect had ended. */
  lemma {:induction false} QuietMeansClosed(cap: nat, ls: seq<Label>, s: nat)
    requires Quiet(Run(cap, ls)) && s < |Run(cap, ls).owner|
    ensures Closed(Run(cap, ls), s) <==> Run(cap, ls).owner[s] !in Run(cap, ls).unseen
    ensures !Closed(Run(cap, ls), s) ==> Run(cap, ls).owner[s] in Run(cap, ls).early
  {
    Accounting(cap, ls, s);
  }

  lemma RunStep(cap: nat, ls: seq<Label>, l: Label, st: State)
    requires Run(cap, ls) == st
    ensures Run(cap, ls + [l]) == Step(st, cap, l)
  {
    assert (ls + [l])[..|ls|] == ls;
  }

  // A Get that is still connecting, after another thread has removed its entry and found nothing to close.
  const REMOVED_WHILE_CONNECTING :=
    State([Entry("a", Running(0), None, false, 1)], map[], [], [], map[0 := Connecting("a", 0), 1 := Idle], Waiting, false, {0}, {0})

  const CONNECTING :=
    State([Entry("a", Running(0), None, false, 1)], map["a" := 0], [], [], map[0 := Connecting("a", 0)], Waiting, false, {}, {})

  lemma GetConnecting()
    ensures Run(50, [GetEnter(0, "a", "")] + [OnceBegin(0)]) == CONNECTING
  {
    var l1 := [GetEnter(0, "a", "")];
    var entered := INITIAL.(
      entries := [Entry("a", Fresh, None, false, 0)], pool := map["a" := 0], pcs := map[0 := AtOnce("a", 0)]);
    RunStep(50, [], GetEnter(0, "a", ""), INITIAL);
    assert [] + l1 == l1;
    RunStep(50, l1, OnceBegin(0), entered);
  }

  const REMOVING :=
    State([Entry("a", Running(0), None, false, 1)], map[], [], [], map[0 := Connecting("a", 0), 1 := Closing(0)],
          Waiting, false, {0}, {})

  lemma RemovedEarly()
    ensures Run(50, [GetEnter(0, "a", "")] + [OnceBegin(0)] + [Invalidate(1, "a")]) == REMOVING
  {
    GetConnecting();
    RunStep(50, [GetEnter(0, "a", "")] + [OnceBegin(0)], Invalidate(1, "a"), CONNECTING);
    assert CONNECTING.pool - {"a"} == map[];
  }

  lemma NothingToClose(ls: seq<Label>)
    requires Run(50, ls) == REMOVING
    ensures Run(50, ls + [CloseRemoved(1)]) == REMOVED_WHILE_CONNECTING
  {
    RunStep(50, ls, CloseRemoved(1), REMOVING);
  }

  lemma RemovedWhileConnecting()
    ensures Run(50, [GetEnter(0, "a", "")] + [OnceBegin(0)] + [Invalidate(1, "a")] + [CloseRemoved(1)]) == REMOVED_WHILE_CONNECTING
  {
    RemovedEarly();
    NothingToClose([GetEnter(0, "a", "")] + [OnceBegin(0)] + [Invalidate(1, "a")]);
  }

  /** The program does lose a session: an Invalidate while the connect runs leaves it open for ever. */
  lemma SessionLost(ls: seq<Label>)
    requires ls == [GetEnter(0, "a", "")] + [OnceBegin(0)] + [Invalidate(1, "a")] + [CloseRemoved(1)]
    ensures Quiet(Run(50, ls + [OnceEnd(0, true)])) && Orphaned(Run(50, ls + [OnceEnd(0, true)]), 0)
  {
    RemovedWhileConnecting();
    RunStep(50, ls, OnceEnd(0, true), REMOVED_WHILE_CONNECTING);
  }

  // ----- the cap -----

  lemma DropSize(m: map<string, nat>, id: string)
    requires id in m
    ensures |m - {id}| == |m| - 1
  {
    assert (m - {id}).Keys == m.Keys - {id};
  }

  lemma SubsetSize(m: map<string, nat>, n: map<string, nat>)
    requires m.Keys <= n.Keys
    ensures |m| <= |n|
  {
    KeysSize(m.Keys, n.Keys);
  }

  lemma {:induction false} KeysSize(a: set<string>, b: set<string>)
    requires a <= b
    ensures |a| <= |b|
  {
    assert b == a + (b - a);
  }

  /** The map is not over the cap, and no key is empty. */
  ghost predicate WithinCap(st: State, cap: nat) {
    |st.pool| <= cap && "" !in st.pool
  }

  lemma EnterWithinCap(st: State, places: seq<Place>, cap: nat, t: nat, id: string, victim: string)
    requires Coherent(st, places) && WithinCap(st, cap) && cap > 0 && id != "" && Enabled(st, cap, GetEnter(t, id, victim))
    ensures WithinCap(Enter(st, cap, t, id, victim), cap)
  {
    if id !in st.pool && |st.pool| >= cap {
      DropSize(st.pool, victim);
    }
  }

  lemma OtherWithinCap(st: State, cap: nat, l: Label)
    requires WithinCap(st, cap) && !l.GetEnter?
    ensures WithinCap(Step(st, cap, l), cap)
  {
    var next := Step(st, cap, l);
    match l {
      case ReapPick(ids) => PickAllShrinks(st, ids);
      case ShutSweep(_, ids) => DiscardAllShrinks(st, ids);
      case _ => ThreadShrinks(st, cap, l);
    }
    SubsetSize(next.pool, st.pool);
  }

  lemma ThreadShrinks(st: State, cap: nat, l: Label)
    requires !l.GetEnter? && !l.ReapPick? && !l.ShutSweep?
    ensures Step(st, cap, l).pool.Keys <= st.pool.Keys
  {
  }

  lemma {:induction false} PickAllShrinks(st: State, ids: seq<string>)
    ensures PickAll(st, ids).pool.Keys <= st.pool.Keys
    decreases |ids|
  {
    if ids != [] && ids[0] in st.pool && st.pool[ids[0]] < |st.entries| {
      PickAllShrinks(Pick(st, ids[0]), ids[1..]);
    }
  }

  lemma {:induction false} DiscardAllShrinks(st: State, ids: seq<string>)
    ensures DiscardAll(st, ids).pool.Keys <= st.pool.Keys
    decreases |ids|
  {
    if ids != [] && ids[0] in st.pool && st.pool[ids[0]] < |st.entries| {
      DiscardAllShrinks(Discard(st, ids[0]), ids[1..]);
    }
  }

  predicate NamesAll(ls: seq<Label>) {
    forall l :: l in ls && l.GetEnter? ==> l.id != ""
  }

  /** In every run that never asks for the empty connection ID, the pool stays within its cap. */
  lemma {:induction false} CapHolds(cap: nat, ls: seq<Label>)
    requires cap > 0 && NamesAll(ls)
    ensures WithinCap(Run(cap, ls), cap)
    decreases |ls|
  {
    if ls != [] {
      var prefix, l := ls[..|ls| - 1], ls[|ls| - 1];
      CapHolds(cap, prefix);
      var st := Run(cap, prefix);
      if l.GetEnter? && Enabled(st, cap, l) {
        assert l in ls;
        var places := RunCoherent(cap, prefix);
        EnterWithinCap(st, places, cap, l.t, l.id, l.victim);
      } else if !l.GetEnter? {
        OtherWithinCap(st, cap, l);
      }
    }
  }
}
