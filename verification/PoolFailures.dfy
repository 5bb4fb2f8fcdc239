/** What puts entries into the map of the session pool and what takes them out, and what becomes of failed connects. */
module PoolFailures {
  import opened Sequences
  import opened Options
  import opened PoolSteps
  import opened PoolProofs
  import opened PoolTheorems

  // ----- the map, step by step -----

  /** The step takes the entry under `id` out of the map: a Get for another connection evicts it, a Get for it has
      failed, it is invalidated, it is idle, or the pool is closed. */
  ghost predicate Takes(st: State, cap: nat, l: Label, id: string) {
    Enabled(st, cap, l) &&
    match l
    case GetEnter(_, other, victim) => other !in st.pool && |st.pool| >= cap && victim == id != ""
    case FailRemove(t) => PcOf(st, t).id == id
    case Invalidate(_, other) => other == id
    case ReapPick(ids) => id in ids
    case ShutSweep(_, _) => true
    case _ => false
  }

  /** The step puts a new entry for `id` into the map. */
  ghost predicate Puts(st: State, cap: nat, l: Label, id: string) {
    Enabled(st, cap, l) && l.GetEnter? && l.id == id && id !in st.pool
  }

  ghost predicate Stays(st: State, next: State, id: string) {
    (id in st.pool <==> id in next.pool) && (id in st.pool ==> next.pool[id] == st.pool[id])
  }

  lemma {:induction false} PickAllTakes(st: State, ids: seq<string>, id: string)
    requires Distinct(ids) && forall x :: x in ids ==> x in st.pool && st.pool[x] < |st.entries|
    ensures var next := PickAll(st, ids); if id in ids then id !in next.pool else Stays(st, next, id)
    decreases |ids|
  {
    if ids != [] {
      DistinctTail(ids);
      HeadTail(ids);
      assert ids[0] in ids;
      forall x | x in ids[1..] ensures x != ids[0] {
        assert x in Elements(ids[1..]);
      }
      PickAllTakes(Pick(st, ids[0]), ids[1..], id);
    }
  }

  lemma EnterTakes(st: State, places: seq<Place>, cap: nat, t: nat, other: string, victim: string, id: string)
    requires Coherent(st, places) && Enabled(st, cap, GetEnter(t, other, victim)) && id != other
    ensures var next := Step(st, cap, GetEnter(t, other, victim));
      if Takes(st, cap, GetEnter(t, other, victim), id) && id in st.pool then id !in next.pool else Stays(st, next, id)
  {
  }

  lemma RemoveTakes(st: State, places: seq<Place>, t: nat, other: string, id: string)
    requires Coherent(st, places)
    ensures var next := RemoveFor(st, t, other); if other == id then id !in next.pool else Stays(st, next, id)
  {
  }

  lemma OtherTakes(st: State, cap: nat, l: Label, id: string)
    requires !l.GetEnter? && !l.FailRemove? && !l.Invalidate? && !l.ReapPick? && !l.ShutSweep?
    ensures Stays(st, Step(st, cap, l), id)
  {
  }

  /** Step by step: an entry leaves the map exactly by these steps, and comes into it exactly by a Get that finds none. */
  lemma {:induction false} MapExactly(st: State, places: seq<Place>, cap: nat, l: Label, id: string)
    requires Coherent(st, places)
    ensures var next := Step(st, cap, l);
      if Puts(st, cap, l, id) then id in next.pool && next.pool[id] == |st.entries| && next.entries[|st.entries|].once.Fresh?
      else if Takes(st, cap, l, id) then id !in next.pool
      else Stays(st, next, id)
  {
    if Enabled(st, cap, l) {
      match l {
        case GetEnter(t, other, victim) =>
          if id != other {
            EnterTakes(st, places, cap, t, other, victim, id);
          }
        case FailRemove(t) => RemoveTakes(st, places, t, PcOf(st, t).id, id);
        case Invalidate(t, other) => RemoveTakes(st, places, t, other, id);
        case ReapPick(ids) => PickAllTakes(st, ids, id);
        case ShutSweep(t, ids) => var moved := Swept(st, places, t, ids);
        case _ => OtherTakes(st, cap, l, id);
      }
    }
  }

  // ----- failed connects -----

  /** Some Get has still to deal with the failure of the entry under `id`. */
  ghost predicate Attended(st: State, id: string)
    requires id in st.pool
  {
    exists t: nat :: PcOf(st, t) == AfterOnce(id, st.pool[id])
  }

  ghost predicate Failed(st: State, id: string) {
    id in st.pool && st.pool[id] < |st.entries| && st.entries[st.pool[id]].failed
  }

  ghost predicate FailuresAttended(st: State) {
    forall id :: Failed(st, id) ==> Attended(st, id)
  }

  // A step does not make a connect fail but by ending it so.
  lemma {:induction false} FailedBefore(st: State, places: seq<Place>, cap: nat, l: Label, id: string)
    requires Coherent(st, places) && !l.OnceEnd? && Failed(Step(st, cap, l), id)
    ensures Failed(st, id) && Step(st, cap, l).pool[id] == st.pool[id] && !Takes(st, cap, l, id)
  {
    MapExactly(st, places, cap, l, id);
    match l {
      case ReapPick(ids) => PickAllEntries(st, ids);
      case ShutSweep(t, ids) => DiscardAllEntries(st, ids);
      case _ =>
    }
  }

  lemma {:induction false} PickAllEntries(st: State, ids: seq<string>)
    ensures PickAll(st, ids).entries == st.entries && PickAll(st, ids).pcs == st.pcs
    decreases |ids|
  {
    if ids != [] && ids[0] in st.pool && st.pool[ids[0]] < |st.entries| {
      PickAllEntries(Pick(st, ids[0]), ids[1..]);
    }
  }

  lemma {:induction false} DiscardAllEntries(st: State, ids: seq<string>)
    ensures DiscardAll(st, ids).entries == st.entries && DiscardAll(st, ids).pcs == st.pcs
    decreases |ids|
  {
    if ids != [] && ids[0] in st.pool && st.pool[ids[0]] < |st.entries| {
      DiscardAllEntries(Discard(st, ids[0]), ids[1..]);
    }
  }

  // A Get that has still to deal with a failure does not leave that state but by removing the entry.
  lemma {:induction false} StaysAfterOnce(st: State, cap: nat, l: Label, t: nat, id: string, e: nat)
    requires PcOf(st, t) == AfterOnce(id, e) && e < |st.entries| && st.entries[e].failed && !Takes(st, cap, l, id)
    ensures PcOf(Step(st, cap, l), t) == AfterOnce(id, e)
  {
    match l {
      case ReapPick(ids) => PickAllEntries(st, ids);
      case ShutSweep(_, ids) => DiscardAllEntries(st, ids);
      case _ =>
    }
  }

  lemma {:induction false} EndAttended(st: State, places: seq<Place>, cap: nat, l: Label, id: string)
    requires Coherent(st, places) && FailuresAttended(st) && l.OnceEnd? && Enabled(st, cap, l) && Failed(Step(st, cap, l), id)
    ensures Attended(Step(st, cap, l), id)
  {
    var next, e := Step(st, cap, l), st.pool[id];
    assert ThreadOk(st, l.t);
    assert PlaceOf(st, e, places[e]);
    if e == PcOf(st, l.t).entry {
      assert PcOf(next, l.t) == AfterOnce(id, e);
    } else {
      assert Failed(st, id);
      var t: nat :| PcOf(st, t) == AfterOnce(id, e);
      assert PcOf(next, t) == AfterOnce(id, e);
    }
  }

  lemma {:induction false} StepAttended(st: State, places: seq<Place>, cap: nat, l: Label, id: string)
    requires Coherent(st, places) && FailuresAttended(st) && Failed(Step(st, cap, l), id)
    ensures Attended(Step(st, cap, l), id)
  {
    if l.OnceEnd? && Enabled(st, cap, l) {
      EndAttended(st, places, cap, l, id);
    } else if Enabled(st, cap, l) {
      FailedBefore(st, places, cap, l, id);
      var t: nat :| PcOf(st, t) == AfterOnce(id, st.pool[id]);
      StaysAfterOnce(st, cap, l, t, id, st.pool[id]);
      assert PcOf(Step(st, cap, l), t) == AfterOnce(id, Step(st, cap, l).pool[id]);
    }
  }

  lemma {:induction false} RunAttended(cap: nat, ls: seq<Label>)
    ensures FailuresAttended(Run(cap, ls))
    decreases |ls|
  {
    if ls != [] {
      var prefix, l := ls[..|ls| - 1], ls[|ls| - 1];
      RunAttended(cap, prefix);
      var places := RunCoherent(cap, prefix);
      forall id | Failed(Run(cap, ls), id) ensures Attended(Run(cap, ls), id) {
        StepAttended(Run(cap, prefix), places, cap, l, id);
      }
    }
  }

  /** In every reachable state an entry in the map whose connect has failed still has a Get that will remove it. */
  lemma {:induction false} FailureIsAttended(cap: nat, ls: seq<Label>, id: string)
    requires Failed(Run(cap, ls), id)
    ensures Attended(Run(cap, ls), id)
  {
    RunAttended(cap, ls);
  }

  /** A Get whose connect has failed leaves no entry under its ID, and takes no other out of the map. */
  lemma {:induction false} FailedGetRemoves(cap: nat, ls: seq<Label>, t: nat)
    requires Enabled(Run(cap, ls), cap, FailRemove(t))
    ensures Run(cap, ls + [FailRemove(t)]).pool == Run(cap, ls).pool - {PcOf(Run(cap, ls), t).id}
  {
    var st, next := Run(cap, ls), Run(cap, ls + [FailRemove(t)]);
    var id := PcOf(st, t).id;
    var places := RunCoherent(cap, ls);
    RunStep(cap, ls, FailRemove(t), st);
    forall x ensures (x in next.pool <==> x in st.pool && x != id) && (x in next.pool ==> next.pool[x] == st.pool[x]) {
      MapExactly(st, places, cap, FailRemove(t), x);
    }
  }

  /** So the next Get for it connects again. */
  lemma {:induction false} NextGetConnects(cap: nat, ls: seq<Label>, t: nat, u: nat, victim: string)
    requires var st := Run(cap, ls + [FailRemove(t)]);
      Enabled(Run(cap, ls), cap, FailRemove(t)) && Enabled(st, cap, GetEnter(u, PcOf(Run(cap, ls), t).id, victim))
    ensures var id := PcOf(Run(cap, ls), t).id;
      Enabled(Run(cap, ls + [FailRemove(t)] + [GetEnter(u, id, victim)]), cap, OnceBegin(u))
  {
    var id, more := PcOf(Run(cap, ls), t).id, ls + [FailRemove(t)];
    FailedGetRemoves(cap, ls, t);
    RunStep(cap, more, GetEnter(u, id, victim), Run(cap, more));
  }

  // ----- the entry removed need not be the one that failed -----

  /** What a failed Get removes is the entry whose connect failed exactly if that is still in the map: if it was removed
      before, the entry that another Get has made since goes, and its session with it. */
  lemma {:induction false} RemovesOwnExactly(cap: nat, ls: seq<Label>, t: nat)
    requires Enabled(Run(cap, ls), cap, FailRemove(t)) && PcOf(Run(cap, ls), t).id in Run(cap, ls).pool
    ensures var st, next := Run(cap, ls), Run(cap, ls + [FailRemove(t)]);
      PcOf(next, t) == Closing(PcOf(st, t).entry) <==> InMap(st, PcOf(st, t).entry)
  {
    var st := Run(cap, ls);
    var places := RunCoherent(cap, ls);
    var e := PcOf(st, t).entry;
    RunStep(cap, ls, FailRemove(t), st);
    assert ThreadOk(st, t);
    if InMap(st, e) {
      var id :| id in st.pool && st.pool[id] == e;
    }
  }

  const CONNECTING_ENTRY := Entry("a", Running(0), None, false, 1)
  const FAILED_ENTRY := Entry("a", Done, None, true, 1)

  // The state in which another Get has connected, while the connect of thread 0 still runs or has failed.
  function Replaced(first: Entry, second: Entry, zero: Pc, one: Pc): State {
    State([first, second], map["a" := 1], if second.session.Some? then [1] else [], [], map[0 := zero, 1 := one],
          Waiting, false, {0}, {0})
  }

  lemma OtherEnters(ls: seq<Label>)
    requires Run(50, ls) == REMOVED_WHILE_CONNECTING
    ensures Run(50, ls + [GetEnter(1, "a", "")])
      == Replaced(CONNECTING_ENTRY, Entry("a", Fresh, None, false, 0), Connecting("a", 0), AtOnce("a", 1))
  {
    RunStep(50, ls, GetEnter(1, "a", ""), REMOVED_WHILE_CONNECTING);
  }

  lemma OtherBegins(ls: seq<Label>)
    requires Run(50, ls) == Replaced(CONNECTING_ENTRY, Entry("a", Fresh, None, false, 0), Connecting("a", 0), AtOnce("a", 1))
    ensures Run(50, ls + [OnceBegin(1)])
      == Replaced(CONNECTING_ENTRY, Entry("a", Running(1), None, false, 1), Connecting("a", 0), Connecting("a", 1))
  {
    RunStep(50, ls, OnceBegin(1), Run(50, ls));
  }

  lemma OtherConnects(ls: seq<Label>)
    requires Run(50, ls) == Replaced(CONNECTING_ENTRY, Entry("a", Running(1), None, false, 1), Connecting("a", 0), Connecting("a", 1))
    ensures Run(50, ls + [OnceEnd(1, true)])
      == Replaced(CONNECTING_ENTRY, Entry("a", Done, Some(0), false, 1), Connecting("a", 0), AfterOnce("a", 1))
  {
    RunStep(50, ls, OnceEnd(1, true), Run(50, ls));
  }

  lemma OtherReturns(ls: seq<Label>)
    requires Run(50, ls) == Replaced(CONNECTING_ENTRY, Entry("a", Done, Some(0), false, 1), Connecting("a", 0), AfterOnce("a", 1))
    ensures Run(50, ls + [Return(1)]) == Replaced(CONNECTING_ENTRY, Entry("a", Done, Some(0), false, 1), Connecting("a", 0), Idle)
  {
    RunStep(50, ls, Return(1), Run(50, ls));
  }

  lemma FirstFails(ls: seq<Label>)
    requires Run(50, ls) == Replaced(CONNECTING_ENTRY, Entry("a", Done, Some(0), false, 1), Connecting("a", 0), Idle)
    ensures Run(50, ls + [OnceEnd(0, false)]) == Replaced(FAILED_ENTRY, Entry("a", Done, Some(0), false, 1), AfterOnce("a", 0), Idle)
  {
    RunStep(50, ls, OnceEnd(0, false), Run(50, ls));
  }

  lemma FirstRemoves(ls: seq<Label>)
    requires Run(50, ls) == Replaced(FAILED_ENTRY, Entry("a", Done, Some(0), false, 1), AfterOnce("a", 0), Idle)
    ensures Closed(Run(50, ls + [FailRemove(0)] + [CloseRemoved(0)]), 0)
  {
    var st := Run(50, ls);
    RunStep(50, ls, FailRemove(0), st);
    var removed := Run(50, ls + [FailRemove(0)]);
    assert removed == At(Drop(st, "a"), 0, Closing(1));
    RunStep(50, ls + [FailRemove(0)], CloseRemoved(0), removed);
  }

  const START: seq<Label> := [GetEnter(0, "a", "")] + [OnceBegin(0)] + [Invalidate(1, "a")] + [CloseRemoved(1)]

  /** A run in which the session a Get has just returned is closed by an older Get that has failed. */
  lemma HealthySessionClosed()
    ensures var ls := START + [GetEnter(1, "a", "")] + [OnceBegin(1)] + [OnceEnd(1, true)];
      && PcOf(Run(50, ls), 1).AfterOnce? && PcOf(Run(50, ls), 1).entry < |Run(50, ls).entries|
      && Returned(Run(50, ls), 1) == Some(0)
      && Closed(Run(50, ls + [Return(1)] + [OnceEnd(0, false)] + [FailRemove(0)] + [CloseRemoved(0)]), 0)
  {
    RemovedWhileConnecting();
    OtherEnters(START);
    OtherBegins(START + [GetEnter(1, "a", "")]);
    var ls := START + [GetEnter(1, "a", "")] + [OnceBegin(1)] + [OnceEnd(1, true)];
    OtherConnects(START + [GetEnter(1, "a", "")] + [OnceBegin(1)]);
    OtherReturns(ls);
    FirstFails(ls + [Return(1)]);
    FirstRemoves(ls + [Return(1)] + [OnceEnd(0, false)]);
  }
}
