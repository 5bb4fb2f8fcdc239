/** When a session is lost and when the cap is exceeded, exactly, in the terms of a run. */
module PoolHistory {
  import opened Options
  import opened PoolSteps
  import opened PoolProofs
  import opened PoolTheorems

  // ----- lost sessions -----

  /** Somebody holds the entry: the map, or a thread or the reaper that has removed it and has still to close it. */
  ghost predicate Held(st: State, e: nat) {
    || InMap(st, e)
    || (exists t: nat :: PcOf(st, t) == Closing(e))
    || (st.reaper.Sweeping? && exists i: nat :: st.reaper.next <= i < |st.reaper.stale| && st.reaper.stale[i] == e)
  }

  /** At step `i` of the run the last holder of the entry let go of it and found no session to close. */
  ghost predicate LetGo(cap: nat, ls: seq<Label>, i: nat, e: nat) {
    && i < |ls| && Held(Run(cap, ls[..i]), e) && !Held(Run(cap, ls[..i + 1]), e)
    && e < |Run(cap, ls[..i]).entries| && Run(cap, ls[..i]).entries[e].session.None?
  }

  lemma {:induction false} HeldTells(st: State, places: seq<Place>, e: nat)
    requires Coherent(st, places) && e < |st.entries|
    ensures Held(st, e) <==> places[e].InPool? || places[e].ByThread? || places[e].ByReaper?
    ensures e in st.unseen <==> places[e] == Unseen
  {
    assert PlaceOf(st, e, places[e]);
    if t: nat :| PcOf(st, t) == Closing(e) {
      assert st.pcs[t].Closing?;
    }
    if places[e].ByThread? {
      assert PcOf(st, places[e].t) == Closing(e);
    }
  }

  // Steps that move entries about do not change them.
  lemma {:induction false} DiscardAllSame(st: State, ids: seq<string>, e: nat)
    ensures DiscardAll(st, ids).entries == st.entries
    ensures e in DiscardAll(st, ids).unseen && e !in st.unseen ==> e < |st.entries| && st.entries[e].session.None?
    decreases |ids|
  {
    if ids != [] && ids[0] in st.pool && st.pool[ids[0]] < |st.entries| {
      DiscardAllSame(Discard(st, ids[0]), ids[1..], e);
    }
  }

  lemma {:induction false} PickAllSame(st: State, ids: seq<string>)
    ensures PickAll(st, ids).entries == st.entries && PickAll(st, ids).unseen == st.unseen
    decreases |ids|
  {
    if ids != [] && ids[0] in st.pool && st.pool[ids[0]] < |st.entries| {
      PickAllSame(Pick(st, ids[0]), ids[1..]);
    }
  }

  lemma EnterSame(st: State, cap: nat, t: nat, id: string, victim: string, e: nat)
    ensures var next := Enter(st, cap, t, id, victim);
      && |st.entries| <= |next.entries| && (e < |st.entries| ==> next.entries[e] == st.entries[e])
      && (e in next.unseen && e !in st.unseen ==> e < |st.entries| && st.entries[e].session.None?)
  {
  }

  // A step that is not the end of a connect changes no session, and gives up only entries without one.
  lemma {:induction false} StepSame(st: State, cap: nat, l: Label, e: nat)
    requires !l.OnceEnd?
    ensures var next := Step(st, cap, l);
      && |st.entries| <= |next.entries| && (e < |st.entries| ==> next.entries[e].session == st.entries[e].session)
      && (e in next.unseen && e !in st.unseen ==> e < |st.entries| && st.entries[e].session.None?)
  {
    match l {
      case GetEnter(t, id, victim) => EnterSame(st, cap, t, id, victim, e);
      case ReapPick(ids) => PickAllSame(st, ids);
      case ShutSweep(_, ids) => DiscardAllSame(st, ids, e);
      case _ =>
    }
  }

  // The end of a connect moves no entry.
  lemma EndHolds(st: State, cap: nat, l: Label, e: nat)
    requires l.OnceEnd?
    ensures Step(st, cap, l).unseen == st.unseen
    ensures Held(st, e) ==> Held(Step(st, cap, l), e)
  {
    var next := Step(st, cap, l);
    if t: nat :| PcOf(st, t) == Closing(e) {
      assert PcOf(next, t) == Closing(e);
    }
  }

  lemma {:induction false} ClosedStays(st: State, places: seq<Place>, cap: nat, l: Label, e: nat)
    requires Coherent(st, places) && e < |st.entries| && places[e].ClosedAt?
    ensures e !in Step(st, cap, l).unseen
  {
    HeldTells(st, places, e);
    assert PlaceOf(st, e, places[e]);
    if l.OnceEnd? {
      EndHolds(st, cap, l, e);
    } else {
      StepSame(st, cap, l, e);
    }
  }

  // What is new among the given-up entries was held before, has no session, and is held no more.
  lemma {:induction false} GivenUp(st: State, places: seq<Place>, cap: nat, l: Label, e: nat)
    requires Coherent(st, places) && e in Step(st, cap, l).unseen && e !in st.unseen
    ensures e < |st.entries| && st.entries[e].session.None? && Held(st, e) && !Held(Step(st, cap, l), e)
  {
    if l.OnceEnd? {
      EndHolds(st, cap, l, e);
    } else {
      StepSame(st, cap, l, e);
    }
    var moved := StepCoherent(st, places, cap, l);
    HeldTells(st, places, e);
    HeldTells(Step(st, cap, l), moved, e);
    if places[e].ClosedAt? {
      ClosedStays(st, places, cap, l, e);
    }
  }

  lemma {:induction false} LetGoIsGivenUp(st: State, places: seq<Place>, cap: nat, l: Label, e: nat)
    requires Coherent(st, places) && e < |st.entries| && st.entries[e].session.None?
    requires Held(st, e) && !Held(Step(st, cap, l), e)
    ensures e in Step(st, cap, l).unseen
  {
    var next := Step(st, cap, l);
    if l.OnceEnd? {
      EndHolds(st, cap, l, e);
    } else {
      StepSame(st, cap, l, e);
      var moved := StepCoherent(st, places, cap, l);
      HeldTells(next, moved, e);
      assert PlaceOf(next, e, moved[e]);
    }
  }

  lemma {:induction false} GivenUpWhen(cap: nat, ls: seq<Label>, e: nat) returns (i: nat)
    requires e in Run(cap, ls).unseen
    ensures LetGo(cap, ls, i, e)
    decreases |ls|
  {
    var last := |ls| - 1;
    var prefix := ls[..last];
    assert ls[..last + 1] == ls;
    if e in Run(cap, prefix).unseen {
      i := GivenUpWhen(cap, prefix, e);
      assert prefix[..i] == ls[..i] && prefix[..i + 1] == ls[..i + 1];
    } else {
      var places := RunCoherent(cap, prefix);
      GivenUp(Run(cap, prefix), places, cap, ls[last], e);
      i := last;
    }
  }

  lemma {:induction false} LetGoStays(cap: nat, ls: seq<Label>, i: nat, e: nat)
    requires LetGo(cap, ls, i, e)
    ensures e in Run(cap, ls).unseen
  {
    var places := RunCoherent(cap, ls[..i]);
    assert ls[..i + 1][..i] == ls[..i] && ls == ls[..i + 1] + ls[i + 1..];
    LetGoIsGivenUp(Run(cap, ls[..i]), places, cap, ls[i], e);
    RunGrown(cap, ls[..i + 1], ls[i + 1..]);
  }

  /** A session is lost if and only if, at some step of the run, the last holder of its entry let go of it while it had
      no session yet: the entry was removed while its connect ran, and the Close due after the removal came before the
      connect had ended. */
  lemma {:induction false} LostExactly(cap: nat, ls: seq<Label>, s: nat)
    requires s < |Run(cap, ls).owner|
    ensures Orphaned(Run(cap, ls), s) <==> exists i: nat :: LetGo(cap, ls, i, Run(cap, ls).owner[s])
  {
    var e := Run(cap, ls).owner[s];
    Accounting(cap, ls, s);
    if e in Run(cap, ls).unseen {
      var i := GivenUpWhen(cap, ls, e);
    }
    if i: nat :| LetGo(cap, ls, i, e) {
      LetGoStays(cap, ls, i, e);
    }
  }

  const CLOSING_CONNECTED :=
    State([Entry("a", Done, Some(0), false, 1)], map[], [0], [], map[0 := AfterOnce("a", 0), 1 := Closing(0)],
          Waiting, false, {0}, {})

  lemma ConnectedBeforeClose(ls: seq<Label>)
    requires Run(50, ls) == REMOVING
    ensures Run(50, ls + [OnceEnd(0, true)]) == CLOSING_CONNECTED
  {
    RunStep(50, ls, OnceEnd(0, true), REMOVING);
  }

  /** An Invalidate during the connect loses nothing if its Close comes after the connect has ended. */
  lemma RemovedEarlyYetClosed(ls: seq<Label>)
    requires ls == [GetEnter(0, "a", "")] + [OnceBegin(0)] + [Invalidate(1, "a")]
    ensures var st := Run(50, ls + [OnceEnd(0, true)] + [CloseRemoved(1)]); Closed(st, 0) && st.owner == [0] && 0 in st.early
  {
    RemovedEarly();
    ConnectedBeforeClose(ls);
    RunStep(50, ls + [OnceEnd(0, true)], CloseRemoved(1), CLOSING_CONNECTED);
    assert Run(50, ls + [OnceEnd(0, true)] + [CloseRemoved(1)]).closed == [0];
  }

  // ----- the cap -----

  /** A Get takes the pool over its cap if and only if the pool is full, the ID is new, and what is to be evicted is the
      entry under the empty ID. */
  lemma {:induction false} ExceedsExactly(st: State, places: seq<Place>, cap: nat, t: nat, id: string, victim: string)
    requires Coherent(st, places) && 0 < cap && |st.pool| <= cap && Enabled(st, cap, GetEnter(t, id, victim))
    ensures |Step(st, cap, GetEnter(t, id, victim)).pool| > cap <==> |st.pool| == cap && id !in st.pool && victim == ""
  {
    if id !in st.pool && |st.pool| == cap && victim != "" {
      DropSize(st.pool, victim);
    }
  }

  /** `n` letters: the empty ID for zero. */
  function Named(n: nat): (id: string)
    ensures |id| == n
  {
    seq(n, _ => 'a')
  }

  /** Gets for the empty ID and for `n` others, in which what is to be evicted is always the empty ID. */
  function Gets(n: nat): seq<Label> {
    (if n == 0 then [] else Gets(n - 1)) + [GetEnter(n, Named(n), "")]
  }

  ghost predicate Filled(st: State, n: nat) {
    && |st.pool| == n + 1 && "" in st.pool && (forall id :: id in st.pool ==> |id| <= n)
    && (forall t: nat :: t > n ==> PcOf(st, t).Idle?)
  }

  lemma {:induction false} FillStep(st: State, cap: nat, n: nat)
    requires Filled(st, n)
    ensures Filled(Step(st, cap, GetEnter(n + 1, Named(n + 1), "")), n + 1)
  {
    var id := Named(n + 1);
    assert id !in st.pool && PcOf(st, n + 1).Idle?;
    var next := Step(st, cap, GetEnter(n + 1, id, ""));
    assert next.pool == st.pool[id := |st.entries|];
    assert next.pool.Keys == st.pool.Keys + {id};
    forall t: nat | t > n + 1 ensures PcOf(next, t).Idle? {
      assert PcOf(st, t).Idle?;
    }
  }

  lemma FirstFilled(cap: nat, id: string)
    requires cap > 0 && id == ""
    ensures Step(INITIAL, cap, GetEnter(0, id, "")).pool == map[id := 0]
    ensures forall t: nat :: t > 0 ==> PcOf(Step(INITIAL, cap, GetEnter(0, id, "")), t).Idle?
  {
  }

  lemma FillStart(cap: nat)
    requires cap > 0
    ensures Filled(Run(cap, Gets(0)), 0)
  {
    var id := Named(0);
    assert id == "";
    assert [] + [GetEnter(0, id, "")] == Gets(0);
    RunStep(cap, [], GetEnter(0, id, ""), INITIAL);
    FirstFilled(cap, id);
    assert |map[id := 0]| == 1;
  }

  /** With the empty ID there is no bound: whatever the cap, the pool can hold any number of entries. */
  lemma {:induction false} EmptyIdUnbounded(cap: nat, n: nat)
    requires cap > 0
    ensures |Run(cap, Gets(n)).pool| == n + 1 && Filled(Run(cap, Gets(n)), n)
  {
    if n == 0 {
      FillStart(cap);
    } else {
      EmptyIdUnbounded(cap, n - 1);
      RunStep(cap, Gets(n - 1), GetEnter(n, Named(n), ""), Run(cap, Gets(n - 1)));
      FillStep(Run(cap, Gets(n - 1)), cap, n - 1);
    }
  }
}
