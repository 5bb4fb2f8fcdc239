/** Nobody who uses the session pool is ever stuck in it (internal/cluster/manager.go). */
module PoolProgress {
  import opened Sequences
  import opened Options
  import opened PoolSteps
  import opened PoolProofs
  import opened PoolTheorems

  /** Somebody can take a step that `t` waits for, or `t` itself can. */
  ghost predicate Proceeds(st: State, cap: nat, t: nat) {
    match PcOf(st, t)
    case Idle => true
    case AtOnce(id, e) =>
      || Enabled(st, cap, OnceBegin(t)) || Enabled(st, cap, OnceSkip(t))
      || exists u: nat :: PcOf(st, u) == Connecting(id, e) && CanEnd(st, cap, u)
    case Connecting(_, _) => CanEnd(st, cap, t)
    case AfterOnce(_, _) => Enabled(st, cap, Return(t)) != Enabled(st, cap, FailRemove(t))
    case Closing(_) => Enabled(st, cap, CloseRemoved(t))
    case AwaitingReaper =>
      || (exists ids :: Enabled(st, cap, ShutSweep(t, ids)))
      || Enabled(st, cap, ReapClose) || Enabled(st, cap, ReapRest) || Enabled(st, cap, ReapExit)
  }

  /** The connect can end, well or badly. */
  ghost predicate CanEnd(st: State, cap: nat, t: nat) {
    Enabled(st, cap, OnceEnd(t, true)) && Enabled(st, cap, OnceEnd(t, false))
  }

  ghost predicate AwaitedIsStopped(st: State) {
    forall t :: PcOf(st, t).AwaitingReaper? ==> st.stopped
  }

  lemma EnterStays(st: State, cap: nat, u: nat, id: string, victim: string, t: nat)
    ensures var next := Enter(st, cap, u, id, victim);
      (PcOf(next, t).AwaitingReaper? ==> PcOf(st, t).AwaitingReaper?) && next.stopped == st.stopped
  {
  }

  lemma RemoveStays(st: State, u: nat, id: string, t: nat)
    ensures var next := RemoveFor(st, u, id);
      (PcOf(next, t).AwaitingReaper? ==> PcOf(st, t).AwaitingReaper?) && next.stopped == st.stopped
  {
  }

  lemma OnceStays(st: State, cap: nat, l: Label, t: nat)
    requires l.OnceBegin? || l.OnceSkip? || l.OnceEnd? || l.Return? || l.CloseRemoved?
    ensures PcOf(Step(st, cap, l), t).AwaitingReaper? ==> PcOf(st, t).AwaitingReaper?
    ensures Step(st, cap, l).stopped == st.stopped
  {
  }

  // No step but the beginning of a Close lets a thread await the reaper, and none starts a stopped pool again.
  lemma {:induction false} StepStays(st: State, cap: nat, l: Label, t: nat)
    requires !l.ShutBegin?
    ensures PcOf(Step(st, cap, l), t).AwaitingReaper? ==> PcOf(st, t).AwaitingReaper?
    ensures Step(st, cap, l).stopped == st.stopped
  {
    if Enabled(st, cap, l) {
      match l {
        case GetEnter(u, id, victim) => EnterStays(st, cap, u, id, victim, t);
        case FailRemove(u) => RemoveStays(st, u, PcOf(st, u).id, t);
        case Invalidate(u, id) => RemoveStays(st, u, id, t);
        case ReapPick(ids) => PickAllKeeps(st, ids);
        case ShutSweep(_, ids) => DiscardAllKeeps(st, ids);
        case ReapClose =>
        case ReapRest =>
        case ReapExit =>
        case _ => OnceStays(st, cap, l, t);
      }
    }
  }

  lemma ShutStays(st: State, cap: nat, u: nat, t: nat)
    requires PcOf(st, t).AwaitingReaper? ==> st.stopped
    ensures PcOf(Step(st, cap, ShutBegin(u)), t).AwaitingReaper? ==> Step(st, cap, ShutBegin(u)).stopped
  {
  }

  lemma {:induction false} PickAllKeeps(st: State, ids: seq<string>)
    ensures PickAll(st, ids).pcs == st.pcs && PickAll(st, ids).stopped == st.stopped
    decreases |ids|
  {
    if ids != [] && ids[0] in st.pool && st.pool[ids[0]] < |st.entries| {
      PickAllKeeps(Pick(st, ids[0]), ids[1..]);
    }
  }

  lemma {:induction false} DiscardAllKeeps(st: State, ids: seq<string>)
    ensures DiscardAll(st, ids).pcs == st.pcs && DiscardAll(st, ids).stopped == st.stopped
    decreases |ids|
  {
    if ids != [] && ids[0] in st.pool && st.pool[ids[0]] < |st.entries| {
      DiscardAllKeeps(Discard(st, ids[0]), ids[1..]);
    }
  }

  lemma {:induction false} RunAwaited(cap: nat, ls: seq<Label>)
    ensures AwaitedIsStopped(Run(cap, ls))
    decreases |ls|
  {
    if ls != [] {
      var front, last := ls[..|ls| - 1], ls[|ls| - 1];
      RunAwaited(cap, front);
      forall t | PcOf(Run(cap, ls), t).AwaitingReaper? ensures Run(cap, ls).stopped {
        if last.ShutBegin? {
          ShutStays(Run(cap, front), cap, last.t, t);
        } else {
          StepStays(Run(cap, front), cap, last, t);
        }
      }
    }
  }

  lemma {:induction false} ListOf(ids: set<string>) returns (l: seq<string>)
    ensures Distinct(l) && forall id :: id in l <==> id in ids
    decreases |ids|
  {
    if ids == {} {
      l := [];
    } else {
      var id :| id in ids;
      var rest := ListOf(ids - {id});
      l := rest + [id];
    }
  }

  lemma {:induction false} ShutProceeds(st: State, places: seq<Place>, cap: nat, t: nat)
    requires Coherent(st, places) && PcOf(st, t).AwaitingReaper? && st.stopped
    ensures Proceeds(st, cap, t)
  {
    match st.reaper {
      case Exited =>
        var ids := ListOf(st.pool.Keys);
        assert Enabled(st, cap, ShutSweep(t, ids));
      case Waiting => assert Enabled(st, cap, ReapExit);
      case Sweeping(stale, next) =>
        if next < |stale| {
          assert places[stale[next]] == ByReaper(next);
          assert Enabled(st, cap, ReapClose);
        } else {
          assert Enabled(st, cap, ReapRest);
        }
    }
  }

  lemma {:induction false} OnceProceeds(st: State, places: seq<Place>, cap: nat, t: nat)
    requires Coherent(st, places) && PcOf(st, t).AtOnce?
    ensures Proceeds(st, cap, t)
  {
    var id, e := PcOf(st, t).id, PcOf(st, t).entry;
    assert ThreadOk(st, t);
    match st.entries[e].once {
      case Fresh => assert Enabled(st, cap, OnceBegin(t));
      case Done => assert Enabled(st, cap, OnceSkip(t));
      case Running(u) =>
        assert EntryOk(st, e);
        assert PcOf(st, u) == Connecting(id, e) && CanEnd(st, cap, u);
    }
  }

  /** In every reachable state every Get, Invalidate and Close that is under way can take its next step, or waits for a
      connect or for the reaper, which can. */
  lemma {:induction false} NeverStuck(cap: nat, ls: seq<Label>, t: nat)
    ensures Proceeds(Run(cap, ls), cap, t)
  {
    var st := Run(cap, ls);
    var places := RunCoherent(cap, ls);
    assert ThreadOk(st, t);
    match PcOf(st, t) {
      case AtOnce(_, _) => OnceProceeds(st, places, cap, t);
      case AwaitingReaper =>
        RunAwaited(cap, ls);
        ShutProceeds(st, places, cap, t);
      case Closing(e) => assert t in st.pcs && places[e] == ByThread(t);
      case _ =>
    }
  }

  /** A connect that goes well makes exactly one session, for the entry it was begun for, and its Get can return; one that
      goes badly makes none, and its Get must take the entry out of the map. */
  lemma {:induction false} ConnectEnds(cap: nat, ls: seq<Label>, t: nat, ok: bool)
    requires Enabled(Run(cap, ls), cap, OnceEnd(t, ok))
    ensures var st, next := Run(cap, ls), Run(cap, ls + [OnceEnd(t, ok)]);
      && PcOf(next, t) == AfterOnce(PcOf(st, t).id, PcOf(st, t).entry) && PcOf(st, t).entry < |next.entries|
      && next.owner == st.owner + (if ok then [PcOf(st, t).entry] else [])
      && next.entries[PcOf(st, t).entry].session == (if ok then Some(|st.owner|) else None)
      && (Enabled(next, cap, Return(t)) <==> ok) && (Enabled(next, cap, FailRemove(t)) <==> !ok)
  {
    var st := Run(cap, ls);
    var places := RunCoherent(cap, ls);
    assert ThreadOk(st, t);
    assert EntryOk(st, PcOf(st, t).entry);
    RunStep(cap, ls, OnceEnd(t, ok), st);
  }
}
