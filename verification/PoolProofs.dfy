/** Every step of the session pool keeps the entries accounted for. */
module PoolProofs {
  import opened Sequences
  import opened Options
  import opened PoolSteps

  // ----- one thread moves, no entry does -----

  lemma MovePlaced(st: State, places: seq<Place>, t: nat, pc: Pc)
    requires Placed(st, places) && !PcOf(st, t).Closing? && !pc.Closing?
    ensures Placed(At(st, t, pc), places)
  {
    var next := At(st, t, pc);
    forall e: nat | e < |next.entries|
      ensures PlaceOf(next, e, places[e])
    {
      assert PlaceOf(st, e, places[e]);
    }
  }

  lemma MoveThread(st: State, places: seq<Place>, t: nat, pc: Pc)
    requires Coherent(st, places) && !PcOf(st, t).Closing? && !PcOf(st, t).Connecting?
    requires !pc.Closing? && ThreadOk(At(st, t, pc), t)
    ensures Coherent(At(st, t, pc), places)
  {
    var next := At(st, t, pc);
    MovePlaced(st, places, t, pc);
    forall e: nat | e < |next.entries|
      ensures EntryOk(next, e) && HistoryOk(next, places, e)
    {
      assert EntryOk(st, e) && HistoryOk(st, places, e);
    }
    forall k: nat
      ensures ThreadOk(next, k)
    {
      assert ThreadOk(st, k);
    }
    forall s: nat | s < |next.owner|
      ensures SessionOk(next, s)
    {
      assert SessionOk(st, s);
    }
  }

  // ----- entries leave the map -----

  // `next` differs from `st` in where entries are, not in what they are.
  ghost predicate SameEntries(st: State, next: State) {
    next.entries == st.entries && next.owner == st.owner && st.early <= next.early
  }

  lemma MovedEntry(st: State, next: State, places: seq<Place>, e: nat, p: Place)
    requires Coherent(st, places) && SameEntries(st, next) && e < |st.entries|
    requires Placed(next, places[e := p]) && HistoryOk(next, places[e := p], e)
    requires forall t: nat :: PcOf(st, t) == PcOf(next, t) || (!PcOf(st, t).Connecting? && ThreadOk(next, t))
    ensures Coherent(next, places[e := p])
  {
    var moved := places[e := p];
    forall k: nat | k < |next.entries|
      ensures EntryOk(next, k) && HistoryOk(next, moved, k)
    {
      assert EntryOk(st, k) && HistoryOk(st, places, k);
    }
    forall t: nat
      ensures ThreadOk(next, t)
    {
      assert ThreadOk(st, t);
    }
    forall s: nat | s < |next.owner|
      ensures SessionOk(next, s)
    {
      assert SessionOk(st, s);
    }
  }

  function ClosedPlace(st: State, e: nat): Place
    requires e < |st.entries|
  {
    if st.entries[e].session.Some? then ClosedAt(|st.closed|) else Unseen
  }

  // Entry `e` has left the map and all lists; the other entries are where they were.
  ghost predicate Released(st: State, next: State, e: nat) {
    && next.entries == st.entries && next.owner == st.owner
    && (forall id :: id in next.pool <==> id in st.pool && st.pool[id] != e)
    && (forall id :: id in next.pool ==> next.pool[id] == st.pool[id])
    && (forall t: nat, x: nat :: PcOf(next, t) == Closing(x) <==> PcOf(st, t) == Closing(x) && x != e)
    && (next.reaper.Sweeping? ==> st.reaper.Sweeping? && next.reaper.stale == st.reaper.stale)
    && (next.reaper.Sweeping? ==> st.reaper.next <= next.reaper.next <= |next.reaper.stale|)
    && (st.reaper.Sweeping? ==> next.reaper.Sweeping?)
    && (st.reaper.Sweeping? ==> forall i: nat :: st.reaper.next <= i < |st.reaper.stale| ==>
      (next.reaper.next <= i <==> st.reaper.stale[i] != e))
  }

  // Whoever has still to close an entry had to before.
  lemma StillClosing(st: State, next: State, places: seq<Place>, e: nat, t: nat)
    requires Placed(st, places) && Released(st, next, e) && t in next.pcs && next.pcs[t].Closing?
    ensures next.pcs[t].entry < |places| && next.pcs[t].entry != e && places[next.pcs[t].entry] == ByThread(t)
  {
    assert PcOf(next, t) == Closing(next.pcs[t].entry);
    assert PcOf(st, t) == Closing(next.pcs[t].entry);
  }

  // Every other entry is where it was.
  lemma StillPlaced(st: State, next: State, places: seq<Place>, e: nat, k: nat)
    requires Placed(st, places) && Released(st, next, e) && k < |st.entries| && k != e
    requires st.closed <= next.closed && st.unseen <= next.unseen
    ensures PlaceOf(next, k, places[k])
  {
    assert PlaceOf(st, k, places[k]);
    if places[k].ByThread? {
      assert PcOf(st, places[k].t) == Closing(k);
      assert PcOf(next, places[k].t) == Closing(k);
    }
  }

  lemma CloseReleased(st: State, next: State, places: seq<Place>, e: nat)
    requires Placed(st, places) && e < |st.entries| && EntryOk(st, e) && st.entries[e].session.Some?
    requires Released(st, next, e) && next.closed == st.closed + [st.entries[e].session.value] && next.unseen == st.unseen
    requires !places[e].ClosedAt? && !places[e].Unseen?
    ensures Placed(next, places[e := ClosedAt(|st.closed|)])
  {
    var moved := places[e := ClosedAt(|st.closed|)];
    forall k: nat | k < |next.entries|
      ensures PlaceOf(next, k, moved[k])
    {
      if k != e {
        StillPlaced(st, next, places, e, k);
      }
    }
    forall t | t in next.pcs && next.pcs[t].Closing?
      ensures next.pcs[t].entry < |moved| && moved[next.pcs[t].entry] == ByThread(t)
    {
      StillClosing(st, next, places, e, t);
    }
  }

  lemma GiveUpReleased(st: State, next: State, places: seq<Place>, e: nat)
    requires Placed(st, places) && e < |st.entries| && Released(st, next, e)
    requires next.closed == st.closed && next.unseen == st.unseen + {e}
    requires !places[e].ClosedAt? && !places[e].Unseen?
    ensures Placed(next, places[e := Unseen])
  {
    var moved := places[e := Unseen];
    forall k: nat | k < |next.entries|
      ensures PlaceOf(next, k, moved[k])
    {
      if k != e {
        StillPlaced(st, next, places, e, k);
      }
    }
    forall t | t in next.pcs && next.pcs[t].Closing?
      ensures next.pcs[t].entry < |moved| && moved[next.pcs[t].entry] == ByThread(t)
    {
      StillClosing(st, next, places, e, t);
    }
  }

  lemma ClosePlaced(st: State, next: State, places: seq<Place>, e: nat)
    requires Placed(st, places) && e < |st.entries| && EntryOk(st, e) && Released(st, next, e)
    requires next.closed == CloseEntry(st, e).closed && next.unseen == CloseEntry(st, e).unseen
    requires !places[e].ClosedAt? && !places[e].Unseen?
    ensures Placed(next, places[e := ClosedPlace(st, e)])
  {
    if st.entries[e].session.Some? {
      CloseReleased(st, next, places, e);
    } else {
      GiveUpReleased(st, next, places, e);
    }
  }

  lemma DiscardPlaced(st: State, places: seq<Place>, id: string)
    requires Placed(st, places) && id in st.pool && EntryOk(st, st.pool[id])
    ensures Placed(Discard(st, id), places[st.pool[id] := ClosedPlace(st, st.pool[id])])
  {
    var e, next := st.pool[id], Discard(st, id);
    forall k | k in st.pool
      ensures k in next.pool <==> st.pool[k] != e
    {
      assert places[st.pool[k]] == InPool && st.entries[st.pool[k]].connID == k;
    }
    ClosePlaced(st, next, places, e);
  }

  lemma Discarded(st: State, places: seq<Place>, id: string) returns (moved: seq<Place>)
    requires Coherent(st, places) && id in st.pool
    ensures Coherent(Discard(st, id), moved)
  {
    var e := st.pool[id];
    assert EntryOk(st, e);
    DiscardPlaced(st, places, id);
    moved := places[e := ClosedPlace(st, e)];
    MovedEntry(st, Discard(st, id), places, e, ClosedPlace(st, e));
  }

  lemma PickPlaced(st: State, places: seq<Place>, id: string)
    requires Placed(st, places) && id in st.pool
    requires st.reaper == Waiting || (st.reaper.Sweeping? && st.reaper.next == 0)
    ensures Placed(Pick(st, id), places[st.pool[id] := ByReaper(if st.reaper.Sweeping? then |st.reaper.stale| else 0)])
  {
    var e, next := st.pool[id], Pick(st, id);
    var moved := places[e := ByReaper(if st.reaper.Sweeping? then |st.reaper.stale| else 0)];
    forall k: nat | k < |next.entries|
      ensures PlaceOf(next, k, moved[k])
    {
      assert PlaceOf(st, k, places[k]);
    }
  }

  lemma Picked(st: State, places: seq<Place>, id: string) returns (moved: seq<Place>)
    requires Coherent(st, places) && id in st.pool && st.entries[st.pool[id]].session.Some?
    requires st.reaper == Waiting || (st.reaper.Sweeping? && st.reaper.next == 0)
    ensures Coherent(Pick(st, id), moved)
  {
    var e, p := st.pool[id], ByReaper(if st.reaper.Sweeping? then |st.reaper.stale| else 0);
    PickPlaced(st, places, id);
    moved := places[e := p];
    MovedEntry(st, Pick(st, id), places, e, p);
  }

  lemma RemovePlaced(st: State, places: seq<Place>, t: nat, id: string)
    requires Placed(st, places) && id in st.pool && !PcOf(st, t).Closing?
    ensures Placed(RemoveFor(st, t, id), places[st.pool[id] := ByThread(t)])
  {
    var e, next := st.pool[id], RemoveFor(st, t, id);
    var moved := places[e := ByThread(t)];
    forall k: nat | k < |next.entries|
      ensures PlaceOf(next, k, moved[k])
    {
      assert PlaceOf(st, k, places[k]);
    }
  }

  lemma Removed(st: State, places: seq<Place>, t: nat, id: string) returns (moved: seq<Place>)
    requires Coherent(st, places) && (PcOf(st, t).Idle? || PcOf(st, t).AfterOnce?)
    ensures Coherent(RemoveFor(st, t, id), moved)
  {
    if id in st.pool {
      var e := st.pool[id];
      assert EntryOk(st, e);
      RemovePlaced(st, places, t, id);
      moved := places[e := ByThread(t)];
      MovedEntry(st, RemoveFor(st, t, id), places, e, ByThread(t));
    } else {
      moved := places;
      MoveThread(st, places, t, Idle);
    }
  }

  // ----- entries are closed by their holder -----

  lemma ClosedByThreadPlaced(st: State, places: seq<Place>, t: nat, e: nat)
    requires Placed(st, places) && e < |st.entries| && EntryOk(st, e) && PcOf(st, t) == Closing(e)
    ensures Placed(At(CloseEntry(st, e), t, Idle), places[e := ClosedPlace(st, e)])
  {
    assert PlaceOf(st, e, places[e]);
    ClosePlaced(st, At(CloseEntry(st, e), t, Idle), places, e);
  }

  lemma ClosedByThread(st: State, places: seq<Place>, t: nat, e: nat) returns (moved: seq<Place>)
    requires Coherent(st, places) && e < |st.entries| && PcOf(st, t) == Closing(e)
    ensures Coherent(At(CloseEntry(st, e), t, Idle), moved)
  {
    assert EntryOk(st, e) && HistoryOk(st, places, e);
    ClosedByThreadPlaced(st, places, t, e);
    moved := places[e := ClosedPlace(st, e)];
    MovedEntry(st, At(CloseEntry(st, e), t, Idle), places, e, ClosedPlace(st, e));
  }

  function ReaperCloses(st: State): State
    requires st.reaper.Sweeping? && st.reaper.next < |st.reaper.stale| && st.reaper.stale[st.reaper.next] < |st.entries|
  {
    CloseEntry(st, st.reaper.stale[st.reaper.next]).(reaper := Sweeping(st.reaper.stale, st.reaper.next + 1))
  }

  lemma ClosedByReaperPlaced(st: State, places: seq<Place>, e: nat)
    requires Placed(st, places) && st.reaper.Sweeping? && st.reaper.next < |st.reaper.stale|
    requires e == st.reaper.stale[st.reaper.next] && e < |st.entries| && EntryOk(st, e)
    ensures Placed(ReaperCloses(st), places[e := ClosedPlace(st, e)])
  {
    assert places[e] == ByReaper(st.reaper.next);
    ClosePlaced(st, ReaperCloses(st), places, e);
  }

  lemma ClosedByReaper(st: State, places: seq<Place>) returns (moved: seq<Place>)
    requires Coherent(st, places) && st.reaper.Sweeping? && st.reaper.next < |st.reaper.stale|
    ensures st.reaper.stale[st.reaper.next] < |st.entries| && Coherent(ReaperCloses(st), moved)
  {
    var e := st.reaper.stale[st.reaper.next];
    assert EntryOk(st, e) && HistoryOk(st, places, e);
    ClosedByReaperPlaced(st, places, e);
    moved := places[e := ClosedPlace(st, e)];
    MovedEntry(st, ReaperCloses(st), places, e, ClosedPlace(st, e));
  }

  lemma ReaperRests(st: State, places: seq<Place>, reaper: Reaper)
    requires Coherent(st, places) && !reaper.Sweeping? && (st.reaper.Sweeping? ==> st.reaper.next == |st.reaper.stale|)
    ensures Coherent(st.(reaper := reaper), places)
  {
    var next := st.(reaper := reaper);
    forall e: nat | e < |next.entries|
      ensures PlaceOf(next, e, places[e]) && EntryOk(next, e) && HistoryOk(next, places, e)
    {
      assert PlaceOf(st, e, places[e]) && EntryOk(st, e) && HistoryOk(st, places, e);
    }
    forall t: nat
      ensures ThreadOk(next, t)
    {
      assert ThreadOk(st, t);
    }
    forall s: nat | s < |next.owner|
      ensures SessionOk(next, s)
    {
      assert SessionOk(st, s);
    }
  }

  // ----- an entry is created, connects, or fails to -----

  function Added(st: State, t: nat, id: string): State {
    var e := |st.entries|;
    At(st.(entries := st.entries + [Entry(id, Fresh, None, false, 0)], pool := st.pool[id := e]), t, AtOnce(id, e))
  }

  lemma AddedPlaced(st: State, places: seq<Place>, t: nat, id: string)
    requires Placed(st, places) && id !in st.pool && PcOf(st, t).Idle?
    ensures Placed(Added(st, t, id), places + [InPool])
  {
    var next, moved := Added(st, t, id), places + [InPool];
    forall k: nat | k < |next.entries|
      ensures PlaceOf(next, k, moved[k])
    {
      if k < |st.entries| {
        assert PlaceOf(st, k, places[k]);
      }
    }
  }

  lemma EntryAdded(st: State, places: seq<Place>, t: nat, id: string)
    requires Coherent(st, places) && id !in st.pool && PcOf(st, t).Idle?
    ensures Coherent(Added(st, t, id), places + [InPool])
  {
    var next, moved := Added(st, t, id), places + [InPool];
    AddedPlaced(st, places, t, id);
    forall k: nat | k < |next.entries|
      ensures EntryOk(next, k) && HistoryOk(next, moved, k)
    {
      if k < |st.entries| {
        assert EntryOk(st, k) && HistoryOk(st, places, k);
      }
    }
    forall k: nat
      ensures ThreadOk(next, k)
    {
      assert ThreadOk(st, k);
    }
    forall s: nat | s < |next.owner|
      ensures SessionOk(next, s)
    {
      assert SessionOk(st, s);
    }
  }

  // The connect of one entry begins or ends: `next` differs in that entry and in its thread.
  lemma ConnectPlaced(st: State, next: State, places: seq<Place>, t: nat, e: nat)
    requires Placed(st, places) && e < |st.entries| == |next.entries| && st.entries[e].session.None?
    requires next.pool == st.pool && next.closed == st.closed && next.reaper == st.reaper && next.unseen == st.unseen
    requires st.owner <= next.owner
    requires next.pcs == st.pcs[t := PcOf(next, t)] && !PcOf(st, t).Closing? && !PcOf(next, t).Closing?
    requires next.entries == st.entries[e := next.entries[e]] && next.entries[e].connID == st.entries[e].connID
    ensures Placed(next, places)
  {
    forall k: nat | k < |next.entries|
      ensures PlaceOf(next, k, places[k])
    {
      assert PlaceOf(st, k, places[k]);
    }
  }

  lemma Begun(st: State, places: seq<Place>, cap: nat, t: nat)
    requires Coherent(st, places) && Enabled(st, cap, OnceBegin(t))
    ensures Coherent(Do(st, cap, OnceBegin(t)), places)
  {
    var next, e := Do(st, cap, OnceBegin(t)), PcOf(st, t).entry;
    assert EntryOk(st, e) && ThreadOk(st, t);
    ConnectPlaced(st, next, places, t, e);
    forall k: nat | k < |next.entries|
      ensures EntryOk(next, k) && HistoryOk(next, places, k)
    {
      assert EntryOk(st, k) && HistoryOk(st, places, k);
    }
    forall k: nat
      ensures ThreadOk(next, k)
    {
      assert ThreadOk(st, k);
    }
    forall s: nat | s < |next.owner|
      ensures SessionOk(next, s)
    {
      assert SessionOk(st, s);
    }
  }

  lemma Ended(st: State, places: seq<Place>, t: nat, ok: bool)
    requires Coherent(st, places) && PcOf(st, t).Connecting?
    ensures PcOf(st, t).entry < |st.entries| && Coherent(EndOnce(st, t, ok), places)
  {
    assert ThreadOk(st, t);
    var next, e := EndOnce(st, t, ok), PcOf(st, t).entry;
    assert EntryOk(st, e) && HistoryOk(st, places, e);
    ConnectPlaced(st, next, places, t, e);
    forall k: nat | k < |next.entries|
      ensures EntryOk(next, k) && HistoryOk(next, places, k)
    {
      assert EntryOk(st, k) && HistoryOk(st, places, k);
    }
    forall k: nat
      ensures ThreadOk(next, k)
    {
      assert ThreadOk(st, k);
    }
    forall s: nat | s < |next.owner|
      ensures SessionOk(next, s)
    {
      if s < |st.owner| {
        assert SessionOk(st, s);
      }
    }
  }

  // ----- several entries at once -----

  function Elements(ids: seq<string>): set<string> {
    set id | id in ids
  }

  lemma DistinctTail(ids: seq<string>)
    requires Distinct(ids) && ids != []
    ensures Distinct(ids[1..]) && Elements(ids) == {ids[0]} + Elements(ids[1..]) && ids[0] !in Elements(ids[1..])
  {
    HeadTail(ids);
  }

  lemma {:induction false} AllDiscarded(st: State, places: seq<Place>, ids: seq<string>) returns (moved: seq<Place>)
    requires Coherent(st, places) && Distinct(ids) && Elements(ids) <= st.pool.Keys
    ensures Coherent(DiscardAll(st, ids), moved)
    ensures DiscardAll(st, ids).pool.Keys == st.pool.Keys - Elements(ids) && DiscardAll(st, ids).pcs == st.pcs
    decreases |ids|
  {
    moved := places;
    if ids != [] {
      DistinctTail(ids);
      assert ids[0] in st.pool.Keys;
      moved := Discarded(st, places, ids[0]);
      moved := AllDiscarded(Discard(st, ids[0]), moved, ids[1..]);
    }
  }

  lemma {:induction false} AllPicked(st: State, places: seq<Place>, ids: seq<string>) returns (moved: seq<Place>)
    requires Coherent(st, places) && Distinct(ids) && Elements(ids) <= st.pool.Keys
    requires forall id :: id in Elements(ids) ==> st.entries[st.pool[id]].session.Some?
    requires st.reaper == Waiting || (st.reaper.Sweeping? && st.reaper.next == 0)
    ensures Coherent(PickAll(st, ids), moved)
    decreases |ids|
  {
    moved := places;
    if ids != [] {
      DistinctTail(ids);
      assert ids[0] in st.pool.Keys;
      moved := Picked(st, places, ids[0]);
      moved := AllPicked(Pick(st, ids[0]), moved, ids[1..]);
    }
  }

  lemma Entered(st: State, places: seq<Place>, cap: nat, t: nat, id: string, victim: string) returns (moved: seq<Place>)
    requires Coherent(st, places) && Enabled(st, cap, GetEnter(t, id, victim))
    ensures Coherent(Enter(st, cap, t, id, victim), moved)
  {
    moved := places;
    if id in st.pool {
      MoveThread(st, places, t, AtOnce(id, st.pool[id]));
    } else {
      var room := st;
      if |st.pool| >= cap && victim in st.pool && victim != "" {
        moved := Discarded(st, places, victim);
        room := Discard(st, victim);
      }
      EntryAdded(room, moved, t, id);
      moved := moved + [InPool];
    }
  }

  /** Every step keeps the pool coherent. */
  lemma {:induction false} StepCoherent(st: State, places: seq<Place>, cap: nat, l: Label) returns (moved: seq<Place>)
    requires Coherent(st, places)
    ensures Coherent(Step(st, cap, l), moved)
  {
    moved := places;
    if Enabled(st, cap, l) {
      match l
      case GetEnter(t, id, victim) => moved := Entered(st, places, cap, t, id, victim);
      case OnceBegin(t) => Begun(st, places, cap, t);
      case OnceSkip(t) =>
        assert ThreadOk(st, t);
        MoveThread(st, places, t, AfterOnce(PcOf(st, t).id, PcOf(st, t).entry));
      case OnceEnd(t, ok) => Ended(st, places, t, ok);
      case Return(t) => MoveThread(st, places, t, Idle);
      case FailRemove(t) => moved := Removed(st, places, t, PcOf(st, t).id);
      case Invalidate(t, id) => moved := Removed(st, places, t, id);
      case CloseRemoved(t) => moved := ClosedByThread(st, places, t, PcOf(st, t).entry);
      case ReapPick(ids) =>
        assert Elements(ids) <= st.pool.Keys;
        moved := AllPicked(st, places, ids);
      case ReapClose => moved := ClosedByReaper(st, places);
      case ReapRest => ReaperRests(st, places, Waiting);
      case ReapExit => ReaperRests(st, places, Exited);
      case ShutBegin(t) => ShutBegun(st, places, t);
      case ShutSweep(t, ids) => moved := Swept(st, places, t, ids);
    }
  }

  lemma ShutBegun(st: State, places: seq<Place>, t: nat)
    requires Coherent(st, places) && PcOf(st, t).Idle?
    ensures Coherent(At(st.(stopped := true), t, AwaitingReaper), places)
  {
    MoveThread(st, places, t, AwaitingReaper);
    var a, b := At(st, t, AwaitingReaper), At(st.(stopped := true), t, AwaitingReaper);
    forall e: nat | e < |b.entries|
      ensures PlaceOf(b, e, places[e]) && EntryOk(b, e) && HistoryOk(b, places, e)
    {
      assert PlaceOf(a, e, places[e]) && EntryOk(a, e) && HistoryOk(a, places, e);
    }
    forall k: nat
      ensures ThreadOk(b, k)
    {
      assert ThreadOk(a, k);
    }
    forall s: nat | s < |b.owner|
      ensures SessionOk(b, s)
    {
      assert SessionOk(a, s);
    }
  }

  lemma Swept(st: State, places: seq<Place>, t: nat, ids: seq<string>) returns (moved: seq<Place>)
    requires Coherent(st, places) && PcOf(st, t).AwaitingReaper? && Distinct(ids) && forall id :: id in ids <==> id in st.pool
    ensures Coherent(At(DiscardAll(st, ids), t, Idle), moved) && DiscardAll(st, ids).pool == map[]
  {
    assert Elements(ids) == st.pool.Keys;
    moved := AllDiscarded(st, places, ids);
    MoveThread(DiscardAll(st, ids), moved, t, Idle);
  }
}
