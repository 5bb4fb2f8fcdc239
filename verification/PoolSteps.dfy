/** The session pool of internal/cluster/manager.go under every interleaving.

    One step per lock region, and one for each action outside the lock: the beginning and the end of the
    once-only connect, and every deferred Close.  A victim of eviction or a set of idle entries is any that
    the loops could pick, because `lastUsed` is written without the lock while they run.
  */
module PoolSteps {
  import opened Options

  datatype Once = Fresh | Running(thread: nat) | Done

  /** A managedSession.  `calls` counts how often the body of `once` has run. */
  datatype Entry = Entry(connID: string, once: Once, session: Option<nat>, failed: bool, calls: nat)

  datatype Pc =
    | Idle
    | AtOnce(id: string, entry: nat)
    | Connecting(id: string, entry: nat)
    | AfterOnce(id: string, entry: nat)
    | Closing(entry: nat)
    | AwaitingReaper

  datatype Reaper = Waiting | Sweeping(stale: seq<nat>, next: nat) | Exited

  /** Entries, sessions and threads are numbered.  `owner` names the entry each session was created for,
      `closed` logs every call of Close.  `early` and `unseen` are history: the entries that were removed
      before their connect had ended, and those whose remover found no session to close. */
  datatype State = State(
    entries: seq<Entry>, pool: map<string, nat>, owner: seq<nat>, closed: seq<nat>,
    pcs: map<nat, Pc>, reaper: Reaper, stopped: bool, early: set<nat>, unseen: set<nat>)

  const INITIAL := State([], map[], [], [], map[], Waiting, false, {}, {})

  datatype Label =
    | GetEnter(t: nat, id: string, victim: string)
    | OnceBegin(t: nat)
    | OnceSkip(t: nat)
    | OnceEnd(t: nat, ok: bool)
    | Return(t: nat)
    | FailRemove(t: nat)
    | Invalidate(t: nat, id: string)
    | CloseRemoved(t: nat)
    | ReapPick(ids: seq<string>)
    | ReapClose
    | ReapRest
    | ReapExit
    | ShutBegin(t: nat)
    | ShutSweep(t: nat, ids: seq<string>)

  function PcOf(st: State, t: nat): Pc {
    if t in st.pcs then st.pcs[t] else Idle
  }

  function At(st: State, t: nat, pc: Pc): State {
    st.(pcs := st.pcs[t := pc])
  }

  // ----- what the lock regions are made of -----

  /** Removes the key from the map and notes whether the entry's connect was still to end. */
  function Drop(st: State, id: string): State
    requires id in st.pool && st.pool[id] < |st.entries|
  {
    var e := st.pool[id];
    st.(pool := st.pool - {id}, early := if st.entries[e].once == Done then st.early else st.early + {e})
  }

  /** Closes the entry's session if it has one by now. */
  function CloseEntry(st: State, e: nat): State
    requires e < |st.entries|
  {
    if st.entries[e].session.Some? then st.(closed := st.closed + [st.entries[e].session.value])
    else st.(unseen := st.unseen + {e})
  }

  /** Removal and Close under the lock, as in evictOldestLocked and Close. */
  function Discard(st: State, id: string): State
    requires id in st.pool && st.pool[id] < |st.entries|
  {
    CloseEntry(Drop(st, id), st.pool[id])
  }

  function DiscardAll(st: State, ids: seq<string>): State
    decreases |ids|
  {
    if ids == [] || !(ids[0] in st.pool && st.pool[ids[0]] < |st.entries|) then st
    else DiscardAll(Discard(st, ids[0]), ids[1..])
  }

  /** Moves an idle entry from the map to the reaper's list. */
  function Pick(st: State, id: string): State
    requires id in st.pool && st.pool[id] < |st.entries|
  {
    var stale := if st.reaper.Sweeping? then st.reaper.stale else [];
    Drop(st, id).(reaper := Sweeping(stale + [st.pool[id]], 0))
  }

  function PickAll(st: State, ids: seq<string>): State
    decreases |ids|
  {
    if ids == [] || !(ids[0] in st.pool && st.pool[ids[0]] < |st.entries|) then st
    else PickAll(Pick(st, ids[0]), ids[1..])
  }

  /** The map entry for `id` is removed; its session is closed by thread `t` after the unlock. */
  function RemoveFor(st: State, t: nat, id: string): State {
    if id in st.pool && st.pool[id] < |st.entries| then At(Drop(st, id), t, Closing(st.pool[id]))
    else At(st, t, Idle)
  }

  /** The lock region of entry(). */
  function Enter(st: State, cap: nat, t: nat, id: string, victim: string): State {
    if id in st.pool then At(st, t, AtOnce(id, st.pool[id]))
    else
      var room := if |st.pool| >= cap && victim in st.pool && victim != "" && st.pool[victim] < |st.entries|
                  then Discard(st, victim) else st;
      var e := |room.entries|;
      At(room.(entries := room.entries + [Entry(id, Fresh, None, false, 0)], pool := room.pool[id := e]), t, AtOnce(id, e))
  }

  function SetEntry(st: State, e: nat, entry: Entry): State
    requires e < |st.entries|
  {
    st.(entries := st.entries[e := entry])
  }

  function EndOnce(st: State, t: nat, ok: bool): State
    requires PcOf(st, t).Connecting? && PcOf(st, t).entry < |st.entries|
  {
    var pc := PcOf(st, t);
    var entry := st.entries[pc.entry];
    var ended :=
      if ok then SetEntry(st, pc.entry, entry.(session := Some(|st.owner|), once := Done)).(owner := st.owner + [pc.entry])
      else SetEntry(st, pc.entry, entry.(failed := true, once := Done));
    At(ended, t, AfterOnce(pc.id, pc.entry))
  }

  // ----- steps -----

  predicate Distinct(ids: seq<string>) {
    forall i, j :: 0 <= i < j < |ids| ==> ids[i] != ids[j]
  }

  ghost predicate Enabled(st: State, cap: nat, l: Label) {
    match l
    case GetEnter(t, id, victim) =>
      PcOf(st, t).Idle? && (id !in st.pool && |st.pool| >= cap && st.pool != map[] ==> victim in st.pool)
    case OnceBegin(t) =>
      PcOf(st, t).AtOnce? && PcOf(st, t).entry < |st.entries| && st.entries[PcOf(st, t).entry].once.Fresh?
    case OnceSkip(t) =>
      PcOf(st, t).AtOnce? && PcOf(st, t).entry < |st.entries| && st.entries[PcOf(st, t).entry].once.Done?
    case OnceEnd(t, _) => PcOf(st, t).Connecting? && PcOf(st, t).entry < |st.entries|
    case Return(t) =>
      PcOf(st, t).AfterOnce? && PcOf(st, t).entry < |st.entries| && !st.entries[PcOf(st, t).entry].failed
    case FailRemove(t) =>
      PcOf(st, t).AfterOnce? && PcOf(st, t).entry < |st.entries| && st.entries[PcOf(st, t).entry].failed
    case Invalidate(t, _) => PcOf(st, t).Idle?
    case CloseRemoved(t) => PcOf(st, t).Closing? && PcOf(st, t).entry < |st.entries|
    case ReapPick(ids) =>
      && st.reaper.Waiting? && Distinct(ids)
      && forall id :: id in ids ==>
        id in st.pool && st.pool[id] < |st.entries| && st.entries[st.pool[id]].session.Some?
    case ReapClose =>
      st.reaper.Sweeping? && st.reaper.next < |st.reaper.stale| && st.reaper.stale[st.reaper.next] < |st.entries|
    case ReapRest => st.reaper.Sweeping? && st.reaper.next == |st.reaper.stale|
    case ReapExit => st.reaper.Waiting? && st.stopped
    case ShutBegin(t) => PcOf(st, t).Idle?
    case ShutSweep(t, ids) =>
      PcOf(st, t).AwaitingReaper? && st.reaper.Exited? && Distinct(ids) && forall id :: id in ids <==> id in st.pool
  }

  function Do(st: State, cap: nat, l: Label): State
    requires Enabled(st, cap, l)
  {
    match l
    case GetEnter(t, id, victim) => Enter(st, cap, t, id, victim)
    case OnceBegin(t) =>
      var pc := PcOf(st, t);
      var entry := st.entries[pc.entry];
      At(SetEntry(st, pc.entry, entry.(once := Running(t), calls := entry.calls + 1)), t, Connecting(pc.id, pc.entry))
    case OnceSkip(t) => At(st, t, AfterOnce(PcOf(st, t).id, PcOf(st, t).entry))
    case OnceEnd(t, ok) => EndOnce(st, t, ok)
    case Return(t) => At(st, t, Idle)
    case FailRemove(t) => RemoveFor(st, t, PcOf(st, t).id)
    case Invalidate(t, id) => RemoveFor(st, t, id)
    case CloseRemoved(t) => At(CloseEntry(st, PcOf(st, t).entry), t, Idle)
    case ReapPick(ids) => PickAll(st, ids)
    case ReapClose =>
      CloseEntry(st, st.reaper.stale[st.reaper.next]).(reaper := Sweeping(st.reaper.stale, st.reaper.next + 1))
    case ReapRest => st.(reaper := Waiting)
    case ReapExit => st.(reaper := Exited)
    case ShutBegin(t) => if st.stopped then st else At(st.(stopped := true), t, AwaitingReaper)
    case ShutSweep(t, ids) => At(DiscardAll(st, ids), t, Idle)
  }

  /** A step that is not enabled changes nothing. */
  ghost function Step(st: State, cap: nat, l: Label): State {
    if Enabled(st, cap, l) then Do(st, cap, l) else st
  }

  ghost function Run(cap: nat, ls: seq<Label>): State {
    if ls == [] then INITIAL else Step(Run(cap, ls[..|ls| - 1]), cap, ls[|ls| - 1])
  }

  // ----- where every entry is -----

  /** Where an entry is: in the map, held by a thread or by the reaper for closing, closed, or given up. */
  datatype Place = InPool | ByThread(t: nat) | ByReaper(i: nat) | ClosedAt(i: nat) | Unseen

  ghost predicate PlaceOf(st: State, e: nat, p: Place)
    requires e < |st.entries|
  {
    match p
    case InPool => st.entries[e].connID in st.pool && st.pool[st.entries[e].connID] == e
    case ByThread(t) => t in st.pcs && st.pcs[t] == Closing(e)
    case ByReaper(i) => st.reaper.Sweeping? && st.reaper.next <= i < |st.reaper.stale| && st.reaper.stale[i] == e
    case ClosedAt(i) => i < |st.closed| && st.entries[e].session == Some(st.closed[i])
    case Unseen => e in st.unseen
  }

  // Every entry is at its place, and whoever has an entry is its place.
  ghost predicate Placed(st: State, places: seq<Place>) {
    && |places| == |st.entries|
    && (forall e: nat :: e < |st.entries| ==> PlaceOf(st, e, places[e]))
    && (forall id :: id in st.pool ==>
      st.pool[id] < |places| && st.entries[st.pool[id]].connID == id && places[st.pool[id]] == InPool)
    && (forall t :: t in st.pcs && st.pcs[t].Closing? ==>
      st.pcs[t].entry < |places| && places[st.pcs[t].entry] == ByThread(t))
    && (st.reaper.Sweeping? ==> st.reaper.next <= |st.reaper.stale|)
    && (st.reaper.Sweeping? ==> forall i: nat :: st.reaper.next <= i < |st.reaper.stale| ==>
      st.reaper.stale[i] < |places| && places[st.reaper.stale[i]] == ByReaper(i))
    && (forall i: nat :: i < |st.closed| ==>
      st.closed[i] < |st.owner| && st.owner[st.closed[i]] < |places| && places[st.owner[st.closed[i]]] == ClosedAt(i))
    && (forall e :: e in st.unseen ==> e < |places| && places[e] == Unseen)
  }

  ghost predicate EntryOk(st: State, e: nat)
    requires e < |st.entries|
  {
    var entry := st.entries[e];
    match entry.once
    case Fresh => entry.session.None? && !entry.failed && entry.calls == 0
    case Running(t) =>
      && entry.session.None? && !entry.failed && entry.calls == 1
      && PcOf(st, t) == Connecting(entry.connID, e)
    case Done =>
      && entry.failed == entry.session.None? && entry.calls == 1
      && (entry.session.Some? ==> entry.session.value < |st.owner| && st.owner[entry.session.value] == e)
  }

  ghost predicate ThreadOk(st: State, t: nat) {
    match PcOf(st, t)
    case AtOnce(id, e) => e < |st.entries| && st.entries[e].connID == id
    case Connecting(id, e) => e < |st.entries| && st.entries[e].connID == id && st.entries[e].once == Running(t)
    case AfterOnce(id, e) => e < |st.entries| && st.entries[e].connID == id && st.entries[e].once == Done
    case _ => true
  }

  ghost predicate SessionOk(st: State, s: nat)
    requires s < |st.owner|
  {
    st.owner[s] < |st.entries| && st.entries[st.owner[s]].session == Some(s)
  }

  // An entry whose remover has found or may still find no session was removed early, or its connect failed.
  ghost predicate HistoryOk(st: State, places: seq<Place>, e: nat)
    requires e < |st.entries| == |places|
  {
    && (places[e].Unseen? ==> e in st.early || st.entries[e].failed)
    && (places[e].ByThread? && st.entries[e].session.None? ==> e in st.early || st.entries[e].failed)
    && (places[e].ByReaper? ==> st.entries[e].session.Some?)
  }

  ghost predicate Coherent(st: State, places: seq<Place>) {
    && Placed(st, places)
    && (forall e: nat :: e < |st.entries| ==> EntryOk(st, e) && HistoryOk(st, places, e))
    && (forall t: nat :: ThreadOk(st, t))
    && (forall s: nat :: s < |st.owner| ==> SessionOk(st, s))
  }
}
