/** The session pool of internal/cluster/manager.go, used by one caller after another. */
module SessionPool {
  import opened Sequences
  import opened Options
  import opened PoolView
  import opened RecencyList

  const DEFAULT_SESSIONS: nat := 50

  /** Fifteen minutes in nanoseconds. */
  const DEFAULT_TTL: nat := 15 * 60 * 1_000_000_000

  class ManagedSession {
    const connID: string
    var once: bool
    var session: Option<nat>
    var lastUsed: int

    constructor (connID: string, now: int)
      ensures this.connID == connID && !once && session == None && lastUsed == now
    {
      this.connID := connID;
      once := false;
      session := None;
      lastUsed := now;
    }
  }

  /** The manager.  `closed` logs the calls of Close on sessions and `created` counts the successes of the
      factory.  The ghost `view` adds the order of use. */
  class Manager {
    const maxSessions: nat
    const idleTTL: nat
    var sessions: map<string, ManagedSession>
    var stopped: bool
    var closed: seq<nat>
    var created: nat
    ghost var view: View

    ghost predicate Shown(id: string)
      requires id in sessions
      reads this, sessions[id]
    {
      && sessions[id].connID == id
      && id in view.used && sessions[id].lastUsed == view.used[id]
      && sessions[id].session == (if id in view.live then Some(view.live[id]) else None)
      && (sessions[id].once <==> id in view.live)
    }

    /** The entries and the count are those of the view. */
    ghost predicate Tracked()
      reads this, sessions.Values
    {
      && sessions.Keys == view.used.Keys && view.live.Keys <= view.used.Keys
      && (forall id :: id in sessions ==> Shown(id)) && created == view.created
    }

    ghost predicate Shows()
      reads this, sessions.Values
    {
      Tracked() && closed == view.closed
    }

    /** The fields show a sound view. */
    ghost predicate Valid()
      reads this, sessions.Values
    {
      maxSessions > 0 && Shows() && Sound(view)
    }

    // A cap or a TTL that is not positive stands for the default.
    constructor (maxSessions: int, idleTTL: int, ghost now: int)
      ensures Valid() && view == EMPTY && !stopped && GoodAt(view, this.maxSessions, now)
      ensures this.maxSessions == (if maxSessions <= 0 then 50 else maxSessions)
      ensures this.idleTTL == (if idleTTL <= 0 then 900_000_000_000 else idleTTL)
    {
      this.maxSessions := if maxSessions <= 0 then DEFAULT_SESSIONS else maxSessions;
      this.idleTTL := if idleTTL <= 0 then DEFAULT_TTL else idleTTL;
      sessions := map[];
      stopped := false;
      closed := [];
      created := 0;
      view := EMPTY;
    }

    // The loop of evictOldestLocked looks at the entries in any order; of those used equally long ago it finds any.
    method FindOldest() returns (oldestID: string)
      requires Shows() && sessions != map[]
      ensures Oldest(view.used, oldestID)
    {
      oldestID := "";
      var oldestAt := 0;
      var first := true;
      var todo := sessions.Keys;
      while todo != {}
        invariant todo <= view.used.Keys && (first ==> todo == view.used.Keys)
        invariant !first ==> oldestID in view.used && oldestAt == view.used[oldestID] && NoneBefore(view.used, todo, oldestAt)
        decreases todo
      {
        var id :| id in todo;
        assert Shown(id);
        var t := sessions[id].lastUsed;
        if first || t < oldestAt {
          oldestID := id;
          oldestAt := t;
          first := false;
        }
        todo := todo - {id};
      }
    }

    // Removes a least recently used entry and closes its session, unless it is the one for the empty ID.
    method EvictOldest() returns (ghost victim: string)
      requires Valid() && sessions != map[]
      modifies this`sessions, this`closed, this`view
      ensures Valid() && Oldest(old(view).used, victim)
      ensures view == (if victim == "" then old(view) else Remove(old(view), victim))
      ensures sessions.Keys <= old(sessions.Keys)
    {
      var oldestID := FindOldest();
      victim := oldestID;
      if oldestID == "" {
        return;
      }
      RemoveSound(view, oldestID);
      CloseAndDrop(oldestID);
    }

    method CloseAndDrop(connID: string)
      requires Shows() && connID in sessions
      modifies this`sessions, this`closed, this`view
      ensures Shows() && view == Remove(old(view), connID) && sessions == old(sessions) - {connID}
    {
      assert Shown(connID);
      if sessions[connID].session.Some? {
        closed := closed + [sessions[connID].session.value];
      }
      Drop(connID);
    }

    // Deletes the entry for `connID` from the map.
    method Drop(connID: string)
      requires Tracked()
      modifies this`sessions, this`view
      ensures Tracked() && view == Remove(old(view), connID) && sessions == old(sessions) - {connID}
    {
      sessions := sessions - {connID};
      view := Remove(view, connID);
      forall id | id in sessions ensures Shown(id) {
        assert old(Shown(id));
      }
    }

    // The entry for `connID`, or a placeholder for which room was made.
    method Entry(connID: string, now: int) returns (ms: ManagedSession, ghost victim: string)
      requires Valid()
      modifies this`sessions, this`closed, this`view
      ensures Shows() && view == EnteredFor(old(view), maxSessions, connID, now, victim)
      ensures connID !in old(view).used && |old(view).mru| >= maxSessions ==> Oldest(old(view).used, victim)
      ensures connID in sessions && ms == sessions[connID] && (ms in old(sessions.Values) || fresh(ms))
    {
      if connID in sessions {
        return sessions[connID], "";
      }
      victim := MakeRoomFor();
      ms := new ManagedSession(connID, now);
      Place(connID, ms, now);
    }

    method MakeRoomFor() returns (ghost victim: string)
      requires Valid()
      modifies this`sessions, this`closed, this`view
      ensures Valid() && sessions.Keys <= old(sessions.Keys)
      ensures view == (if |old(view).mru| >= maxSessions && victim != "" then Remove(old(view), victim) else old(view))
      ensures |old(view).mru| >= maxSessions ==> Oldest(old(view).used, victim)
    {
      victim := "";
      assert |view.mru| == |sessions| by {
        SameSize(view.mru, sessions.Keys);
      }
      if |sessions| >= maxSessions {
        victim := EvictOldest();
      }
    }

    // Puts a new entry without a session into the map.
    method Place(connID: string, ms: ManagedSession, ghost now: int)
      requires Shows() && connID !in sessions
      requires ms.connID == connID && !ms.once && ms.session == None && ms.lastUsed == now
      modifies this`sessions, this`view
      ensures Shows() && sessions == old(sessions)[connID := ms]
      ensures view == old(view).(mru := [connID] + old(view.mru), used := old(view.used)[connID := now])
    {
      sessions := sessions[connID := ms];
      view := view.(mru := [connID] + view.mru, used := view.used[connID := now]);
      forall id | id in sessions ensures Shown(id) {
        assert id != connID ==> old(Shown(id));
      }
    }

    // Removes the entry for `connID`, if there is one, and closes its session.
    method Forget(connID: string)
      requires Shows()
      modifies this`sessions, this`closed, this`view
      ensures Shows() && view == Remove(old(view), connID) && sessions == old(sessions) - {connID}
    {
      if connID !in sessions {
        return;
      }
      assert Shown(connID);
      var ms := sessions[connID];
      Drop(connID);
      if ms.session.Some? {
        closed := closed + [ms.session.value];
      }
    }

    method Invalidate(connID: string)
      requires Valid()
      modifies this`sessions, this`closed, this`view
      ensures Valid() && view == Remove(old(view), connID)
    {
      RemoveSound(view, connID);
      Forget(connID);
    }

    /** Get at two readings of the clock; `ok` is the outcome of the connect, if there is one.  A pooled session is
        returned without connecting, and a failed connect leaves no entry behind, yet its placeholder may have evicted
        another session, one that no other was used before.  If the IDs are not empty and the clock has risen since
        `before`, the pool stays within its cap and in order of use. */
    method Get(connID: string, ok: bool, now: int, later: int, ghost before: int) returns (r: Option<nat>, ghost victim: string)
      requires Valid()
      modifies this`sessions, this`closed, this`created, this`view, sessions.Values
      ensures Valid() && view == GotFor(old(view), maxSessions, connID, ok, now, later, victim)
      ensures connID !in old(view).used && |old(view).mru| >= maxSessions ==> Oldest(old(view).used, victim)
      ensures r == (if connID in old(view.live) then Some(old(view.live)[connID]) else if ok then Some(old(view.created)) else None)
      ensures GoodAt(old(view), maxSessions, before) && connID != "" && before < now <= later ==>
        GoodAt(view, maxSessions, later) && view == Got(old(view), maxSessions, connID, ok, now, later)
    {
      ghost var start := view;
      var ms;
      ms, victim := Entry(connID, now);
      r := Serve(connID, ms, ok, later);
      GotSound(start, maxSessions, connID, ok, now, later, victim);
      if GoodAt(start, maxSessions, before) && connID != "" && before < now <= later {
        GotInOrder(start, maxSessions, connID, ok, now, later, victim);
        GotGood(start, maxSessions, connID, ok, now, later);
        GotTimes(start, maxSessions, connID, ok, now, later);
      }
    }

    // The rest of Get, once the entry is there.
    method Serve(connID: string, ms: ManagedSession, ok: bool, now: int) returns (r: Option<nat>)
      requires Shows() && connID in sessions && sessions[connID] == ms
      modifies this`sessions, this`closed, this`created, this`view, ms
      ensures Shows() && view == Served(old(view), connID, ok, now)
      ensures r == (if connID in old(view.live) then Some(old(view.live)[connID]) else if ok then Some(old(view.created)) else None)
    {
      assert Shown(connID);
      if !ms.once && !ok {
        Forget(connID);
        return None;
      }
      if !ms.once {
        Connect(connID, ms);
      }
      TouchEntry(connID, ms, now);
      r := ms.session;
    }

    // The factory's next session becomes that of the entry.
    method Connect(connID: string, ms: ManagedSession)
      requires Shows() && connID in sessions && sessions[connID] == ms && !ms.once
      modifies this`created, this`view, ms`once, ms`session
      ensures Shows() && view == Connected(old(view), connID) && ms.session == Some(old(created))
    {
      assert Shown(connID);
      ms.once := true;
      ms.session := Some(created);
      created := created + 1;
      view := Connected(view, connID);
      forall id | id in sessions ensures Shown(id) {
        assert old(Shown(id));
      }
    }

    method TouchEntry(connID: string, ms: ManagedSession, now: int)
      requires Shows() && connID in sessions && sessions[connID] == ms
      modifies this`view, ms`lastUsed
      ensures Shows() && view == Touched(old(view), connID, now)
    {
      assert Shown(connID);
      ms.lastUsed := now;
      view := Touched(view, connID, now);
      forall id | id in sessions ensures Shown(id) {
        assert old(Shown(id));
      }
    }

    /** Removes and closes exactly what has been idle for longer than the TTL; in a pool in order of use that is the end
        of the list. */
    method Reap(now: int) returns (ghost gone: seq<string>, ghost cutoff: int)
      requires Valid()
      modifies this`sessions, this`closed, this`view
      ensures cutoff == now - idleTTL
      ensures Valid() && Swept(old(view), view, gone, cutoff, maxSessions, now)
    {
      var stale;
      var limit := now - idleTTL;
      cutoff := limit;
      stale, gone := DropStale(limit, now);
      CloseStale(stale);
    }

    // The second part of reap, outside the lock.
    method CloseStale(stale: seq<nat>)
      modifies this`closed
      ensures closed == old(closed) + stale
    {
      var i := 0;
      while i < |stale|
        invariant i <= |stale| && closed == old(closed) + stale[..i]
      {
        assert stale[..i + 1] == stale[..i] + [stale[i]];
        closed := closed + [stale[i]];
        i := i + 1;
      }
      assert stale[..i] == stale;
    }

    // The locked part of reap: the stale entries leave the map, their sessions are due to be closed.
    method DropStale(cutoff: int, ghost now: int) returns (stale: seq<nat>, ghost gone: seq<string>)
      requires Valid()
      modifies this`sessions, this`view
      ensures Tracked() && view.closed == closed + stale
      ensures Swept(old(view), view, gone, cutoff, maxSessions, now)
    {
      ghost var before := view;
      stale, gone := DropOlder(cutoff);
      ReapEnd(before, view, gone, cutoff, maxSessions, now);
    }

    method DropOlder(cutoff: int) returns (stale: seq<nat>, ghost gone: seq<string>)
      requires Shows() && view.live.Keys == view.used.Keys
      modifies this`sessions, this`view
      ensures Tracked() && Reaping(old(view), view, gone, {}, cutoff) && view.closed == closed + stale
    {
      stale, gone := [], [];
      var todo := sessions.Keys;
      ghost var before, kept := view, closed;
      ReapStart(view, cutoff);
      while todo != {}
        invariant Tracked() && Reaping(before, view, gone, todo, cutoff) && view.closed == kept + stale
        decreases todo
      {
        var id :| id in todo;
        var due;
        due, gone := DropIfStale(id, cutoff, before, gone, todo);
        Assoc(kept, stale, due);
        stale := stale + due;
        todo := todo - {id};
      }
    }

    method DropIfStale(id: string, cutoff: int, ghost before: View, ghost so: seq<string>, ghost todo: set<string>)
      returns (due: seq<nat>, ghost gone: seq<string>)
      requires Tracked() && id in todo && Reaping(before, view, so, todo, cutoff)
      modifies this`sessions, this`view
      ensures Tracked() && Reaping(before, view, gone, todo - {id}, cutoff) && view.closed == old(view.closed) + due
    {
      assert Shown(id);
      var ms := sessions[id];
      if ms.session.Some? && ms.lastUsed < cutoff {
        ReapDrop(before, view, so, todo, cutoff, id);
        due, gone := [ms.session.value], so + [id];
        Drop(id);
      } else {
        ReapKeep(before, view, so, todo, cutoff, id);
        due, gone := [], so;
      }
    }

    /** The first Close closes every session that is not closed yet and leaves the pool empty; later ones do nothing. */
    method Close()
      requires Valid()
      modifies this`stopped, this`sessions, this`closed, this`view
      ensures Valid() && stopped && (old(stopped) ==> view == old(view))
      ensures !old(stopped) ==> sessions == map[] && view.mru == [] && created == old(created) && old(closed) <= closed
      ensures !old(stopped) ==> Once(closed) && forall s: nat :: s in closed <==> s < created
    {
      if stopped {
        return;
      }
      stopped := true;
      CloseAll();
      EmptyIsClosed(view);
    }

    method CloseAll()
      requires Valid()
      modifies this`sessions, this`closed, this`view
      ensures Valid() && sessions == map[] && view.used == map[] && created == old(created) && old(closed) <= closed
    {
      while sessions != map[]
        invariant Valid() && created == old(created) && old(closed) <= closed
        decreases sessions.Keys
      {
        var id :| id in sessions;
        CloseOne(id);
      }
      assert view.used.Keys == {};
    }

    method CloseOne(id: string)
      requires Valid() && id in sessions
      modifies this`sessions, this`closed, this`view
      ensures Valid() && created == old(created) && old(closed) <= closed && sessions.Keys == old(sessions.Keys) - {id}
    {
      RemoveSound(view, id);
      CloseAndDrop(id);
    }

    /** Whether a session is pooled for the connection, and since when it has been idle. */
    method Status(connID: string) returns (pooled: bool, lastUsedAt: int)
      requires Valid()
      ensures pooled <==> connID in view.mru
      ensures pooled ==> lastUsedAt == view.used[connID]
    {
      if connID !in sessions {
        return false, 0;
      }
      assert Shown(connID);
      return sessions[connID].session.Some?, sessions[connID].lastUsed;
    }
  }
}
