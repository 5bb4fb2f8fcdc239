/** The session pool of internal/cluster/manager.go as a value, for one caller after another. */
module PoolView {
  import opened Sequences
  import opened RecencyList

  // ----- the pool as a value -----

  /** `used` falls strictly along the list. */
  ghost predicate Ordered(l: seq<string>, used: map<string, int>) {
    l == [] ||
    (l[0] in used && Ordered(l[1..], used) && forall x :: x in l[1..] ==> x in used && used[l[0]] > used[x])
  }

  lemma {:induction false} OrderedWithout(l: seq<string>, used: map<string, int>, id: string)
    requires Ordered(l, used)
    ensures Ordered(Without(l, id), used)
    decreases |l|
  {
    if l != [] {
      OrderedWithout(l[1..], used, id);
      assert ([l[0]] + Without(l[1..], id))[1..] == Without(l[1..], id);
    }
  }

  lemma {:induction false} OrderedTake(l: seq<string>, used: map<string, int>, n: nat)
    requires Ordered(l, used) && n <= |l|
    ensures Ordered(l[..n], used)
    decreases |l|
  {
    if n > 0 {
      OrderedTake(l[1..], used, n - 1);
      assert l[..n][1..] == l[1..][..n - 1];
    }
  }

  // Only the times of the listed IDs matter.
  lemma {:induction false} OrderedAgain(l: seq<string>, used: map<string, int>, later: map<string, int>)
    requires Ordered(l, used) && forall x :: x in l ==> x in later && x in used && later[x] == used[x]
    ensures Ordered(l, later)
    decreases |l|
  {
    if l != [] {
      OrderedAgain(l[1..], used, later);
    }
  }

  lemma {:induction false} LastIsOldest(l: seq<string>, used: map<string, int>)
    requires Ordered(l, used) && l != []
    ensures forall x :: x in l ==> x in used && used[l[|l| - 1]] <= used[x]
    ensures forall x :: x in l[..|l| - 1] ==> used[l[|l| - 1]] < used[x]
    decreases |l|
  {
    if |l| > 1 {
      LastIsOldest(l[1..], used);
      assert l[1..][|l| - 2] == l[|l| - 1];
      assert l == [l[0]] + l[1..] && l[..|l| - 1] == [l[0]] + l[1..][..|l| - 2];
    }
  }

  lemma {:induction false} OldestIsLast(l: seq<string>, used: map<string, int>, id: string)
    requires Ordered(l, used) && id in l && id in used && NoneBefore(used, {}, used[id])
    ensures id == l[|l| - 1]
  {
    LastIsOldest(l, used);
    assert l == l[..|l| - 1] + [l[|l| - 1]];
    assert l[|l| - 1] in l;
  }

  /** No ID outside `todo` was used before `at`. */
  ghost predicate NoneBefore(used: map<string, int>, todo: set<string>, at: int) {
    forall id :: id in used && id !in todo ==> at <= used[id]
  }

  /** The listed IDs used at `cutoff` or later: a prefix of the list. */
  function Recent(l: seq<string>, used: map<string, int>, cutoff: int): (r: seq<string>)
    ensures r <= l
  {
    if l == [] || l[0] !in used || used[l[0]] < cutoff then []
    else [l[0]] + Recent(l[1..], used, cutoff)
  }

  lemma {:induction false} RecentExactly(l: seq<string>, used: map<string, int>, cutoff: int)
    requires Ordered(l, used) && NoDuplicates(l)
    ensures var r := Recent(l, used, cutoff);
      NoDuplicates(r) && Ordered(r, used) && forall x :: x in r <==> x in l && x in used && used[x] >= cutoff
    decreases |l|
  {
    if l != [] {
      RecentExactly(l[1..], used, cutoff);
      assert ([l[0]] + Recent(l[1..], used, cutoff))[1..] == Recent(l[1..], used, cutoff);
    }
  }

  // Two lists of the same IDs, both by recency, are the same list.
  lemma {:induction false} OrderedUnique(l: seq<string>, r: seq<string>, used: map<string, int>)
    requires Ordered(l, used) && Ordered(r, used) && forall x :: x in l <==> x in r
    ensures l == r
    decreases |l|
  {
    if l == [] {
      Inhabited(r);
    } else {
      assert l[0] in l && l[0] in r && r[0] in r;
      HeadNotAfter(l, used);
      HeadNotAfter(r, used);
      assert l[0] == r[0];
      forall x ensures x in l[1..] <==> x in r[1..] {
        TailHas(l, x);
        TailHas(r, x);
      }
      OrderedUnique(l[1..], r[1..], used);
    }
  }

  lemma Inhabited(l: seq<string>)
    ensures l == [] || exists x :: x in l
  {
    assert l == [] || l[0] in l;
  }

  lemma TailHas(l: seq<string>, x: string)
    requires l != [] && l[0] !in l[1..]
    ensures x in l[1..] <==> x in l && x != l[0]
  {
    HeadTail(l);
  }

  lemma HeadNotAfter(l: seq<string>, used: map<string, int>)
    requires Ordered(l, used) && l != []
    ensures l[0] !in l[1..]
    ensures forall x :: x in l && x != l[0] ==> x in used && used[x] < used[l[0]]
  {
    HeadTail(l);
  }

  /** What a caller can observe: the IDs by recency, when each was last used, the session of each, the
      sessions closed so far, and how many were created. */
  datatype View = View(mru: seq<string>, used: map<string, int>, live: map<string, nat>, closed: seq<nat>, created: nat)

  const EMPTY := View([], map[], map[], [], 0)

  /** No session is listed twice. */
  predicate Once(l: seq<nat>) {
    l == [] || (l[|l| - 1] !in l[..|l| - 1] && Once(l[..|l| - 1]))
  }

  /** The list is that of the pooled IDs, by recency. */
  ghost predicate Listed(v: View) {
    NoDuplicates(v.mru) && Ordered(v.mru, v.used) && forall x :: x in v.mru <==> x in v.used
  }

  /** Sessions are numbered as they are created.  None is pooled twice, closed twice, or pooled and closed. */
  ghost predicate Accounted(v: View) {
    && v.live.Keys <= v.used.Keys && Once(v.closed)
    && (forall id :: id in v.live ==> v.live[id] < v.created && v.live[id] !in v.closed)
    && (forall id, other :: id in v.live && other in v.live && id != other ==> v.live[id] != v.live[other])
    && (forall s :: s in v.closed ==> s < v.created)
  }

  ghost predicate Kept(v: View, s: nat) {
    s in v.closed || exists id :: id in v.live && v.live[id] == s
  }

  /** Every created session is pooled or closed. */
  ghost predicate NoneLost(v: View) {
    forall s: nat :: s < v.created ==> Kept(v, s)
  }

  /** What holds whatever the IDs are and however the clock runs: the list is that of the pooled IDs, every entry has a
      session, and every session is accounted for. */
  ghost predicate Sound(v: View) {
    && NoDuplicates(v.mru) && (forall x :: x in v.mru <==> x in v.used)
    && Accounted(v) && NoneLost(v) && v.live.Keys == v.used.Keys
  }

  ghost predicate Good(v: View, cap: nat) {
    && Listed(v) && Accounted(v) && NoneLost(v)
    && v.live.Keys == v.used.Keys && "" !in v.used && |v.mru| <= cap
  }

  /** The entry for `id` is removed and its session closed. */
  function Remove(v: View, id: string): View {
    if id !in v.used then v
    else View(Without(v.mru, id), v.used - {id}, v.live - {id},
              if id in v.live then v.closed + [v.live[id]] else v.closed, v.created)
  }

  function RemoveAll(v: View, ids: seq<string>): View
    decreases |ids|
  {
    if ids == [] then v else Remove(RemoveAll(v, ids[..|ids| - 1]), ids[|ids| - 1])
  }

  function MakeRoom(v: View, cap: nat): View {
    if |v.mru| >= cap && v.mru != [] then Remove(v, v.mru[|v.mru| - 1]) else v
  }

  /** The entry for `id` exists: for a new one room is made first. */
  function Entered(v: View, cap: nat, id: string, now: int): View {
    if id in v.used then v
    else var room := MakeRoom(v, cap); room.(mru := [id] + room.mru, used := room.used[id := now])
  }

  /** The entry for `id` exists: for a new one in a full pool the entry for `victim` is evicted, unless that is the empty ID. */
  function EnteredFor(v: View, cap: nat, id: string, now: int, victim: string): View {
    if id in v.used then v
    else
      var room := if |v.mru| >= cap && victim != "" then Remove(v, victim) else v;
      room.(mru := [id] + room.mru, used := room.used[id := now])
  }

  /** A Get that evicts `victim` if it has to make room. */
  function GotFor(v: View, cap: nat, id: string, ok: bool, now: int, later: int, victim: string): View {
    Served(EnteredFor(v, cap, id, now, victim), id, ok, later)
  }

  /** No ID was used before `victim`. */
  ghost predicate Oldest(used: map<string, int>, victim: string) {
    victim in used && NoneBefore(used, {}, used[victim])
  }

  function Connected(v: View, id: string): View {
    v.(live := v.live[id := v.created], created := v.created + 1)
  }

  function Touched(v: View, id: string, now: int): View {
    v.(mru := [id] + Without(v.mru, id), used := v.used[id := now])
  }

  /** An entry with a session is touched; one without is connected and touched, or else removed. */
  function Served(v: View, id: string, ok: bool, now: int): View {
    if id in v.live then Touched(v, id, now)
    else if ok then Touched(Connected(v, id), id, now)
    else Remove(v, id)
  }

  /** A Get finds or makes the entry at time `now` and serves it at `later`. */
  function Got(v: View, cap: nat, id: string, ok: bool, now: int, later: int): View {
    Served(Entered(v, cap, id, now), id, ok, later)
  }

  // ----- every operation keeps the pool good -----

  lemma {:induction false} RemoveListed(v: View, id: string)
    requires Listed(v)
    ensures Listed(Remove(v, id))
  {
    if id in v.used {
      OrderedWithout(v.mru, v.used, id);
      WithoutShrinks(v.mru, id);
      OrderedAgain(Without(v.mru, id), v.used, v.used - {id});
    }
  }

  lemma {:induction false} OnceMore(l: seq<nat>, s: nat)
    requires Once(l) && s !in l
    ensures Once(l + [s])
  {
    assert (l + [s])[..|l|] == l;
  }

  lemma {:induction false} RemoveAccounted(v: View, id: string)
    requires Accounted(v)
    ensures Accounted(Remove(v, id))
  {
    if id in v.live {
      OnceMore(v.closed, v.live[id]);
    }
  }

  lemma {:induction false} RemoveKept(v: View, id: string, s: nat)
    requires Accounted(v) && Kept(v, s)
    ensures Kept(Remove(v, id), s)
  {
    if s !in v.closed {
      var other :| other in v.live && v.live[other] == s;
      if id in v.used && other != id {
        assert other in Remove(v, id).live;
      }
    }
  }

  lemma {:induction false} RemoveGood(v: View, cap: nat, id: string)
    requires Good(v, cap)
    ensures Good(Remove(v, id), cap)
  {
    RemoveListed(v, id);
    RemoveAccounted(v, id);
    forall s: nat | s < v.created ensures Kept(Remove(v, id), s) { RemoveKept(v, id, s); }
  }

  lemma {:induction false} RemoveSound(v: View, id: string)
    requires Sound(v)
    ensures Sound(Remove(v, id))
  {
    WithoutShrinks(v.mru, id);
    RemoveAccounted(v, id);
    forall s: nat | s < v.created ensures Kept(Remove(v, id), s) { RemoveKept(v, id, s); }
  }

  lemma {:induction false} RemoveAllSound(v: View, ids: seq<string>)
    requires Sound(v)
    ensures Sound(RemoveAll(v, ids))
    decreases |ids|
  {
    if ids != [] {
      RemoveAllSound(v, ids[..|ids| - 1]);
      RemoveSound(RemoveAll(v, ids[..|ids| - 1]), ids[|ids| - 1]);
    }
  }

  lemma {:induction false} TouchedSound(v: View, id: string, now: int)
    requires Sound(v) && id in v.used
    ensures Sound(Touched(v, id, now))
  {
    var w := Without(v.mru, id);
    WithoutShrinks(v.mru, id);
    assert ([id] + w)[1..] == w;
    assert v.used[id := now].Keys == v.used.Keys;
    forall s: nat | s < v.created ensures Kept(Touched(v, id, now), s) { assert Kept(v, s); }
  }

  lemma {:induction false} AddedSound(room: View, id: string, now: int)
    requires Sound(room) && id !in room.used
    ensures Sound(Touched(Connected(room, id), id, now))
  {
    var w := Touched(Connected(room, id), id, now);
    WithoutHead(room.mru, id);
    assert w.mru[1..] == room.mru;
    AddedAccounted(room, id, now);
    forall s: nat | s < w.created ensures Kept(w, s) { AddedKept(room, id, now, s); }
  }

  lemma {:induction false} ServedSound(room: View, id: string, ok: bool, now: int, later: int)
    requires Sound(room) && id !in room.used
    ensures Sound(Served(room.(mru := [id] + room.mru, used := room.used[id := now]), id, ok, later))
  {
    if ok {
      NewConnect(room, id, now, later);
      AddedSound(room, id, later);
    } else {
      FailedConnect(room, id, now);
    }
  }

  /** A Get keeps the pool sound, whatever ID it is for, whatever the clock says and whatever is evicted. */
  lemma {:induction false} GotSound(v: View, cap: nat, id: string, ok: bool, now: int, later: int, victim: string)
    requires Sound(v)
    ensures Sound(GotFor(v, cap, id, ok, now, later, victim))
  {
    if id in v.used {
      TouchedSound(v, id, later);
    } else {
      RemoveSound(v, victim);
      ServedSound(if |v.mru| >= cap && victim != "" then Remove(v, victim) else v, id, ok, now, later);
    }
  }

  /** With non-empty IDs and a clock that rises, the entry evicted is the last of the list. */
  lemma {:induction false} GotInOrder(v: View, cap: nat, id: string, ok: bool, now: int, later: int, victim: string)
    requires Good(v, cap) && cap > 0 && (id !in v.used && |v.mru| >= cap ==> Oldest(v.used, victim))
    ensures GotFor(v, cap, id, ok, now, later, victim) == Got(v, cap, id, ok, now, later)
  {
    if id !in v.used && |v.mru| >= cap {
      OldestIsLast(v.mru, v.used, victim);
    }
  }

  /** Removing entries keeps the pool good, and what is left keeps its order. */
  lemma {:induction false} RemoveAllGood(v: View, cap: nat, ids: seq<string>)
    requires Good(v, cap)
    ensures var w := RemoveAll(v, ids);
      Good(w, cap) && Ordered(w.mru, v.used) && forall x :: x in w.mru <==> x in v.mru && x !in ids
    decreases |ids|
  {
    if ids != [] {
      var rest, last := ids[..|ids| - 1], ids[|ids| - 1];
      RemoveAllGood(v, cap, rest);
      RemoveGood(RemoveAll(v, rest), cap, last);
      FrontLast(ids);
      OrderedWithout(RemoveAll(v, rest).mru, v.used, last);
    }
  }

  /** These are the IDs last used before `cutoff`. */
  ghost predicate AllStale(used: map<string, int>, ids: seq<string>, cutoff: int) {
    forall x :: x in ids <==> x in used && used[x] < cutoff
  }

  /** Removing what was last used before `cutoff` removes a suffix of the list. */
  lemma {:induction false} RemoveStale(v: View, cap: nat, ids: seq<string>, cutoff: int)
    requires Good(v, cap) && AllStale(v.used, ids, cutoff)
    ensures RemoveAll(v, ids).mru == Recent(v.mru, v.used, cutoff)
  {
    RemoveAllGood(v, cap, ids);
    RecentExactly(v.mru, v.used, cutoff);
    OrderedUnique(RemoveAll(v, ids).mru, Recent(v.mru, v.used, cutoff), v.used);
  }

  lemma {:induction false} RemoveAllTimes(v: View, ids: seq<string>, now: int)
    requires Before(v, now)
    ensures Before(RemoveAll(v, ids), now)
    decreases |ids|
  {
    if ids != [] {
      RemoveAllTimes(v, ids[..|ids| - 1], now);
    }
  }

  // The loop of reap: the entries `gone` were dropped, those in `todo` are still to be looked at.
  ghost predicate Reaping(v: View, w: View, gone: seq<string>, todo: set<string>, cutoff: int) {
    && w == RemoveAll(v, gone) && todo <= w.used.Keys && w.live.Keys == w.used.Keys
    && (forall id :: id in w.used <==> id in v.used && id !in gone)
    && (forall id :: id in w.used ==> w.used[id] == v.used[id])
    && (forall id :: id in gone <==> id in v.used && id !in todo && v.used[id] < cutoff)
  }

  lemma {:induction false} ReapStart(v: View, cutoff: int)
    requires v.live.Keys == v.used.Keys
    ensures Reaping(v, v, [], v.used.Keys, cutoff)
  {
  }

  lemma {:induction false} ReapKeep(v: View, w: View, gone: seq<string>, todo: set<string>, cutoff: int, id: string)
    requires Reaping(v, w, gone, todo, cutoff) && id in todo && w.used[id] >= cutoff
    ensures Reaping(v, w, gone, todo - {id}, cutoff)
  {
  }

  lemma {:induction false} ReapDrop(v: View, w: View, gone: seq<string>, todo: set<string>, cutoff: int, id: string)
    requires Reaping(v, w, gone, todo, cutoff) && id in todo && w.used[id] < cutoff
    ensures Reaping(v, Remove(w, id), gone + [id], todo - {id}, cutoff)
  {
    assert (gone + [id])[..|gone|] == gone;
    assert forall x :: x in gone + [id] <==> x in gone || x == id;
  }

  lemma {:induction false} Reaped(v: View, w: View, gone: seq<string>, cutoff: int, cap: nat, now: int)
    requires GoodAt(v, cap, now) && w == RemoveAll(v, gone) && AllStale(v.used, gone, cutoff)
    ensures GoodAt(w, cap, now) && w.mru == Recent(v.mru, v.used, cutoff)
  {
    RemoveAllGood(v, cap, gone);
    RemoveAllTimes(v, gone, now + 1);
    RemoveStale(v, cap, gone, cutoff);
  }

  /** Exactly what was last used before `cutoff` is gone, the end of the list if the pool was in order of use. */
  ghost predicate Swept(v: View, w: View, gone: seq<string>, cutoff: int, cap: nat, now: int) {
    && Sound(w) && w == RemoveAll(v, gone) && AllStale(v.used, gone, cutoff)
    && (GoodAt(v, cap, now) ==> GoodAt(w, cap, now) && w.mru == Recent(v.mru, v.used, cutoff))
  }

  lemma {:induction false} ReapEnd(v: View, w: View, gone: seq<string>, cutoff: int, cap: nat, now: int)
    requires Sound(v) && Reaping(v, w, gone, {}, cutoff)
    ensures Swept(v, w, gone, cutoff, cap, now)
  {
    RemoveAllSound(v, gone);
    if GoodAt(v, cap, now) {
      Reaped(v, w, gone, cutoff, cap, now);
    }
  }

  // A pool without entries lists none and has closed every session it created.
  lemma {:induction false} EmptyIsClosed(v: View)
    requires Sound(v) && v.used == map[]
    ensures v.mru == [] && Once(v.closed) && forall s: nat :: s in v.closed <==> s < v.created
  {
    Inhabited(v.mru);
    forall s: nat | s < v.created ensures s in v.closed { assert Kept(v, s); }
  }

  // Dropping the last of a list is cutting it off.
  lemma {:induction false} WithoutLast(l: seq<string>)
    requires NoDuplicates(l) && l != []
    ensures Without(l, l[|l| - 1]) == l[..|l| - 1]
    decreases |l|
  {
    var last := l[|l| - 1];
    if |l| > 1 {
      assert l[1..][|l| - 2] == last;
      WithoutLast(l[1..]);
      assert l[..|l| - 1] == [l[0]] + l[1..][..|l| - 2];
    } else {
      assert Without(l[1..], last) == [];
    }
  }

  lemma {:induction false} MakeRoomGood(v: View, cap: nat)
    requires Good(v, cap) && cap > 0
    ensures Good(MakeRoom(v, cap), cap - 1) && MakeRoom(v, cap).mru == Room(v.mru, cap)
  {
    if |v.mru| >= cap {
      var last := v.mru[|v.mru| - 1];
      WithoutLast(v.mru);
      assert last in v.mru;
      RemoveGood(v, cap, last);
    }
  }

  ghost predicate Before(v: View, now: int) {
    forall x :: x in v.used ==> v.used[x] < now
  }

  /** The pool is good at the time `now`. */
  ghost predicate GoodAt(v: View, cap: nat, now: int) {
    cap > 0 && Good(v, cap) && Before(v, now + 1)
  }

  lemma {:induction false} TouchedListed(v: View, id: string, now: int)
    requires Listed(v) && Before(v, now)
    ensures Listed(Touched(v, id, now))
  {
    var w := Without(v.mru, id);
    OrderedWithout(v.mru, v.used, id);
    WithoutShrinks(v.mru, id);
    OrderedAgain(w, v.used, v.used[id := now]);
    assert ([id] + w)[1..] == w;
  }

  lemma {:induction false} TouchedGood(v: View, cap: nat, id: string, now: int)
    requires Good(v, cap) && Before(v, now) && id in v.used
    ensures Good(Touched(v, id, now), cap)
  {
    TouchedListed(v, id, now);
    WithoutShrinks(v.mru, id);
    assert id in v.mru;
    assert v.used[id := now].Keys == v.used.Keys;
    forall s: nat | s < v.created ensures Kept(Touched(v, id, now), s) { assert Kept(v, s); }
  }

  // A new entry with its session: `room` has a place left for it.
  lemma {:induction false} AddedGood(room: View, cap: nat, id: string, now: int)
    requires cap > 0 && Good(room, cap - 1) && Before(room, now) && id !in room.used && id != ""
    ensures Good(Touched(Connected(room, id), id, now), cap)
  {
    var w := Touched(Connected(room, id), id, now);
    TouchedListed(room, id, now);
    AddedAccounted(room, id, now);
    forall s: nat | s < w.created ensures Kept(w, s) { AddedKept(room, id, now, s); }
  }

  lemma {:induction false} AddedAccounted(room: View, id: string, now: int)
    requires Accounted(room) && id !in room.used
    ensures Accounted(Touched(Connected(room, id), id, now))
  {
  }

  lemma {:induction false} AddedKept(room: View, id: string, now: int, s: nat)
    requires Accounted(room) && id !in room.used && (s == room.created || Kept(room, s))
    ensures Kept(Touched(Connected(room, id), id, now), s)
  {
    var w := Touched(Connected(room, id), id, now);
    if s == room.created {
      assert w.live[id] == s;
    } else if s !in room.closed {
      var other :| other in room.live && room.live[other] == s;
      assert w.live[other] == s;
    }
  }

  // A connect that fails leaves only the room that was made, and one that succeeds adds the entry.
  lemma {:induction false} FailedConnect(room: View, id: string, now: int)
    requires id !in room.used && id !in room.mru && id !in room.live
    ensures Remove(room.(mru := [id] + room.mru, used := room.used[id := now]), id) == room
  {
    WithoutHead(room.mru, id);
    assert room.used[id := now] - {id} == room.used;
    assert room.live - {id} == room.live;
  }

  lemma {:induction false} NewConnect(room: View, id: string, now: int, later: int)
    requires id !in room.mru
    ensures var e := room.(mru := [id] + room.mru, used := room.used[id := now]);
      Touched(Connected(e, id), id, later) == Touched(Connected(room, id), id, later)
  {
    WithoutHead(room.mru, id);
    assert room.used[id := now][id := later] == room.used[id := later];
  }

  lemma WithoutHead(l: seq<string>, id: string)
    requires id !in l
    ensures Without([id] + l, id) == l && Without(l, id) == l
  {
    assert ([id] + l)[1..] == l;
  }

  /** A Get keeps the pool good.  It touches the list, except that a failed connect leaves the list with the
      room it made. */
  lemma {:induction false} GotGood(v: View, cap: nat, id: string, ok: bool, now: int, later: int)
    requires Good(v, cap) && cap > 0 && id != "" && Before(v, now) && now <= later
    ensures var w := Got(v, cap, id, ok, now, later);
      Good(w, cap) && w.mru == if id in v.used || ok then Touch(v.mru, id, cap) else Room(v.mru, cap)
  {
    if id in v.used {
      TouchedGood(v, cap, id, later);
    } else {
      MakeRoomGood(v, cap);
      GotNewGood(v, MakeRoom(v, cap), cap, id, ok, now, later);
    }
  }

  lemma {:induction false} GotNewGood(v: View, room: View, cap: nat, id: string, ok: bool, now: int, later: int)
    requires cap > 0 && Good(room, cap - 1) && id != "" && Before(room, now) && now <= later
    requires id !in v.used && room == MakeRoom(v, cap) && id !in room.used
    ensures var w := Got(v, cap, id, ok, now, later);
      Good(w, cap) && w.mru == if ok then [id] + room.mru else room.mru
  {
    if ok {
      NewConnect(room, id, now, later);
      assert Before(room, later);
      AddedGood(room, cap, id, later);
      WithoutHead(room.mru, id);
    } else {
      FailedConnect(room, id, now);
    }
  }

  lemma {:induction false} GotTimes(v: View, cap: nat, id: string, ok: bool, now: int, later: int)
    requires Good(v, cap) && cap > 0 && Before(v, now) && now <= later
    ensures Before(Got(v, cap, id, ok, now, later), later + 1)
  {
  }

  // ----- runs -----

  /** A request for the session of `id` that finds or makes its entry at time `now` and is served at `later`. */
  datatype Request = Request(id: string, now: int, later: int)

  function GotAll(cap: nat, requests: seq<Request>): View
    decreases |requests|
  {
    if requests == [] then EMPTY
    else
      var last := requests[|requests| - 1];
      Got(GotAll(cap, requests[..|requests| - 1]), cap, last.id, true, last.now, last.later)
  }

  function Ids(requests: seq<Request>): seq<string>
    decreases |requests|
  {
    if requests == [] then [] else Ids(requests[..|requests| - 1]) + [requests[|requests| - 1].id]
  }

  /** The clock rises from request to request up to `end`, and every request names a connection. */
  ghost predicate Timely(requests: seq<Request>, end: int)
    decreases |requests|
  {
    requests == [] ||
    (var last := requests[|requests| - 1];
     last.id != "" && last.now <= last.later < end && Timely(requests[..|requests| - 1], last.now))
  }

  /** After any run of successful Gets the pool is good and holds exactly the last `cap` distinct
      connections requested, by recency. */
  lemma {:induction false} PoolIsLastDistinct(cap: nat, requests: seq<Request>, end: int)
    requires cap > 0 && Timely(requests, end)
    ensures var v := GotAll(cap, requests);
      Good(v, cap) && Before(v, end) && v.mru == Take(LastDistinct(Ids(requests)), cap)
    decreases |requests|
  {
    RunIsTouchAll(cap, requests, end);
    BoundedListIsLastDistinct(Ids(requests), cap);
  }

  lemma {:induction false} RunIsTouchAll(cap: nat, requests: seq<Request>, end: int)
    requires cap > 0 && Timely(requests, end)
    ensures var v := GotAll(cap, requests); Good(v, cap) && Before(v, end) && v.mru == TouchAll(Ids(requests), cap)
    decreases |requests|
  {
    if requests != [] {
      var prefix, last := requests[..|requests| - 1], requests[|requests| - 1];
      RunIsTouchAll(cap, prefix, last.now);
      var v := GotAll(cap, prefix);
      GotGood(v, cap, last.id, true, last.now, last.later);
      GotTimes(v, cap, last.id, true, last.now, last.later);
      assert Ids(requests)[..|requests| - 1] == Ids(prefix) && Ids(requests)[|requests| - 1] == last.id by {
        IdsLength(prefix);
      }
    }
  }

  lemma {:induction false} IdsLength(requests: seq<Request>)
    ensures |Ids(requests)| == |requests|
    decreases |requests|
  {
    if requests != [] {
      IdsLength(requests[..|requests| - 1]);
    }
  }
}
