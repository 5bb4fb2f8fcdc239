/** The migration runner of internal/metastore/db.go: interrupted anywhere and started again. */
module Migrations {
  /** What survives a crash: the versions recorded, and the scripts whose transactions committed, in order. */
  datatype Store = Store(recorded: set<int>, ran: seq<int>)

  const NEW := Store({}, [])

  /** One run over the files, `applied` being the versions found recorded at its start.  Each script commits together
      with its version, which must not be recorded yet; after `limit` transactions the process stops or fails. */
  function Step(s: Store, applied: set<int>, versions: seq<int>, limit: nat): Store
    decreases |versions|
  {
    if versions == [] then s
    else if versions[0] in applied then Step(s, applied, versions[1..], limit)
    else if limit == 0 || versions[0] in s.recorded then s
    else Step(Store(s.recorded + {versions[0]}, s.ran + [versions[0]]), applied, versions[1..], limit - 1)
  }

  function Run(s: Store, versions: seq<int>, limit: nat): Store {
    Step(s, s.recorded, versions, limit)
  }

  /** One run after another, each with its own end. */
  function Runs(s: Store, versions: seq<int>, limits: seq<nat>): Store
    decreases |limits|
  {
    if limits == [] then s
    else Run(Runs(s, versions, limits[..|limits| - 1]), versions, limits[|limits| - 1])
  }

  class Database {
    var recorded: set<int>
    var ran: seq<int>

    function Contents(): Store
      reads this
    {
      Store(recorded, ran)
    }

    constructor ()
      ensures Contents() == NEW
    {
      recorded := {};
      ran := [];
    }

    /** applyMigrations, once its files are sorted.  `done` says that it did not return an error. */
    method ApplyMigrations(versions: seq<int>, limit: nat) returns (done: bool)
      modifies this
      ensures Contents() == Run(old(Contents()), versions, limit)
      ensures done ==> forall v :: v in versions ==> v in recorded
      ensures Rising(versions) && !done ==> exists v :: v in versions && v !in recorded
    {
      var applied := recorded;
      var left := limit;
      ghost var start := Contents();
      for i := 0 to |versions|
        invariant Step(start, applied, versions, limit) == Step(Contents(), applied, versions[i..], left)
        invariant applied <= recorded && forall j :: 0 <= j < i ==> versions[j] in recorded
        invariant forall v :: v in recorded && v !in applied ==> v in versions[..i]
      {
        var v := versions[i];
        assert versions[i..][0] == v && versions[i..][1..] == versions[i + 1..];
        assert versions[..i + 1] == versions[..i] + [v];
        if v !in applied {
          if left == 0 || v in recorded {
            return false;
          }
          recorded, ran := recorded + {v}, ran + [v];
          left := left - 1;
        }
      }
      return true;
    }
  }

  // ----- every run of runs -----

  /** The versions rise strictly, as sorted files with distinct versions do. */
  ghost predicate Rising(versions: seq<int>) {
    forall i, j :: 0 <= i < j < |versions| ==> versions[i] < versions[j]
  }

  ghost function AsSet(versions: seq<int>): set<int> {
    set v | v in versions
  }

  /** The first `n` versions ran, in order, and are the ones recorded. */
  ghost predicate Progress(s: Store, versions: seq<int>, n: nat) {
    n <= |versions| && s == Store(AsSet(versions[..n]), versions[..n])
  }

  // A run passes over what it finds recorded.
  lemma {:induction false} Passes(s: Store, applied: set<int>, versions: seq<int>, k: nat, limit: nat)
    requires k <= |versions| && forall j :: 0 <= j < k ==> versions[j] in applied
    ensures Step(s, applied, versions, limit) == Step(s, applied, versions[k..], limit)
    decreases k
  {
    if k > 0 {
      Passes(s, applied, versions[1..], k - 1, limit);
      assert versions[1..][k - 1..] == versions[k..];
    } else {
      assert versions[0..] == versions;
    }
  }

  function Min(a: nat, b: nat): nat {
    if a < b then a else b
  }

  // From there on it runs as many as it can.
  lemma {:induction false} Continues(s: Store, applied: set<int>, versions: seq<int>, n: nat, limit: nat)
    requires Rising(versions) && Progress(s, versions, n) && forall j :: n <= j < |versions| ==> versions[j] !in applied
    ensures Progress(Step(s, applied, versions[n..], limit), versions, Min(n + limit, |versions|))
    decreases |versions| - n
  {
    if n < |versions| && limit > 0 {
      var v := versions[n];
      assert versions[n..][0] == v && versions[n..][1..] == versions[n + 1..];
      assert versions[..n + 1] == versions[..n] + [v];
      assert AsSet(versions[..n + 1]) == AsSet(versions[..n]) + {v};
      assert v !in versions[..n];
      Continues(Store(s.recorded + {v}, s.ran + [v]), applied, versions, n + 1, limit - 1);
    }
  }

  lemma {:induction false} RunProgress(s: Store, versions: seq<int>, n: nat, limit: nat)
    requires Rising(versions) && Progress(s, versions, n)
    ensures Progress(Run(s, versions, limit), versions, Min(n + limit, |versions|))
  {
    forall j | 0 <= j < n ensures versions[j] in s.recorded {
      assert versions[..n][j] == versions[j];
    }
    Passes(s, s.recorded, versions, n, limit);
    Continues(s, s.recorded, versions, n, limit);
  }

  function Sum(limits: seq<nat>): nat {
    if limits == [] then 0 else Sum(limits[..|limits| - 1]) + limits[|limits| - 1]
  }

  /** However often it is interrupted, and after however many transactions, the scripts run once each and in ascending
      order; once the interrupted runs together have committed as many transactions as there are files, all have. */
  lemma {:induction false} EachOnceInOrder(versions: seq<int>, limits: seq<nat>)
    requires Rising(versions)
    ensures Progress(Runs(NEW, versions, limits), versions, Min(Sum(limits), |versions|))
    decreases |limits|
  {
    if limits == [] {
      assert versions[..0] == [] && AsSet([]) == {};
    } else {
      var front, last := limits[..|limits| - 1], limits[|limits| - 1];
      EachOnceInOrder(versions, front);
      RunProgress(Runs(NEW, versions, front), versions, Min(Sum(front), |versions|), last);
    }
  }
}
