/** What strings.TrimSpace and strings.TrimRight do around a barrier, for any pieces to cut off. */
module Trimming {
  import opened Classifier

  lemma {:induction false} SameKeep(end: Piece, t: string, a: nat, v: string, n: nat)
    requires a + n <= |t| && n <= |v|
    requires forall k: nat :: 0 < k <= n ==> end(v, k) <= k && end(t, a + k) == end(v, k)
    ensures Keep(end, t, a + n) == if Keep(end, v, n) == 0 then Keep(end, t, a) else a + Keep(end, v, n)
  {
    if n > 0 {
      var k := end(v, n);
      assert end(t, a + n) == k;
      if k > 0 {
        SameKeep(end, t, a, v, n - k);
      }
    }
  }

  lemma {:induction false} SamePrefixKeep(end: Piece, t: string, u: string, n: nat)
    requires n <= |t| && n <= |u| && forall k: nat :: k <= n ==> end(t, k) == end(u, k)
    ensures Keep(end, t, n) == Keep(end, u, n)
  {
    if 0 < end(u, n) <= n {
      SamePrefixKeep(end, t, u, n - end(u, n));
    }
  }

  lemma {:induction false} KeepOfRun(end: Piece, t: string, a: nat, n: nat)
    requires a + n <= |t| && forall k: nat :: a < k <= a + n ==> end(t, k) == 1
    ensures Keep(end, t, a + n) == Keep(end, t, a)
  {
    if n > 0 {
      KeepOfRun(end, t, a, n - 1);
    }
  }

  lemma {:induction false} SameSkip(start: Piece, t: string, u: string, i: nat)
    requires i <= |u| <= |t|
    requires forall k: nat :: i <= k < |u| ==> start(u, k) <= |u| - k && start(t, k) == start(u, k)
    ensures Skip(start, t, i) == if Skip(start, u, i) == |u| then Skip(start, t, |u|) else Skip(start, u, i)
    decreases |u| - i
  {
    if i < |u| {
      var k := start(u, i);
      assert start(t, i) == k;
      if k > 0 {
        SameSkip(start, t, u, i + k);
      }
    }
  }

  lemma {:induction false} SkipOfSuffix(start: Piece, t: string, a: nat, v: string, i: nat)
    requires a + |v| == |t| && i <= |v| && forall k: nat :: k <= |v| ==> start(t, a + k) == start(v, k)
    ensures Skip(start, t, a + i) == a + Skip(start, v, i)
    decreases |v| - i
  {
    var k := start(v, i);
    assert start(t, a + i) == k;
    if 0 < k <= |v| - i {
      SkipOfSuffix(start, t, a, v, i + k);
    }
  }

  lemma {:induction false} SkipOfRun(start: Piece, t: string, a: nat, n: nat)
    requires a + n <= |t| && forall k: nat :: a <= k < a + n ==> start(t, k) == 1
    ensures Skip(start, t, a) == Skip(start, t, a + n)
    decreases n
  {
    if n > 0 {
      SkipOfRun(start, t, a + 1, n - 1);
    }
  }

  lemma {:induction false} KeepStops(end: Piece, t: string, n: nat)
    requires n <= |t|
    ensures !(0 < end(t, Keep(end, t, n)) <= Keep(end, t, n))
  {
    if 0 < end(t, n) <= n {
      KeepStops(end, t, n - end(t, n));
    }
  }

  lemma {:induction false} SkipStops(start: Piece, t: string, i: nat)
    requires i <= |t|
    ensures !(0 < start(t, Skip(start, t, i)) <= |t| - Skip(start, t, i))
    decreases |t| - i
  {
    if 0 < start(t, i) <= |t| - i {
      SkipStops(start, t, i + start(t, i));
    }
  }
}
