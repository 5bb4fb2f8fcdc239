/** Most-recently-used lists, and what a bounded one remembers of a run of requests. */
module RecencyList {
  import opened Sequences

  predicate NoDuplicates(l: seq<string>) {
    l == [] || (l[0] !in l[1..] && NoDuplicates(l[1..]))
  }

  function Without(l: seq<string>, id: string): (r: seq<string>)
    ensures id !in r && |r| <= |l|
    ensures forall x :: x in r <==> x in l && x != id
    ensures id !in l ==> r == l
  {
    if l == [] then []
    else if l[0] == id then Without(l[1..], id)
    else [l[0]] + Without(l[1..], id)
  }

  function Take(l: seq<string>, n: nat): seq<string> {
    if |l| <= n then l else l[..n]
  }

  /** What is left of a full list once its last element has made room for another one. */
  function Room(l: seq<string>, cap: nat): seq<string> {
    if |l| >= cap > 0 then l[..|l| - 1] else l
  }

  /** The list after a request for `id`. */
  function Touch(l: seq<string>, id: string, cap: nat): seq<string> {
    [id] + (if id in l then Without(l, id) else Room(l, cap))
  }

  function TouchAll(requests: seq<string>, cap: nat): seq<string> {
    if requests == [] then []
    else Touch(TouchAll(requests[..|requests| - 1], cap), requests[|requests| - 1], cap)
  }

  /** The distinct IDs of a run of requests, the last requested one first. */
  function LastDistinct(requests: seq<string>): seq<string> {
    if requests == [] then []
    else [requests[|requests| - 1]] + Without(LastDistinct(requests[..|requests| - 1]), requests[|requests| - 1])
  }

  lemma {:induction false} SameSize(l: seq<string>, s: set<string>)
    requires NoDuplicates(l) && forall x :: x in l <==> x in s
    ensures |l| == |s|
    decreases |l|
  {
    if l == [] {
      assert s == {};
    } else {
      HeadTail(l);
      SameSize(l[1..], s - {l[0]});
    }
  }

  lemma {:induction false} WithoutShrinks(l: seq<string>, id: string)
    requires NoDuplicates(l)
    ensures NoDuplicates(Without(l, id))
    ensures id in l ==> |Without(l, id)| == |l| - 1
  {
    if l != [] {
      WithoutShrinks(l[1..], id);
      var w := Without(l[1..], id);
      assert ([l[0]] + w)[1..] == w;
    }
  }

  lemma {:induction false} NoDuplicatesTake(l: seq<string>, n: nat)
    requires NoDuplicates(l)
    ensures NoDuplicates(Take(l, n))
    decreases |l|
  {
    if |l| > n > 0 {
      NoDuplicatesTake(l[1..], n - 1);
      assert Take(l, n)[1..] == Take(l[1..], n - 1);
    }
  }

  // A bounded list loses nothing but what lies beyond its bound.
  lemma {:induction false} TakeWithout(l: seq<string>, id: string, n: nat)
    requires n > 0 && NoDuplicates(l)
    ensures Take(Without(Take(l, n), id), n - 1) == Take(Without(l, id), n - 1)
    decreases |l|
  {
    if |l| > n {
      var rest := l[1..];
      assert Take(l, n)[1..] == Take(rest, n - 1);
      if l[0] == id {
        assert Without(Take(l, n), id) == Take(rest, n - 1);
      } else {
        if n > 1 {
          TakeWithout(rest, id, n - 1);
        }
        TakeCons(l[0], Without(Take(rest, n - 1), id), n - 1);
        TakeCons(l[0], Without(rest, id), n - 1);
      }
    }
  }

  lemma TakeCons(x: string, l: seq<string>, n: nat)
    ensures n > 0 ==> Take([x] + l, n) == [x] + Take(l, n - 1)
    ensures n == 0 ==> Take([x] + l, n) == []
  {
  }

  lemma {:induction false} TouchOfTake(l: seq<string>, id: string, cap: nat)
    requires cap > 0 && NoDuplicates(l)
    ensures Touch(Take(l, cap), id, cap) == Take([id] + Without(l, id), cap)
  {
    var t := Take(l, cap);
    TakeWithout(l, id, cap);
    if id in t {
      NoDuplicatesTake(l, cap);
      WithoutShrinks(t, id);
      assert Take(Without(t, id), cap - 1) == Without(t, id);
    } else {
      assert Without(t, id) == t;
      assert Room(t, cap) == Take(t, cap - 1);
    }
    TakeCons(id, Without(l, id), cap);
  }

  lemma {:induction false} LastDistinctSound(requests: seq<string>)
    ensures NoDuplicates(LastDistinct(requests))
    ensures forall x :: x in LastDistinct(requests) <==> x in requests
    decreases |requests|
  {
    if requests != [] {
      var prefix, last := requests[..|requests| - 1], requests[|requests| - 1];
      FrontLast(requests);
      LastDistinctSound(prefix);
      WithoutShrinks(LastDistinct(prefix), last);
    }
  }

  /** After any run of requests the bounded list holds exactly the last `cap` distinct IDs requested. */
  lemma {:induction false} BoundedListIsLastDistinct(requests: seq<string>, cap: nat)
    requires cap > 0
    ensures TouchAll(requests, cap) == Take(LastDistinct(requests), cap)
    decreases |requests|
  {
    if requests != [] {
      var prefix, last := requests[..|requests| - 1], requests[|requests| - 1];
      BoundedListIsLastDistinct(prefix, cap);
      LastDistinctSound(prefix);
      TouchOfTake(LastDistinct(prefix), last, cap);
    }
  }

  /** The position of the last request for `x`. */
  function LastRequest(requests: seq<string>, x: string): (i: nat)
    requires x in requests
    ensures i < |requests| && requests[i] == x && forall j :: i < j < |requests| ==> requests[j] != x
    decreases |requests|
  {
    var last := |requests| - 1;
    if requests[last] == x then last
    else
      assert requests == requests[..last] + [requests[last]];
      LastRequest(requests[..last], x)
  }

  ghost predicate ByLastRequest(requests: seq<string>, l: seq<string>) {
    l == [] ||
    (l[0] in requests && ByLastRequest(requests, l[1..]) &&
     forall x :: x in l[1..] && x in requests ==> LastRequest(requests, l[0]) > LastRequest(requests, x))
  }

  lemma {:induction false} WithoutOrdered(requests: seq<string>, l: seq<string>, id: string)
    requires ByLastRequest(requests, l)
    ensures ByLastRequest(requests, Without(l, id))
    decreases |l|
  {
    if l != [] {
      WithoutOrdered(requests, l[1..], id);
      var w := Without(l[1..], id);
      assert ([l[0]] + w)[1..] == w;
    }
  }

  lemma LastRequestOfPrefix(prefix: seq<string>, last: string, x: string)
    requires x in prefix && x != last
    ensures x in prefix + [last] && LastRequest(prefix + [last], x) == LastRequest(prefix, x)
  {
    assert (prefix + [last])[..|prefix|] == prefix;
  }

  lemma {:induction false} OrderedLater(prefix: seq<string>, last: string, l: seq<string>)
    requires ByLastRequest(prefix, l) && last !in l
    ensures ByLastRequest(prefix + [last], l)
    decreases |l|
  {
    if l != [] {
      OrderedLater(prefix, last, l[1..]);
      LastRequestOfPrefix(prefix, last, l[0]);
      forall x | x in l[1..] && x in prefix + [last]
        ensures LastRequest(prefix + [last], l[0]) > LastRequest(prefix + [last], x)
      {
        LastRequestOfPrefix(prefix, last, x);
      }
    }
  }

  /** The distinct IDs are listed by their last request, the latest first. */
  lemma {:induction false} LastDistinctOrdered(requests: seq<string>)
    ensures ByLastRequest(requests, LastDistinct(requests))
    decreases |requests|
  {
    if requests != [] {
      var prefix, last := requests[..|requests| - 1], requests[|requests| - 1];
      var w := Without(LastDistinct(prefix), last);
      FrontLast(requests);
      LastDistinctOrdered(prefix);
      WithoutOrdered(prefix, LastDistinct(prefix), last);
      OrderedLater(prefix, last, w);
      assert ([last] + w)[1..] == w;
      assert LastRequest(requests, last) == |requests| - 1;
    }
  }
}
