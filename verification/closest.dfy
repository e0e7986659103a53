/** nodesByDistance of discover/table.go: bounded insertion by binary search, and the search for the
    closest nodes built on it, proved to be the front of all nodes sorted by distance. */
module Closest {
  import opened NodeTypes
  import opened XorMetric

  /** What nodes are ordered by; insertion does not depend on how it is computed. */
  type Rank = Node -> nat

  function ByDistance(target: Hash): Rank {
    (n: Node) => Dist(target, n.hash)
  }

  /** `n` inserted behind every node that is not farther by `rank`. */
  function Insert(rank: Rank, es: seq<Node>, n: Node): (r: seq<Node>)
    ensures |r| == |es| + 1
  {
    if es == [] then [n]
    else if rank(es[0]) > rank(n) then [n] + es
    else [es[0]] + Insert(rank, es[1..], n)
  }

  function Take(ns: seq<Node>, k: nat): seq<Node> {
    if |ns| <= k then ns else ns[..k]
  }

  /** What push leaves of `es` and `n`. */
  function Pushed(rank: Rank, es: seq<Node>, n: Node, k: nat): seq<Node> {
    Take(Insert(rank, es, n), k)
  }

  function PushedAll(rank: Rank, es: seq<Node>, ns: seq<Node>, k: nat): seq<Node> {
    if ns == [] then es else Pushed(rank, PushedAll(rank, es, ns[..|ns| - 1], k), ns[|ns| - 1], k)
  }

  /** All of `ns` in order of distance by `rank`, equally distant ones in their order in `ns`. */
  function SortAll(rank: Rank, ns: seq<Node>): (r: seq<Node>)
    ensures |r| == |ns|
  {
    if ns == [] then [] else Insert(rank, SortAll(rank, ns[..|ns| - 1]), ns[|ns| - 1])
  }

  ghost predicate SortedBy(rank: Rank, ns: seq<Node>) {
    forall i, j :: 0 <= i < j < |ns| ==> rank(ns[i]) <= rank(ns[j])
  }

  /** Insertion at the position that separates nodes not farther from nodes farther. */
  lemma {:induction false} InsertAt(rank: Rank, es: seq<Node>, n: Node, ix: nat)
    requires ix <= |es|
    requires forall i :: 0 <= i < ix ==> rank(es[i]) <= rank(n)
    requires ix < |es| ==> rank(es[ix]) > rank(n)
    ensures Insert(rank, es, n) == es[..ix] + [n] + es[ix..]
  {
    if ix > 0 {
      InsertAt(rank, es[1..], n, ix - 1);
      assert es == [es[0]] + es[1..];
    }
  }

  lemma {:induction false} InsertSplits(rank: Rank, es: seq<Node>, n: Node) returns (ix: nat)
    ensures ix <= |es| && Insert(rank, es, n) == es[..ix] + [n] + es[ix..]
    ensures forall i :: 0 <= i < ix ==> rank(es[i]) <= rank(n)
    ensures ix < |es| ==> rank(es[ix]) > rank(n)
  {
    ix := 0;
    while ix < |es| && rank(es[ix]) <= rank(n)
      invariant ix <= |es|
      invariant forall i :: 0 <= i < ix ==> rank(es[i]) <= rank(n)
    {
      ix := ix + 1;
    }
    InsertAt(rank, es, n, ix);
  }

  lemma SortedAround(rank: Rank, es: seq<Node>, n: Node, ix: nat)
    requires SortedBy(rank, es) && ix <= |es|
    requires forall i :: 0 <= i < ix ==> rank(es[i]) <= rank(n)
    requires ix < |es| ==> rank(es[ix]) > rank(n)
    ensures SortedBy(rank, es[..ix] + [n] + es[ix..])
  {
  }

  lemma InsertSorted(rank: Rank, es: seq<Node>, n: Node)
    requires SortedBy(rank, es)
    ensures SortedBy(rank, Insert(rank, es, n))
  {
    var ix := InsertSplits(rank, es, n);
    SortedAround(rank, es, n, ix);
  }

  lemma {:induction false} InsertAdds(rank: Rank, es: seq<Node>, n: Node)
    ensures multiset(Insert(rank, es, n)) == multiset(es) + multiset{n}
  {
    if es != [] {
      InsertAdds(rank, es[1..], n);
      assert es == [es[0]] + es[1..];
    }
  }

  lemma {:induction false} SortAllSorts(rank: Rank, ns: seq<Node>)
    ensures SortedBy(rank, SortAll(rank, ns))
    ensures multiset(SortAll(rank, ns)) == multiset(ns)
  {
    if ns != [] {
      var m := |ns| - 1;
      SortAllSorts(rank, ns[..m]);
      InsertSorted(rank, SortAll(rank, ns[..m]), ns[m]);
      InsertAdds(rank, SortAll(rank, ns[..m]), ns[m]);
      assert ns == ns[..m] + [ns[m]];
    }
  }

  /** Dropping what is beyond the bound before inserting changes nothing within the bound. */
  lemma TakeInsertTake(rank: Rank, es: seq<Node>, n: Node, k: nat)
    ensures Pushed(rank, Take(es, k), n, k) == Take(Insert(rank, es, n), k)
  {
    if |es| > k {
      var ix := InsertSplits(rank, es, n);
      if ix < k {
        InsertAt(rank, es[..k], n, ix);
        assert (es[..ix] + [n] + es[ix..])[..k] == (es[..ix] + [n] + es[ix..k])[..k];
      } else {
        InsertAt(rank, es[..k], n, k);
        assert (es[..ix] + [n] + es[ix..])[..k] == es[..k];
        assert (es[..k][..k] + [n] + es[..k][k..])[..k] == es[..k];
      }
    }
  }

  /** Pushing nodes one by one into a bounded list keeps exactly the front of all of them sorted. */
  lemma {:induction false} PushedAllIsSortedFront(rank: Rank, ns: seq<Node>, k: nat)
    ensures PushedAll(rank, [], ns, k) == Take(SortAll(rank, ns), k)
  {
    if ns != [] {
      var m := |ns| - 1;
      PushedAllIsSortedFront(rank, ns[..m], k);
      TakeInsertTake(rank, SortAll(rank, ns[..m]), ns[m], k);
    }
  }

  /** `r` is the `k` nearest of `all`: sorted, as long as possible, taken from `all`, and nothing left
      out is nearer than anything kept. */
  ghost predicate IsNearest(rank: Rank, all: seq<Node>, r: seq<Node>, k: nat) {
    && SortedBy(rank, r)
    && |r| == (if |all| < k then |all| else k)
    && multiset(r) <= multiset(all)
    && forall x, y :: x in r && y in multiset(all) - multiset(r) ==> rank(x) <= rank(y)
  }

  lemma FrontIsNearer(rank: Rank, s: seq<Node>, k: nat, x: Node, y: Node)
    requires SortedBy(rank, s) && k <= |s| && x in s[..k] && y in s[k..]
    ensures rank(x) <= rank(y)
  {
  }

  lemma RestOfSplit(s: seq<Node>, m: nat)
    requires m <= |s|
    ensures multiset(s) - multiset(s[..m]) == multiset(s[m..]) && multiset(s[..m]) <= multiset(s)
  {
    assert s == s[..m] + s[m..];
  }

  lemma SortedFrontIsNearest(rank: Rank, all: seq<Node>, k: nat)
    ensures IsNearest(rank, all, Take(SortAll(rank, all), k), k)
  {
    SortAllSorts(rank, all);
    var s := SortAll(rank, all);
    var m := if |s| <= k then |s| else k;
    var r := Take(s, k);
    assert r == s[..m];
    RestOfSplit(s, m);
    forall x, y | x in r && y in multiset(s[m..])
      ensures rank(x) <= rank(y)
    {
      FrontIsNearer(rank, s, m, x, y);
    }
  }

  /** The slice operations of push, as one insertion. */
  lemma PushShape(rank: Rank, es: seq<Node>, n: Node, ix: nat, k: nat)
    requires |es| <= k && ix <= |es| && Insert(rank, es, n) == es[..ix] + [n] + es[ix..]
    ensures var grown := if |es| < k then es + [n] else es;
            && ix <= |grown|
            && Pushed(rank, es, n, k) == (if ix < |grown| then grown[..ix] + [n] + grown[ix..|grown| - 1] else grown)
  {
  }

  lemma PushedSorted(rank: Rank, es: seq<Node>, n: Node, k: nat)
    requires SortedBy(rank, es)
    ensures SortedBy(rank, Pushed(rank, es, n, k)) && |Pushed(rank, es, n, k)| <= k
  {
    InsertSorted(rank, es, n);
  }

  class NodesByDistance {
    const target: Hash
    var entries: seq<Node>

    constructor (target: Hash)
      ensures this.target == target && entries == []
    {
      this.target := target;
      entries := [];
    }

    /** push: binary search for the first farther node, then insertion; a full list drops its last. */
    method Push(n: Node, maxElems: nat)
      requires SortedBy(ByDistance(target), entries) && |entries| <= maxElems
      modifies this
      ensures entries == Pushed(ByDistance(target), old(entries), n, maxElems)
      ensures SortedBy(ByDistance(target), entries) && |entries| <= maxElems
    {
      var ix := SearchFarther(n);
      InsertAt(ByDistance(target), entries, n, ix);
      PushShape(ByDistance(target), entries, n, ix, maxElems);
      PushedSorted(ByDistance(target), entries, n, maxElems);
      if |entries| < maxElems {
        entries := entries + [n];
      }
      if ix < |entries| {
        // slide the entries down; the one just appended, or the last, is overwritten
        entries := entries[..ix] + [n] + entries[ix..|entries| - 1];
      }
    }

    /** sort.Search for the first entry farther away than `n`. */
    method SearchFarther(n: Node) returns (ix: nat)
      requires SortedBy(ByDistance(target), entries)
      ensures ix <= |entries|
      ensures forall i :: 0 <= i < ix ==> ByDistance(target)(entries[i]) <= ByDistance(target)(n)
      ensures forall i :: ix <= i < |entries| ==> ByDistance(target)(entries[i]) > ByDistance(target)(n)
    {
      var i, j := 0, |entries|;
      while i < j
        invariant 0 <= i <= j <= |entries|
        invariant forall k :: 0 <= k < i ==> ByDistance(target)(entries[k]) <= ByDistance(target)(n)
        invariant forall k :: j <= k < |entries| ==> ByDistance(target)(entries[k]) > ByDistance(target)(n)
      {
        var h := (i + j) / 2;
        var c := ComputeDistCmp(target, entries[h].hash, n.hash);
        if !(c > 0) {
          i := h + 1;
        } else {
          j := h;
        }
      }
      ix := i;
    }
  }

  function Flatten(bs: seq<seq<Node>>): seq<Node> {
    if bs == [] then [] else Flatten(bs[..|bs| - 1]) + bs[|bs| - 1]
  }

  lemma PushedAllStep(rank: Rank, before: seq<Node>, b: seq<Node>, j: nat, k: nat)
    requires j < |b|
    ensures PushedAll(rank, [], before + b[..j + 1], k) == Pushed(rank, PushedAll(rank, [], before + b[..j], k), b[j], k)
  {
    var ns := before + b[..j + 1];
    assert ns[..|ns| - 1] == before + b[..j] && ns[|ns| - 1] == b[j];
  }

  method PushBucket(c: NodesByDistance, b: seq<Node>, k: nat, ghost before: seq<Node>)
    requires SortedBy(ByDistance(c.target), c.entries) && |c.entries| <= k
    requires c.entries == PushedAll(ByDistance(c.target), [], before, k)
    modifies c
    ensures SortedBy(ByDistance(c.target), c.entries) && |c.entries| <= k
    ensures c.entries == PushedAll(ByDistance(c.target), [], before + b, k)
  {
    assert before + b[..0] == before;
    for j := 0 to |b|
      invariant SortedBy(ByDistance(c.target), c.entries) && |c.entries| <= k
      invariant c.entries == PushedAll(ByDistance(c.target), [], before + b[..j], k)
    {
      PushedAllStep(ByDistance(c.target), before, b, j, k);
      c.Push(b[j], k);
    }
    assert b[..|b|] == b;
  }

  /** closest: pushes every node of every bucket. */
  method FindClosest(buckets: seq<seq<Node>>, target: Hash, k: nat) returns (r: seq<Node>)
    ensures r == Take(SortAll(ByDistance(target), Flatten(buckets)), k)
    ensures IsNearest(ByDistance(target), Flatten(buckets), r, k)
  {
    var c := new NodesByDistance(target);
    for i := 0 to |buckets|
      invariant SortedBy(ByDistance(target), c.entries) && |c.entries| <= k
      invariant c.entries == PushedAll(ByDistance(target), [], Flatten(buckets[..i]), k)
      invariant fresh(c) && c.target == target
    {
      PushBucket(c, buckets[i], k, Flatten(buckets[..i]));
      assert buckets[..i + 1][..i] == buckets[..i];
    }
    assert buckets[..|buckets|] == buckets;
    r := c.entries;
    PushedAllIsSortedFront(ByDistance(target), Flatten(buckets), k);
    SortedFrontIsNearest(ByDistance(target), Flatten(buckets), k);
  }
}
