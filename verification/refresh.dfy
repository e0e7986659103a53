/** The recursion between Lookup and refresh of discover/table.go: a lookup on an empty table refreshes
    it, and a refresh looks up. Other goroutines may change the table between any two of its critical
    sections. The recursion ends, because a bond leaves the table non-empty, and it is deeper than three
    calls only where others delete from the table meanwhile. */
module Refresh {
  import opened NodeTypes
  import opened Table
  import opened TableStore
  import Closest
  import Lookup

  /** What the network, the store and the random source do during one call: the replies of a lookup, the
      changes that the bonds and failed queries of a lookup make to the table, the seeds that could be
      bonded with, each with whether the last node of its bucket answered, and the random target, if one
      could be drawn. */
  datatype Net = Net(replies: Lookup.Replies, changes: seq<Op>, seeds: seq<Op>, random: Option<Hash>)

  /** `nets` gives what happens in each call, `calls` counts them; `looked` are the targets looked up so far;
      `others` is what other goroutines do before each critical section still to come. */
  datatype World = World(nets: nat -> Net, calls: nat, looked: seq<Hash>, others: seq<seq<Op>>)

  predicate OnlyBonds(ops: seq<Op>) {
    forall i :: 0 <= i < |ops| ==> ops[i].Bond?
  }

  predicate HasDel(ops: seq<Op>) {
    exists i :: 0 <= i < |ops| && ops[i].Del?
  }

  /** How often others delete. */
  function Deletions(others: seq<seq<Op>>): nat {
    if others == [] then 0 else (if HasDel(others[0]) then 1 else 0) + Deletions(others[1..])
  }

  ghost predicate WorldOk(w: World) {
    forall k :: OnlyBonds(w.nets(k).seeds)
  }

  ghost predicate AlwaysReplies(w: World) {
    forall k: nat, i: nat :: w.nets(k).replies(i).Some?
  }

  predicate IsEmpty(buckets: seq<Bucket>) {
    forall i :: 0 <= i < |buckets| ==> buckets[i] == []
  }

  lemma {:induction false} FlattenEmpty(bs: seq<Bucket>)
    ensures Closest.Flatten(bs) == [] <==> IsEmpty(bs)
  {
    if bs != [] {
      var m := |bs| - 1;
      FlattenEmpty(bs[..m]);
      assert bs == bs[..m] + [bs[m]];
      assert IsEmpty(bs) <==> IsEmpty(bs[..m]) && bs[m] == [];
    }
  }

  /** A bond leaves the table non-empty, whatever the ping of the last node answers. */
  lemma BondFills(t: Tab, op: Op)
    requires |t.buckets| == N_BUCKETS && op.Bond?
    ensures !IsEmpty(Apply(t, op).buckets)
  {
    var i := IndexOf(t, op.node);
    assert Place(t.buckets[i], op.node, op.lastAlive) != [];
    assert Apply(t, op).buckets[i] != [];
  }

  lemma {:induction false} AddKeepsFull(t: Tab, ns: seq<Node>)
    requires |t.buckets| == N_BUCKETS && !IsEmpty(t.buckets)
    ensures !IsEmpty(AddAll(t, ns).buckets)
    decreases |ns|
  {
    if ns != [] {
      if ns[0].id == t.self.id {
        AddKeepsFull(t, ns[1..]);
      } else {
        var i := IndexOf(t, ns[0]);
        var u := t.(buckets := t.buckets[i := AddLast(t.buckets[i], ns[0])]);
        var j :| 0 <= j < N_BUCKETS && t.buckets[j] != [];
        assert u.buckets[j] != [];
        AddKeepsFull(u, ns[1..]);
      }
    }
  }

  /** Only a deletion can empty the table. */
  lemma OpKeepsFull(t: Tab, op: Op)
    requires |t.buckets| == N_BUCKETS && !IsEmpty(t.buckets) && !op.Del?
    ensures !IsEmpty(Apply(t, op).buckets)
  {
    match op
    case Bond(_, _) => BondFills(t, op);
    case Add(ns) => AddKeepsFull(t, ns);
  }

  lemma {:induction false} OpsKeepFull(t: Tab, ops: seq<Op>)
    requires |t.buckets| == N_BUCKETS
    ensures !IsEmpty(t.buckets) && IsEmpty(ApplyAll(t, ops).buckets) ==> HasDel(ops)
    ensures ops != [] && OnlyBonds(ops) ==> !IsEmpty(ApplyAll(t, ops).buckets)
  {
    hide Apply, IsEmpty;
    if ops != [] {
      var m := |ops| - 1;
      var u := ApplyAll(t, ops[..m]);
      OpsKeepFull(t, ops[..m]);
      if HasDel(ops[..m]) {
        var i :| 0 <= i < m && ops[..m][i].Del?;
        assert ops[i].Del?;
      }
      if !IsEmpty(u.buckets) && !ops[m].Del? {
        OpKeepsFull(u, ops[m]);
      }
      if ops[m].Bond? {
        BondFills(u, ops[m]);
      }
    }
  }

  method ApplyOps(tab: KadTable, ops: seq<Op>)
    requires tab.Valid()
    modifies tab
    ensures tab.Valid() && tab.Abs() == ApplyAll(old(tab.Abs()), ops)
  {
    for i := 0 to |ops|
      invariant tab.Valid() && tab.Abs() == ApplyAll(old(tab.Abs()), ops[..i])
    {
      assert ops[..i + 1][..i] == ops[..i];
      match ops[i]
      case Bond(n, alive) =>
        tab.PlaceBonded(n, alive);
      case Add(ns) =>
        tab.AddNodes(ns);
      case Del(n) =>
        tab.DelNode(n);
    }
    assert ops[..|ops|] == ops;
  }

  /** Lets other goroutines have their turn. */
  method Interfere(tab: KadTable, w: World) returns (w': World)
    requires tab.Valid()
    modifies tab
    ensures tab.Valid() && w'.nets == w.nets && w'.calls == w.calls && Deletions(w'.others) <= Deletions(w.others)
    ensures !old(IsEmpty(tab.buckets)) && IsEmpty(tab.buckets) ==> Deletions(w'.others) < Deletions(w.others)
    ensures w.others == [] ==> w' == w && tab.buckets == old(tab.buckets)
  {
    w' := w;
    if w.others != [] {
      OpsKeepFull(tab.Abs(), w.others[0]);
      ApplyOps(tab, w.others[0]);
      w' := w.(others := w.others[1..]);
    }
  }

  /** Makes changes of our own, one critical section each, with others in between. */
  method ApplyOwn(tab: KadTable, ops: seq<Op>, w: World) returns (w': World)
    requires tab.Valid()
    modifies tab
    ensures tab.Valid() && w'.nets == w.nets && w'.calls == w.calls && Deletions(w'.others) <= Deletions(w.others)
    ensures ops != [] && OnlyBonds(ops) ==> !IsEmpty(tab.buckets)
    ensures w.others == [] ==> w' == w && tab.Abs() == ApplyAll(old(tab.Abs()), ops)
  {
    hide IsEmpty, Apply;
    w' := w;
    for i := 0 to |ops|
      invariant tab.Valid() && w'.nets == w.nets && w'.calls == w.calls && Deletions(w'.others) <= Deletions(w.others)
      invariant i > 0 && OnlyBonds(ops) ==> !IsEmpty(tab.buckets)
      invariant w.others == [] ==> w' == w && tab.Abs() == ApplyAll(old(tab.Abs()), ops[..i])
    {
      w' := Interfere(tab, w');
      OpsKeepFull(tab.Abs(), [ops[i]]);
      OpsOneMore(old(tab.Abs()), ops, i);
      ApplyOps(tab, [ops[i]]);
    }
    assert ops[..|ops|] == ops;
  }

  lemma OpsOneMore(t: Tab, ops: seq<Op>, i: nat)
    requires |t.buckets| == N_BUCKETS && i < |ops|
    ensures ApplyAll(t, ops[..i + 1]) == ApplyAll(ApplyAll(t, ops[..i]), [ops[i]])
  {
    hide Apply;
    assert ops[..i + 1][..i] == ops[..i];
    assert [ops[i]][..0] == [];
  }

  method HasEntries(tab: KadTable) returns (found: bool)
    ensures found <==> !IsEmpty(tab.buckets)
  {
    for i := 0 to |tab.buckets|
      invariant forall k :: 0 <= k < i ==> tab.buckets[k] == []
    {
      if |tab.buckets[i]| > 0 {
        return true;
      }
    }
    return false;
  }

  /** What a lookup that finds nodes does to the table: the changes its bonds and failed queries make. */
  function Changed(t: Tab, net: Net, returned: bool): (r: Tab)
    requires |t.buckets| == N_BUCKETS
    ensures |r.buckets| == N_BUCKETS && r.self == t.self
  {
    if returned then ApplyAll(t, net.changes) else t
  }

  /** `found` is the lookup's result: the 16 nodes nearest to the target among the table's and those that
      some number of replies named. */
  ghost predicate FoundNearest(buckets: seq<Bucket>, target: Hash, replies: Lookup.Replies, found: seq<Node>) {
    exists n: nat :: found == Lookup.ResultAfter(target, Closest.Flatten(buckets), replies, n)
  }

  /** A refresh while nobody else touches the table. An empty one gets the seeds and, if there are any, then
      what a lookup of our own identifier changes; otherwise a random target is looked up, once. */
  ghost predicate RefreshAlone(t: Tab, w: World, t': Tab, w': World, returned: bool)
    requires |t.buckets| == N_BUCKETS
  {
    var seeds, random, next := w.nets(w.calls).seeds, w.nets(w.calls).random, w.nets(w.calls + 1);
    if IsEmpty(t.buckets) && seeds != [] then
      w' == w.(calls := w.calls + 2, looked := w.looked + [t.self.hash]) && t' == Changed(ApplyAll(t, seeds), next, returned)
    else if !IsEmpty(t.buckets) && random.Some? then
      w' == w.(calls := w.calls + 2, looked := w.looked + [random.value]) && t' == Changed(t, next, returned)
    else returned && w' == w.(calls := w.calls + 1) && t' == t
  }

  /** A lookup while nobody else touches the table. */
  ghost predicate LookupAlone(t: Tab, target: Hash, w: World, t': Tab, w': World, result: Option<seq<Node>>)
    requires |t.buckets| == N_BUCKETS
  {
    var net, v := w.nets(w.calls), w.(looked := w.looked + [target]);
    if IsEmpty(t.buckets) then RefreshAlone(t, v, t', w', result.Some?) && (result.Some? ==> result.value == [])
    else
      && w' == v.(calls := w.calls + 1) && t' == Changed(t, net, result.Some?)
      && (result.Some? ==> result.value != [] && FoundNearest(t.buckets, target, net.replies, result.value))
  }

  /** Lookup. A table found empty is refreshed and yields nothing. `depth` is how deep the recursion went:
      at most three calls, one if the table was not empty, plus two for each deletion by others. None
      means that a query without a reply blocks the call forever. */
  method LookupOrRefresh(tab: KadTable, target: Hash, w: World)
    returns (result: Option<seq<Node>>, w': World, ghost depth: nat)
    requires tab.Valid() && WorldOk(w)
    modifies tab
    ensures tab.Valid() && w'.nets == w.nets && Deletions(w'.others) <= Deletions(w.others)
    ensures AlwaysReplies(w) ==> result.Some?
    ensures result == Some([]) && !old(IsEmpty(tab.buckets)) ==> Deletions(w'.others) < Deletions(w.others)
    ensures w.others == [] ==> LookupAlone(old(tab.Abs()), target, w, tab.Abs(), w', result)
    ensures depth <= (if old(IsEmpty(tab.buckets)) then 3 else 1) + 2 * Deletions(w.others)
    decreases Deletions(w.others), if IsEmpty(tab.buckets) then 2 else 0
  {
    hide ApplyAll, RefreshAlone;
    w' := Interfere(tab, w.(looked := w.looked + [target]));
    var found := HasEntries(tab);
    if !found {
      var returned;
      returned, w', depth := RefreshTable(tab, w');
      return if returned then Some([]) else None, w', depth + 1;
    }
    var net, queried := w'.nets(w'.calls), [];
    result, queried := Lookup.Search(tab.self.id, tab.buckets, target, net.replies);
    SearchFinds(tab.buckets, target, net.replies, result, |queried|);
    w', depth := w'.(calls := w'.calls + 1), 1;
    if result.Some? {
      w' := ApplyOwn(tab, net.changes, w');
    }
  }

  lemma SearchFinds(buckets: seq<Bucket>, target: Hash, replies: Lookup.Replies, result: Option<seq<Node>>, n: nat)
    requires !IsEmpty(buckets) && (result.Some? ==> result.value == Lookup.ResultAfter(target, Closest.Flatten(buckets), replies, n))
    ensures result.Some? ==> result.value != [] && FoundNearest(buckets, target, replies, result.value)
  {
    FlattenEmpty(buckets);
  }

  /** refresh: looks up a random target if the table has nodes, otherwise, or if that found nothing, bonds
      with seeds and, if any bond succeeded, looks up our own identifier. */
  method RefreshTable(tab: KadTable, w: World) returns (returned: bool, w': World, ghost depth: nat)
    requires tab.Valid() && WorldOk(w)
    modifies tab
    ensures tab.Valid() && w'.nets == w.nets && Deletions(w'.others) <= Deletions(w.others)
    ensures AlwaysReplies(w) ==> returned
    ensures w.others == [] ==> RefreshAlone(old(tab.Abs()), w, tab.Abs(), w', returned)
    ensures depth <= 2 + 2 * Deletions(w.others)
    decreases Deletions(w.others), 1
  {
    hide ApplyAll, FoundNearest;
    w' := Interfere(tab, w);
    var net := w'.nets(w'.calls);
    w', returned, depth := w'.(calls := w'.calls + 1), true, 1;
    var found := HasEntries(tab);
    if found {
      if net.random.None? {
        return;
      }
      var result;
      ghost var below;
      result, w', below := LookupOrRefresh(tab, net.random.value, w');
      depth := below + 1;
      if result.None? {
        returned := false;
        return;
      }
      if |result.value| > 0 {
        return;
      }
    }
    w' := ApplyOwn(tab, net.seeds, w');
    if |net.seeds| > 0 {
      var result;
      ghost var below;
      result, w', below := LookupOrRefresh(tab, tab.self.hash, w');
      depth, returned := if below + 1 > depth then below + 1 else depth, result.Some?;
    } else {
      SeedlessKeeps(old(tab.Abs()));
    }
  }

  lemma SeedlessKeeps(t: Tab)
    requires |t.buckets| == N_BUCKETS
    ensures ApplyAll(t, []) == t
  {
  }

  /** So a refresh of an empty table that bonds with a seed leaves it with nodes, unless the lookup of our
      own identifier deletes some. */
  lemma RefreshFills(t: Tab, w: World, t': Tab, w': World, returned: bool)
    requires |t.buckets| == N_BUCKETS && RefreshAlone(t, w, t', w', returned) && WorldOk(w)
    requires IsEmpty(t.buckets) && w.nets(w.calls).seeds != [] && !HasDel(w.nets(w.calls + 1).changes)
    ensures !IsEmpty(t'.buckets)
  {
    hide IsEmpty, ApplyAll;
    var seeds, changes := w.nets(w.calls).seeds, w.nets(w.calls + 1).changes;
    OpsKeepFull(t, seeds);
    OpsKeepFull(ApplyAll(t, seeds), changes);
  }
}
