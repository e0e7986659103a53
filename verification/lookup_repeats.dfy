/** When a lookup result names a node twice: exactly if a reply names a node of the table and the second
    copy of it is still among the 16 nearest of everything pushed. */
module LookupRepeats {
  import opened NodeTypes
  import opened Closest
  import opened Lookup
  import opened Table

  // ---------- Positions in the sort ----------

  /** How many of `ns` have a rank under `bound`. */
  function Nearer(rank: Rank, ns: seq<Node>, bound: nat): (c: nat)
    ensures c <= |ns|
  {
    if ns == [] then 0
    else Nearer(rank, ns[..|ns| - 1], bound) + if rank(ns[|ns| - 1]) < bound then 1 else 0
  }

  /** How many of `ns` come before `ns[j]` in order of rank: the earlier ones that are not farther and the
      later ones that are nearer. */
  function Pos(rank: Rank, ns: seq<Node>, j: nat): (p: nat)
    requires j < |ns|
    ensures p < |ns|
  {
    Nearer(rank, ns[..j], rank(ns[j]) + 1) + Nearer(rank, ns[j + 1..], rank(ns[j]))
  }

  lemma {:induction false} NearerConcat(rank: Rank, a: seq<Node>, b: seq<Node>, bound: nat)
    ensures Nearer(rank, a + b, bound) == Nearer(rank, a, bound) + Nearer(rank, b, bound)
    decreases |b|
  {
    if b == [] {
      assert a + b == a;
    } else {
      var m := |b| - 1;
      NearerConcat(rank, a, b[..m], bound);
      assert (a + b)[..|a| + m] == a + b[..m];
    }
  }

  lemma {:induction false} NearerMono(rank: Rank, ns: seq<Node>, low: nat, high: nat)
    requires low <= high
    ensures Nearer(rank, ns, low) <= Nearer(rank, ns, high)
  {
    if ns != [] {
      NearerMono(rank, ns[..|ns| - 1], low, high);
    }
  }

  lemma NearerInserted(rank: Rank, front: seq<Node>, n: Node, back: seq<Node>, bound: nat)
    ensures Nearer(rank, front + [n] + back, bound) == Nearer(rank, front + back, bound) + if rank(n) < bound then 1 else 0
  {
    NearerConcat(rank, front + [n], back, bound);
    NearerConcat(rank, front, [n], bound);
    NearerConcat(rank, front, back, bound);
  }

  lemma SortSplits(rank: Rank, ns: seq<Node>) returns (front: seq<Node>, back: seq<Node>)
    requires ns != []
    ensures var m := |ns| - 1;
            && SortAll(rank, ns[..m]) == front + back && SortAll(rank, ns) == front + [ns[m]] + back
            && (forall i :: 0 <= i < |front| ==> rank(front[i]) <= rank(ns[m]))
            && (forall i :: 0 <= i < |back| ==> rank(back[i]) > rank(ns[m]))
  {
    var m := |ns| - 1;
    var es := SortAll(rank, ns[..m]);
    var ix := InsertSplits(rank, es, ns[m]);
    SortAllSorts(rank, ns[..m]);
    hide SortAll;
    front, back := es[..ix], es[ix..];
    assert forall i :: 0 < i < |back| ==> rank(back[0]) <= rank(back[i]);
  }

  /** Counting does not depend on the order. */
  lemma {:induction false} NearerSorted(rank: Rank, ns: seq<Node>, bound: nat)
    ensures Nearer(rank, SortAll(rank, ns), bound) == Nearer(rank, ns, bound)
  {
    if ns != [] {
      var m := |ns| - 1;
      NearerSorted(rank, ns[..m], bound);
      var front, back := SortSplits(rank, ns);
      hide SortAll;
      NearerInserted(rank, front, ns[m], back, bound);
    }
  }

  /** In a sorted list the count is the position that separates the nearer from the others. */
  lemma {:induction false} NearerSplits(rank: Rank, es: seq<Node>, ix: nat, bound: nat)
    requires ix <= |es| && (forall i :: 0 <= i < ix ==> rank(es[i]) < bound) && forall i :: ix <= i < |es| ==> rank(es[i]) >= bound
    ensures Nearer(rank, es, bound) == ix
  {
    if es != [] {
      var m := |es| - 1;
      NearerSplits(rank, es[..m], if ix <= m then ix else m, bound);
    }
  }

  /** Where insertion puts the last node: `front` of the sort of the others comes before it. */
  lemma InsertPosition(rank: Rank, ns: seq<Node>) returns (front: seq<Node>, back: seq<Node>)
    requires ns != []
    ensures var m := |ns| - 1;
            && SortAll(rank, ns[..m]) == front + back && SortAll(rank, ns) == front + [ns[m]] + back
            && (forall i :: 0 <= i < |front| ==> rank(front[i]) <= rank(ns[m]))
            && (forall i :: 0 <= i < |back| ==> rank(back[i]) > rank(ns[m]))
            && |front| == Pos(rank, ns, m)
  {
    hide SortAll, Nearer;
    var m := |ns| - 1;
    front, back := SortSplits(rank, ns);
    NearerSplits(rank, front + back, |front|, rank(ns[m]) + 1);
    NearerSorted(rank, ns[..m], rank(ns[m]) + 1);
    NearerNone(rank, rank(ns[m]));
    assert ns[m + 1..] == [];
  }

  lemma NearerNone(rank: Rank, bound: nat)
    ensures Nearer(rank, [], bound) == 0
  {
  }

  /** One more node moves an earlier one back exactly if it is nearer. */
  lemma PosStep(rank: Rank, ns: seq<Node>, j: nat)
    requires j < |ns| - 1
    ensures var m := |ns| - 1;
            Pos(rank, ns, j) == Pos(rank, ns[..m], j) + if rank(ns[m]) < rank(ns[j]) then 1 else 0
  {
    var m := |ns| - 1;
    assert ns[..m][..j] == ns[..j] && ns[j + 1..] == ns[..m][j + 1..] + [ns[m]];
    NearerConcat(rank, ns[..m][j + 1..], [ns[m]], rank(ns[j]));
  }

  /** Every node is at its position. */
  lemma {:induction false} SortedAtPos(rank: Rank, ns: seq<Node>, j: nat)
    requires j < |ns|
    ensures SortAll(rank, ns)[Pos(rank, ns, j)] == ns[j]
    decreases |ns|
  {
    hide SortAll, Pos;
    var m := |ns| - 1;
    var front, back := InsertPosition(rank, ns);
    if j < m {
      SortedAtPos(rank, ns[..m], j);
      PosStep(rank, ns, j);
    }
  }

  /** Every position is some node's. */
  lemma {:induction false} PosCovers(rank: Rank, ns: seq<Node>, p: nat) returns (j: nat)
    requires p < |ns|
    ensures j < |ns| && Pos(rank, ns, j) == p
    decreases |ns|
  {
    hide SortAll, Pos;
    var m := |ns| - 1;
    var front, back := InsertPosition(rank, ns);
    if p == |front| {
      j := m;
    } else {
      j := PosCovers(rank, ns[..m], if p < |front| then p else p - 1);
      SortedAtPos(rank, ns[..m], j);
      PosStep(rank, ns, j);
    }
  }

  /** Of two equally near nodes the one pushed first comes first. */
  lemma PosGrows(rank: Rank, ns: seq<Node>, i: nat, j: nat)
    requires i < j < |ns| && rank(ns[i]) == rank(ns[j])
    ensures Pos(rank, ns, i) < Pos(rank, ns, j)
  {
    var r := rank(ns[i]);
    var before, between, behind := ns[..i], ns[i + 1..j], ns[j + 1..];
    assert ns[..j] == before + [ns[i]] + between && ns[i + 1..] == between + [ns[j]] + behind;
    NearerConcat(rank, before + [ns[i]], between, r + 1);
    NearerConcat(rank, before, [ns[i]], r + 1);
    NearerConcat(rank, between + [ns[j]], behind, r);
    NearerConcat(rank, between, [ns[j]], r);
    NearerMono(rank, between, r, r + 1);
  }

  // ---------- Repeats ----------

  /** Nodes with one identifier are equally near, as they carry the same digest. */
  ghost predicate SameIdSameRank(rank: Rank, ns: seq<Node>) {
    forall i, j :: 0 <= i < j < |ns| && ns[i].id == ns[j].id ==> rank(ns[i]) == rank(ns[j])
  }

  /** `ns[i]` and `ns[j]` share an identifier, and the later one is among the first `k` in order. */
  predicate BothKept(rank: Rank, ns: seq<Node>, k: nat, i: nat, j: nat) {
    i < j < |ns| && ns[i].id == ns[j].id && Pos(rank, ns, j) < k
  }

  lemma KeptRepeats(rank: Rank, ns: seq<Node>, k: nat, i: nat, j: nat)
    requires SameIdSameRank(rank, ns) && BothKept(rank, ns, k, i, j)
    ensures !DistinctIds(Take(SortAll(rank, ns), k))
  {
    var r, a, b := Take(SortAll(rank, ns), k), Pos(rank, ns, i), Pos(rank, ns, j);
    PosGrows(rank, ns, i, j);
    SortedAtPos(rank, ns, i);
    SortedAtPos(rank, ns, j);
    assert 0 <= a < b < |r| && r[a].id == r[b].id;
  }

  lemma RepeatsKept(rank: Rank, ns: seq<Node>, k: nat) returns (i: nat, j: nat)
    requires SameIdSameRank(rank, ns) && !DistinctIds(Take(SortAll(rank, ns), k))
    ensures BothKept(rank, ns, k, i, j)
  {
    var r := Take(SortAll(rank, ns), k);
    var a: nat, b: nat :| a < b < |r| && r[a].id == r[b].id;
    i := PosCovers(rank, ns, a);
    j := PosCovers(rank, ns, b);
    SortedAtPos(rank, ns, i);
    SortedAtPos(rank, ns, j);
    if j < i {
      PosGrows(rank, ns, j, i);
    }
  }

  /** For all nodes pushed, of any number: the nearest `k` repeat an identifier exactly if some later copy
      is among the first `k` in order. */
  lemma RepeatsExactly(rank: Rank, ns: seq<Node>, k: nat)
    requires SameIdSameRank(rank, ns)
    ensures !DistinctIds(Take(SortAll(rank, ns), k)) <==> exists i: nat, j: nat :: BothKept(rank, ns, k, i, j)
  {
    if i: nat, j: nat :| BothKept(rank, ns, k, i, j) {
      KeptRepeats(rank, ns, k, i, j);
    }
    if !DistinctIds(Take(SortAll(rank, ns), k)) {
      var i, j := RepeatsKept(rank, ns, k);
    }
  }

  // ---------- Repeats in a lookup ----------

  lemma {:induction false} FlattenFrom(bs: seq<Bucket>, a: nat) returns (i: nat, k: nat)
    requires a < |Flatten(bs)|
    ensures i < |bs| && k < |bs[i]| && bs[i][k] == Flatten(bs)[a]
    decreases |bs|
  {
    var m := |bs| - 1;
    var front := Flatten(bs[..m]);
    if a < |front| {
      i, k := FlattenFrom(bs[..m], a);
    } else {
      i, k := m, a - |front|;
    }
  }

  /** A well-formed table lists each identifier once, bucket after bucket. */
  lemma {:induction false} FlattenDistinct(h: HashFn, t: Tab, m: nat)
    requires WellFormed(h, t) && m <= N_BUCKETS
    ensures DistinctIds(Flatten(t.buckets[..m]))
    ensures forall a :: 0 <= a < |Flatten(t.buckets[..m])| ==> Hashed(h, Flatten(t.buckets[..m])[a])
  {
    if m > 0 {
      var front, last := Flatten(t.buckets[..m - 1]), t.buckets[m - 1];
      FlattenDistinct(h, t, m - 1);
      assert t.buckets[..m][..m - 1] == t.buckets[..m - 1];
      assert BucketOk(h, t.self.hash, m - 1, last);
      forall a, k | 0 <= a < |front| && 0 <= k < |last|
        ensures front[a].id != last[k].id
      {
        var i, l := FlattenFrom(t.buckets[..m - 1], a);
        assert BucketOk(h, t.self.hash, i, t.buckets[i]);
        assert EntryOk(h, t.self.hash, i, front[a]) && EntryOk(h, t.self.hash, m - 1, last[k]);
      }
      DistinctConcat(front, last);
      assert forall k :: 0 <= k < |last| ==> EntryOk(h, t.self.hash, m - 1, last[k]);
    }
  }

  lemma DistinctConcat(a: seq<Node>, b: seq<Node>)
    requires DistinctIds(a) && DistinctIds(b)
    ensures DistinctIds(a + b) <==> forall i, j :: 0 <= i < |a| && 0 <= j < |b| ==> a[i].id != b[j].id
  {
    if i, j :| 0 <= i < |a| && 0 <= j < |b| && a[i].id == b[j].id {
      assert (a + b)[i].id == (a + b)[|a| + j].id;
    }
  }

  lemma {:induction false} FirstByIdFrom(ns: seq<Node>)
    ensures forall i :: 0 <= i < |FirstById(ns)| ==> FirstById(ns)[i] in ns
  {
    if ns != [] {
      FirstByIdFrom(ns[..|ns| - 1]);
    }
  }

  /** Reply node `j`, among the first for each identifier, is table node `i` again, and no more than 15 of
      everything pushed come before it. */
  predicate PushedAgain(target: Hash, table: seq<Node>, first: seq<Node>, i: nat, j: nat) {
    i < |table| && j < |first| && table[i].id == first[j].id && Pos(ByDistance(target), table + first, |table| + j) < 16
  }

  lemma AgainIsKept(target: Hash, table: seq<Node>, first: seq<Node>)
    requires DistinctIds(table) && DistinctIds(first)
    ensures (exists i: nat, j: nat :: PushedAgain(target, table, first, i, j))
       <==> exists i: nat, j: nat :: BothKept(ByDistance(target), table + first, 16, i, j)
  {
    var ns := table + first;
    hide Pos;
    if i: nat, j: nat :| PushedAgain(target, table, first, i, j) {
      assert BothKept(ByDistance(target), ns, 16, i, |table| + j);
    }
    if i: nat, j: nat :| BothKept(ByDistance(target), ns, 16, i, j) {
      assert i < |table| <= j;
      assert PushedAgain(target, table, first, i, j - |table|);
    }
  }

  lemma HashedSameRank(h: HashFn, target: Hash, ns: seq<Node>)
    requires forall i :: 0 <= i < |ns| ==> Hashed(h, ns[i])
    ensures SameIdSameRank(ByDistance(target), ns)
  {
  }

  /** The result of a lookup, for every table and all replies: it names an identifier twice exactly if a
      reply names a node of the table whose second copy is among the 16 nearest of everything pushed. */
  lemma LookupRepeatsExactly(h: HashFn, t: Tab, target: Hash, received: seq<Node>)
    requires WellFormed(h, t) && forall i :: 0 <= i < |received| ==> Hashed(h, received[i])
    ensures var table, first := Flatten(t.buckets), FirstById(received);
            !DistinctIds(Take(SortAll(ByDistance(target), table + first), 16))
            <==> exists i: nat, j: nat :: PushedAgain(target, table, first, i, j)
  {
    var table, first := Flatten(t.buckets), FirstById(received);
    FlattenDistinct(h, t, N_BUCKETS);
    assert t.buckets[..N_BUCKETS] == t.buckets;
    FirstByIdKeepsOne(received);
    FirstByIdFrom(received);
    HashedSameRank(h, target, table + first);
    AgainIsKept(target, table, first);
    RepeatsExactly(ByDistance(target), table + first, 16);
  }

  /** Every reply names `n` and nobody else. */
  function Always(n: Node): (r: Replies)
    ensures forall i: nat :: r(i) == Some([n])
  {
    _ => Some([n])
  }

  lemma FirstByIdAppend(ns: seq<Node>, n: Node)
    ensures FirstById(ns + [n]) == if HasId(FirstById(ns), n.id) then FirstById(ns) else FirstById(ns) + [n]
  {
    assert (ns + [n])[..|ns|] == ns;
  }

  /** Such replies push the node once. */
  lemma {:induction false} OneNodeReplies(n: Node, k: nat)
    ensures FirstById(Received(Always(n), k)) == if k == 0 then [] else [n]
  {
    hide Always, FirstById;
    FirstByIdNone();
    if k > 0 {
      OneNodeReplies(n, k - 1);
      FirstByIdAppend(Received(Always(n), k - 1), n);
      assert [n][0].id == n.id && [] + [n] == [n];
    }
  }

  lemma FirstByIdNone()
    ensures FirstById([]) == []
  {
  }

  /** Two copies of one node stay as they are. */
  lemma SortPair(rank: Rank, n: Node)
    ensures Take(SortAll(rank, [n, n]), 16) == [n, n] && Take(SortAll(rank, [n]), 16) == [n]
  {
    assert [n, n][..1] == [n] && [n][..0] == [];
    assert SortAll(rank, [n]) == Insert(rank, [], n);
    assert SortAll(rank, [n, n]) == Insert(rank, [n], n);
  }

  /** A lookup in a table that holds one other node, which every reply names, returns it twice. */
  method RepeatExample(self: NodeId, n: Node, target: Hash) returns (result: Option<seq<Node>>)
    requires n.id != self
    ensures result == Some([n, n])
  {
    hide *;
    var queried;
    result, queried := Search(self, [[n]], target, Always(n));
    FlattenOne(n);
    OneNodeReplies(n, |queried|);
    SortPair(ByDistance(target), n);
    AlwaysAll(n, |queried|);
    assert [n] + [n] == [n, n] && [n] + [] == [n];
    assert result.value[0].id in queried;
  }

  function Never(): (r: Replies)
    ensures forall i: nat :: r(i) == None
  {
    _ => None
  }

  /** A lookup in a table that holds one other node, whose query ends without a reply, never returns. */
  method BlockExample(self: NodeId, n: Node, target: Hash) returns (result: Option<seq<Node>>)
    requires n.id != self
    ensures result.None?
  {
    hide *;
    var queried;
    result, queried := Search(self, [[n]], target, Never());
    FlattenOne(n);
    NothingReceived(|queried|);
    SortPair(ByDistance(target), n);
    NeverAny(|queried|);
    assert [n] + [] == [n] && [n][0] == n;
  }

  lemma NothingReceived(k: nat)
    ensures k == 0 ==> FirstById(Received(Never(), k)) == []
  {
  }

  lemma NeverAny(k: nat)
    ensures AllReplied(Never(), k) <==> k == 0
  {
    assert Never()(0).None?;
  }

  lemma FlattenOne(n: Node)
    ensures Flatten([[n]]) == [n]
  {
    assert [[n]][..0] == [];
  }

  lemma AlwaysAll(n: Node, k: nat)
    ensures AllReplied(Always(n), k)
  {
  }
}
