/** The Kademlia table of discover/table.go: its buckets, what bonding, adding and deleting do to
    them, and what every sequence of these operations keeps. */
module Table {
  import opened NodeTypes
  import opened XorMetric

  const N_BUCKETS := 257

  /** The digest of a node identifier; nothing is assumed of it. */
  type HashFn = NodeId -> Hash

  type Bucket = seq<Node>

  /** The position of `id` in a bucket, or the bucket's length. */
  function Find(es: Bucket, id: NodeId): (i: nat)
    ensures i <= |es| && (i < |es| ==> es[i].id == id)
    ensures forall k :: 0 <= k < i ==> es[k].id != id
  {
    if es == [] || es[0].id == id then 0 else 1 + Find(es[1..], id)
  }

  function RemoveAt(es: Bucket, i: nat): Bucket
    requires i < |es|
  {
    es[..i] + es[i + 1..]
  }

  /** Bonding with `n`: moves it to the front if it is present; otherwise puts it there, dropping the
      last entry of a full bucket if that one failed to answer a ping. */
  function Place(es: Bucket, n: Node, lastAlive: bool): Bucket {
    var i := Find(es, n.id);
    if i < |es| then [n] + RemoveAt(es, i)
    else if |es| == BUCKET_SIZE then (if lastAlive then es else [n] + es[..BUCKET_SIZE - 1])
    else [n] + es
  }

  function AddLast(es: Bucket, n: Node): Bucket {
    if Find(es, n.id) < |es| || |es| >= BUCKET_SIZE then es else es + [n]
  }

  function Delete(es: Bucket, id: NodeId): Bucket {
    var i := Find(es, id);
    if i < |es| then RemoveAt(es, i) else es
  }

  datatype Tab = Tab(self: Node, buckets: seq<Bucket>)

  datatype Op = Bond(node: Node, lastAlive: bool) | Add(nodes: seq<Node>) | Del(node: Node)

  function IndexOf(t: Tab, n: Node): (i: nat)
    ensures i < N_BUCKETS
  {
    LogDistBound(t.self.hash, n.hash);
    LogDist(t.self.hash, n.hash)
  }

  function AddAll(t: Tab, ns: seq<Node>): (r: Tab)
    requires |t.buckets| == N_BUCKETS
    ensures |r.buckets| == N_BUCKETS && r.self == t.self
    decreases |ns|
  {
    if ns == [] then t
    else if ns[0].id == t.self.id then AddAll(t, ns[1..])
    else
      var i := IndexOf(t, ns[0]);
      AddAll(t.(buckets := t.buckets[i := AddLast(t.buckets[i], ns[0])]), ns[1..])
  }

  function Apply(t: Tab, op: Op): (r: Tab)
    requires |t.buckets| == N_BUCKETS
    ensures |r.buckets| == N_BUCKETS && r.self == t.self
  {
    match op
    case Bond(n, alive) =>
      var i := IndexOf(t, n);
      t.(buckets := t.buckets[i := Place(t.buckets[i], n, alive)])
    case Add(ns) => AddAll(t, ns)
    case Del(n) =>
      var i := IndexOf(t, n);
      t.(buckets := t.buckets[i := Delete(t.buckets[i], n.id)])
  }

  function Empty(self: Node): (t: Tab)
    ensures |t.buckets| == N_BUCKETS
  {
    Tab(self, seq(N_BUCKETS, _ => []))
  }

  function ApplyAll(t: Tab, ops: seq<Op>): (r: Tab)
    requires |t.buckets| == N_BUCKETS
    ensures |r.buckets| == N_BUCKETS && r.self == t.self
  {
    if ops == [] then t else Apply(ApplyAll(t, ops[..|ops| - 1]), ops[|ops| - 1])
  }

  /** Nodes carry the digest of their identifier, as newNode gives it to them. */
  predicate Hashed(h: HashFn, n: Node) {
    n.hash == h(n.id)
  }

  ghost predicate OpHashed(h: HashFn, op: Op) {
    match op
    case Bond(n, _) => Hashed(h, n)
    case Add(ns) => forall i :: 0 <= i < |ns| ==> Hashed(h, ns[i])
    case Del(n) => Hashed(h, n)
  }

  // ---------- Well-formed buckets and tables ----------

  /** `n` belongs to bucket `i` of a node with digest `self`. */
  predicate EntryOk(h: HashFn, self: Hash, i: nat, n: Node) {
    Hashed(h, n) && LogDist(self, n.hash) == i
  }

  ghost predicate BucketOk(h: HashFn, self: Hash, i: nat, es: Bucket) {
    |es| <= BUCKET_SIZE && DistinctIds(es) && forall k :: 0 <= k < |es| ==> EntryOk(h, self, i, es[k])
  }

  ghost predicate WellFormed(h: HashFn, t: Tab) {
    && |t.buckets| == N_BUCKETS
    && forall i :: 0 <= i < N_BUCKETS ==> BucketOk(h, t.self.hash, i, t.buckets[i])
  }

  lemma RemoveOk(h: HashFn, self: Hash, i: nat, es: Bucket, k: nat)
    requires BucketOk(h, self, i, es) && k < |es|
    ensures BucketOk(h, self, i, RemoveAt(es, k))
    ensures forall j :: 0 <= j < |es| - 1 ==> RemoveAt(es, k)[j].id != es[k].id
  {
  }

  lemma ConsOk(h: HashFn, self: Hash, i: nat, es: Bucket, n: Node)
    requires BucketOk(h, self, i, es) && EntryOk(h, self, i, n) && |es| < BUCKET_SIZE
    requires forall k :: 0 <= k < |es| ==> es[k].id != n.id
    ensures BucketOk(h, self, i, [n] + es)
  {
  }

  lemma PlaceOk(h: HashFn, self: Hash, i: nat, es: Bucket, n: Node, alive: bool)
    requires BucketOk(h, self, i, es) && EntryOk(h, self, i, n)
    ensures BucketOk(h, self, i, Place(es, n, alive))
  {
    var k := Find(es, n.id);
    if k < |es| {
      RemoveOk(h, self, i, es, k);
      ConsOk(h, self, i, RemoveAt(es, k), n);
    } else if |es| == BUCKET_SIZE {
      ConsOk(h, self, i, es[..BUCKET_SIZE - 1], n);
    } else {
      ConsOk(h, self, i, es, n);
    }
  }

  lemma AddLastOk(h: HashFn, self: Hash, i: nat, es: Bucket, n: Node)
    requires BucketOk(h, self, i, es) && EntryOk(h, self, i, n)
    ensures BucketOk(h, self, i, AddLast(es, n))
  {
  }

  lemma DeleteOk(h: HashFn, self: Hash, i: nat, es: Bucket, id: NodeId)
    requires BucketOk(h, self, i, es)
    ensures BucketOk(h, self, i, Delete(es, id))
  {
    var k := Find(es, id);
    if k < |es| {
      RemoveOk(h, self, i, es, k);
    }
  }

  lemma {:induction false} AddAllOk(h: HashFn, t: Tab, ns: seq<Node>)
    requires WellFormed(h, t) && forall i :: 0 <= i < |ns| ==> Hashed(h, ns[i])
    ensures WellFormed(h, AddAll(t, ns))
    decreases |ns|
  {
    if ns != [] {
      if ns[0].id == t.self.id {
        AddAllOk(h, t, ns[1..]);
      } else {
        var i := IndexOf(t, ns[0]);
        AddLastOk(h, t.self.hash, i, t.buckets[i], ns[0]);
        AddAllOk(h, t.(buckets := t.buckets[i := AddLast(t.buckets[i], ns[0])]), ns[1..]);
      }
    }
  }

  lemma ApplyOk(h: HashFn, t: Tab, op: Op)
    requires WellFormed(h, t) && OpHashed(h, op)
    ensures WellFormed(h, Apply(t, op))
  {
    match op
    case Bond(n, alive) => PlaceOk(h, t.self.hash, IndexOf(t, n), t.buckets[IndexOf(t, n)], n, alive);
    case Add(ns) => AddAllOk(h, t, ns);
    case Del(n) => DeleteOk(h, t.self.hash, IndexOf(t, n), t.buckets[IndexOf(t, n)], n.id);
  }

  lemma {:induction false} ApplyAllOk(h: HashFn, t: Tab, ops: seq<Op>)
    requires WellFormed(h, t) && forall i :: 0 <= i < |ops| ==> OpHashed(h, ops[i])
    ensures WellFormed(h, ApplyAll(t, ops))
  {
    if ops != [] {
      ApplyAllOk(h, t, ops[..|ops| - 1]);
      ApplyOk(h, ApplyAll(t, ops[..|ops| - 1]), ops[|ops| - 1]);
    }
  }

  /** Position `k` of bucket `i` holds a node. */
  predicate Holds(t: Tab, i: int, k: int) {
    0 <= i < |t.buckets| && 0 <= k < |t.buckets[i]|
  }

  ghost predicate IdsUnique(t: Tab) {
    forall i, j, k, l :: Holds(t, i, k) && Holds(t, j, l) && t.buckets[i][k].id == t.buckets[j][l].id ==> i == j && k == l
  }

  /** An identifier occurs at most once in a well-formed table, because it fixes the digest and so the
      bucket. */
  lemma WellFormedUnique(h: HashFn, t: Tab)
    requires WellFormed(h, t)
    ensures IdsUnique(t)
  {
  }

  /** Every sequence of bonds, additions and deletions, whatever the pings answer, keeps the table well
      formed: each node in the bucket of its distance, no bucket over 16, and each identifier at most
      once in the whole table. */
  lemma TableStaysWellFormed(h: HashFn, self: Node, ops: seq<Op>)
    requires forall i :: 0 <= i < |ops| ==> OpHashed(h, ops[i])
    ensures var t := ApplyAll(Empty(self), ops);
            && |t.buckets| == 257
            && (forall i, k :: Holds(t, i, k) ==> LogDist(self.hash, t.buckets[i][k].hash) == i)
            && (forall i :: 0 <= i < 257 ==> |t.buckets[i]| <= 16)
            && IdsUnique(t)
  {
    var t := ApplyAll(Empty(self), ops);
    ApplyAllOk(h, Empty(self), ops);
    WellFormedUnique(h, t);
    assert forall i, k :: Holds(t, i, k) ==> BucketOk(h, self.hash, i, t.buckets[i]);
  }

  // ---------- Order by last bond ----------

  /** The table with the time each node was last moved or put to the front of its bucket. */
  datatype Stamped = Stamped(tab: Tab, at: map<NodeId, nat>, clock: nat)

  /** A bond stamps its node if the node ends up in the table. */
  function ApplyStamped(s: Stamped, op: Op): (r: Stamped)
    requires |s.tab.buckets| == N_BUCKETS
    ensures |r.tab.buckets| == N_BUCKETS && r.tab == Apply(s.tab, op)
  {
    var t := Apply(s.tab, op);
    match op
    case Bond(n, _) =>
      var b := t.buckets[IndexOf(s.tab, n)];
      if b != [] && b[0] == n then Stamped(t, s.at[n.id := s.clock + 1], s.clock + 1) else s.(tab := t)
    case _ => s.(tab := t)
  }

  ghost predicate StampsFall(b: Bucket, at: map<NodeId, nat>, clock: nat) {
    && (forall k :: 0 <= k < |b| ==> b[k].id in at && at[b[k].id] <= clock)
    && (forall k, l :: 0 <= k < l < |b| ==> at[b[k].id] > at[b[l].id])
  }

  ghost predicate BucketNewestFirst(s: Stamped, i: nat)
    requires i < |s.tab.buckets|
  {
    StampsFall(s.tab.buckets[i], s.at, s.clock)
  }

  ghost predicate NewestFirst(s: Stamped) {
    |s.tab.buckets| == N_BUCKETS && forall i :: 0 <= i < N_BUCKETS ==> BucketNewestFirst(s, i)
  }

  lemma RemoveNewestFirst(s: Stamped, r: Stamped, i: nat, k: nat)
    requires i < |s.tab.buckets| && i < |r.tab.buckets| && BucketNewestFirst(s, i) && k < |s.tab.buckets[i]|
    requires r.tab.buckets[i] == RemoveAt(s.tab.buckets[i], k) && r.at == s.at && r.clock == s.clock
    ensures BucketNewestFirst(r, i)
  {
  }

  /** The index, before entry `f` was taken out, of what is then at index `j`. */
  function Skip(f: nat, j: nat): nat {
    if j < f then j else j + 1
  }

  /** The entries that stay behind a node put to the front are older ones, in their old order. */
  lemma PlaceShape(es: Bucket, n: Node, alive: bool) returns (rest: Bucket)
    requires DistinctIds(es)
    ensures Place(es, n, alive) == [n] + rest || (Place(es, n, alive) == es && rest == [] && Find(es, n.id) == |es| == BUCKET_SIZE && alive)
    ensures forall j :: 0 <= j < |rest| ==> rest[j].id != n.id
    ensures forall j :: 0 <= j < |rest| ==> Skip(Find(es, n.id), j) < |es| && rest[j] == es[Skip(Find(es, n.id), j)]
    ensures |rest| <= |es|
  {
    var k := Find(es, n.id);
    if k < |es| {
      rest := RemoveAt(es, k);
      assert forall j :: 0 <= j < |rest| ==> rest[j] == es[if j < k then j else j + 1];
    } else if |es| == BUCKET_SIZE {
      rest := if alive then [] else es[..BUCKET_SIZE - 1];
    } else {
      rest := es;
    }
  }

  lemma KeptStampsFall(es: Bucket, at: map<NodeId, nat>, clock: nat, rest: Bucket, f: nat)
    requires StampsFall(es, at, clock)
    requires forall j :: 0 <= j < |rest| ==> Skip(f, j) < |es| && rest[j] == es[Skip(f, j)]
    ensures StampsFall(rest, at, clock)
  {
  }

  lemma FrontStampsFall(at: map<NodeId, nat>, clock: nat, n: Node, rest: Bucket)
    requires StampsFall(rest, at, clock)
    requires forall j :: 0 <= j < |rest| ==> rest[j].id != n.id
    ensures StampsFall([n] + rest, at[n.id := clock + 1], clock + 1)
  {
  }

  /** What a bond does to its bucket and to the stamps. */
  lemma BondStamps(s: Stamped, n: Node, alive: bool)
    requires |s.tab.buckets| == N_BUCKETS
    ensures var i, r := IndexOf(s.tab, n), ApplyStamped(s, Bond(n, alive));
            var b := Place(s.tab.buckets[i], n, alive);
            && r.tab.buckets[i] == b
            && (b != [] && b[0] == n ==> r.at == s.at[n.id := s.clock + 1] && r.clock == s.clock + 1)
            && (b == [] || b[0] != n ==> r.at == s.at && r.clock == s.clock)
  {
    hide Place, Find, LogDist;
  }

  lemma BondBucketNewestFirst(s: Stamped, n: Node, alive: bool)
    requires NewestFirst(s) && DistinctIds(s.tab.buckets[IndexOf(s.tab, n)])
    ensures BucketNewestFirst(ApplyStamped(s, Bond(n, alive)), IndexOf(s.tab, n))
  {
    var i := IndexOf(s.tab, n);
    var es, f := s.tab.buckets[i], Find(s.tab.buckets[i], n.id);
    assert BucketNewestFirst(s, i);
    var rest := PlaceShape(es, n, alive);
    BondStamps(s, n, alive);
    hide Place, Find, IndexOf, ApplyStamped, StampsFall, NewestFirst;
    if Place(es, n, alive) == [n] + rest {
      KeptStampsFall(es, s.at, s.clock, rest, f);
      FrontStampsFall(s.at, s.clock, n, rest);
    } else {
      assert forall k :: 0 <= k < |es| ==> es[k] != n;
    }
  }

  lemma BondNewestFirst(h: HashFn, s: Stamped, n: Node, alive: bool)
    requires WellFormed(h, s.tab) && NewestFirst(s) && Hashed(h, n)
    ensures NewestFirst(ApplyStamped(s, Bond(n, alive)))
  {
    var i, r := IndexOf(s.tab, n), ApplyStamped(s, Bond(n, alive));
    assert BucketOk(h, s.tab.self.hash, i, s.tab.buckets[i]);
    BondBucketNewestFirst(s, n, alive);
    hide Place, LogDist;
    forall j | 0 <= j < N_BUCKETS && j != i
      ensures BucketNewestFirst(r, j)
    {
      var b := s.tab.buckets[j];
      assert BucketNewestFirst(s, j) && BucketOk(h, s.tab.self.hash, j, b);
      forall k | 0 <= k < |b|
        ensures b[k].id != n.id
      {
        assert EntryOk(h, s.tab.self.hash, j, b[k]);
      }
    }
  }

  lemma DelNewestFirst(s: Stamped, n: Node)
    requires NewestFirst(s)
    ensures NewestFirst(ApplyStamped(s, Del(n)))
  {
    var i, r := IndexOf(s.tab, n), ApplyStamped(s, Del(n));
    var k := Find(s.tab.buckets[i], n.id);
    assert BucketNewestFirst(s, i);
    if k < |s.tab.buckets[i]| {
      RemoveNewestFirst(s, r, i, k);
    }
    forall j | 0 <= j < N_BUCKETS && j != i
      ensures BucketNewestFirst(r, j)
    {
      assert BucketNewestFirst(s, j);
    }
  }

  function ApplyAllStamped(s: Stamped, ops: seq<Op>): (r: Stamped)
    requires |s.tab.buckets| == N_BUCKETS
    ensures |r.tab.buckets| == N_BUCKETS
  {
    if ops == [] then s else ApplyStamped(ApplyAllStamped(s, ops[..|ops| - 1]), ops[|ops| - 1])
  }

  lemma {:induction false} StampedRun(h: HashFn, s: Stamped, ops: seq<Op>)
    requires WellFormed(h, s.tab) && NewestFirst(s)
    requires forall i :: 0 <= i < |ops| ==> OpHashed(h, ops[i]) && !ops[i].Add?
    ensures var r := ApplyAllStamped(s, ops);
            r.tab == ApplyAll(s.tab, ops) && WellFormed(h, r.tab) && NewestFirst(r)
  {
    if ops != [] {
      var m, op := ApplyAllStamped(s, ops[..|ops| - 1]), ops[|ops| - 1];
      StampedRun(h, s, ops[..|ops| - 1]);
      ApplyOk(h, m.tab, op);
      if op.Bond? {
        BondNewestFirst(h, m, op.node, op.lastAlive);
      } else {
        DelNewestFirst(m, op.node);
      }
    }
  }

  /** Without `add`, each bucket is ordered by when its nodes last bonded, newest first; the comment at
      the bucket type says the opposite. */
  lemma BucketsNewestFirst(h: HashFn, self: Node, ops: seq<Op>)
    requires forall i :: 0 <= i < |ops| ==> OpHashed(h, ops[i]) && !ops[i].Add?
    ensures var r := ApplyAllStamped(Stamped(Empty(self), map[], 0), ops);
            && r.tab == ApplyAll(Empty(self), ops)
            && (forall i, k :: Holds(r.tab, i, k) ==> r.tab.buckets[i][k].id in r.at)
            && (forall i, k, l :: Holds(r.tab, i, k) && Holds(r.tab, i, l) && k < l ==>
                  r.at[r.tab.buckets[i][k].id] > r.at[r.tab.buckets[i][l].id])
  {
    StampedRun(h, Stamped(Empty(self), map[], 0), ops);
    var r := ApplyAllStamped(Stamped(Empty(self), map[], 0), ops);
    assert forall i, k :: Holds(r.tab, i, k) ==> BucketNewestFirst(r, i);
  }

  /** The order the comment at the bucket type describes: the entry bonded last is at the end. */
  ghost predicate NewestLast(b: Bucket, at: map<NodeId, nat>)
    requires forall k :: 0 <= k < |b| ==> b[k].id in at
  {
    forall k, l :: 0 <= k < l < |b| ==> at[b[k].id] < at[b[l].id]
  }

  /** Without `add`, a bucket is in that order exactly if it holds at most one node. */
  lemma NewestLastExactly(h: HashFn, self: Node, ops: seq<Op>, i: nat)
    requires (forall i :: 0 <= i < |ops| ==> OpHashed(h, ops[i]) && !ops[i].Add?) && i < N_BUCKETS
    ensures var r := ApplyAllStamped(Stamped(Empty(self), map[], 0), ops);
            && (forall k :: 0 <= k < |r.tab.buckets[i]| ==> r.tab.buckets[i][k].id in r.at)
            && (NewestLast(r.tab.buckets[i], r.at) <==> |r.tab.buckets[i]| <= 1)
  {
    StampedRun(h, Stamped(Empty(self), map[], 0), ops);
    hide ApplyAllStamped;
    var r := ApplyAllStamped(Stamped(Empty(self), map[], 0), ops);
    assert BucketNewestFirst(r, i);
    var b := r.tab.buckets[i];
    assert |b| > 1 ==> r.at[b[0].id] > r.at[b[1].id];
  }

  /** Bonding evicts nobody but the last node of a full bucket that failed to answer a ping. */
  lemma BondEvicts(es: Bucket, n: Node, alive: bool, k: nat)
    requires DistinctIds(es) && |es| <= BUCKET_SIZE && k < |es|
    ensures (exists j :: 0 <= j < |Place(es, n, alive)| && Place(es, n, alive)[j].id == es[k].id)
       <==> !(k == BUCKET_SIZE - 1 && !alive && Find(es, n.id) == |es|)
  {
    var p, f := Place(es, n, alive), Find(es, n.id);
    hide Find;
    if f < |es| {
      var j := if k == f then 0 else if k < f then k + 1 else k;
      assert p[j].id == es[k].id;
    } else if |es| == BUCKET_SIZE {
      if alive {
        assert p[k].id == es[k].id;
      } else if k < BUCKET_SIZE - 1 {
        assert p[k + 1].id == es[k].id;
      }
    } else {
      assert p[k + 1].id == es[k].id;
    }
  }
}
