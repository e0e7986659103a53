/** Our own node in our table: `add` keeps it out, `bond` does not. Exactly when the table of
    discover/table.go holds it, after every operation and every sequence of them. */
module OwnNode {
  import opened NodeTypes
  import opened XorMetric
  import opened Table

  predicate Has(es: Bucket, id: NodeId) {
    Find(es, id) < |es|
  }

  ghost predicate HoldsOwn(t: Tab) {
    exists i, k :: Holds(t, i, k) && t.buckets[i][k].id == t.self.id
  }

  lemma HasAt(es: Bucket, id: NodeId)
    ensures Has(es, id) <==> exists k :: 0 <= k < |es| && es[k].id == id
  {
  }

  /** Our own node is at distance zero from itself, so only the first bucket can hold it. */
  lemma OwnBucket(h: HashFn, t: Tab)
    requires WellFormed(h, t) && Hashed(h, t.self)
    ensures HoldsOwn(t) <==> Has(t.buckets[0], t.self.id)
  {
    var own := t.self;
    DistIsMetricLike(own.hash, own.hash);
    HasAt(t.buckets[0], own.id);
    if i, k :| Holds(t, i, k) && t.buckets[i][k].id == own.id {
      assert BucketOk(h, own.hash, i, t.buckets[i]);
      assert EntryOk(h, own.hash, i, t.buckets[i][k]);
    }
    if k :| 0 <= k < |t.buckets[0]| && t.buckets[0][k].id == own.id {
      assert Holds(t, 0, k);
    }
  }

  /** What a bond with another node leaves of an entry. */
  lemma PlaceHas(es: Bucket, n: Node, alive: bool, id: NodeId)
    requires DistinctIds(es) && |es| <= BUCKET_SIZE
    ensures n.id == id ==> (Has(Place(es, n, alive), id) <==> Has(es, id) || |es| < BUCKET_SIZE || !alive)
    ensures n.id != id ==> (Has(Place(es, n, alive), id) <==>
              Has(es, id) && !(|es| == BUCKET_SIZE && es[BUCKET_SIZE - 1].id == id && !Has(es, n.id) && !alive))
  {
    var p, f := Place(es, n, alive), Find(es, n.id);
    HasAt(es, id);
    HasAt(p, id);
    if n.id == id {
      assert p != [] && p[0] == n ==> Has(p, id);
    } else if Has(es, id) {
      BondEvicts(es, n, alive, Find(es, id));
    } else {
      var rest := PlaceShape(es, n, alive);
      forall k | 0 <= k < |p|
        ensures p[k].id != id
      {
        if k > 0 && p == [n] + rest {
          assert p[k] == rest[k - 1];
        }
      }
    }
  }

  lemma {:induction false} AddKeepsOwn(t: Tab, ns: seq<Node>)
    requires |t.buckets| == N_BUCKETS
    ensures Has(AddAll(t, ns).buckets[0], t.self.id) <==> Has(t.buckets[0], t.self.id)
    decreases |ns|
  {
    if ns != [] {
      if ns[0].id == t.self.id {
        AddKeepsOwn(t, ns[1..]);
      } else {
        var i := IndexOf(t, ns[0]);
        var es := t.buckets[i];
        AddKeepsOwn(t.(buckets := t.buckets[i := AddLast(es, ns[0])]), ns[1..]);
        HasAt(es, t.self.id);
        HasAt(AddLast(es, ns[0]), t.self.id);
        assert forall k :: 0 <= k < |es| ==> AddLast(es, ns[0])[k] == es[k];
      }
    }
  }

  lemma DeleteHas(es: Bucket, gone: NodeId, id: NodeId)
    requires DistinctIds(es)
    ensures Has(Delete(es, gone), id) <==> Has(es, id) && id != gone
  {
    var r, f := Delete(es, gone), Find(es, gone);
    HasAt(es, id);
    HasAt(r, id);
    if f < |es| {
      assert forall k :: 0 <= k < |r| ==> r[k] == es[Skip(f, k)];
      if k :| 0 <= k < |es| && es[k].id == id && k != f {
        assert r[if k < f then k else k - 1] == es[k];
      }
    }
  }

  /** Bonding `n` pushes our own node off the end of its bucket. */
  predicate EvictsOwn(t: Tab, n: Node, alive: bool)
    requires |t.buckets| == N_BUCKETS
  {
    var es := t.buckets[0];
    && IndexOf(t, n) == 0 && |es| == BUCKET_SIZE && es[BUCKET_SIZE - 1].id == t.self.id && !Has(es, n.id) && !alive
  }

  /** The table that `op` leaves holds our own node. */
  ghost predicate KeepsOwn(t: Tab, op: Op)
    requires |t.buckets| == N_BUCKETS
  {
    match op
    case Add(_) => HoldsOwn(t)
    case Del(n) => HoldsOwn(t) && n.id != t.self.id
    case Bond(n, alive) =>
      if n.id == t.self.id then HoldsOwn(t) || |t.buckets[0]| < BUCKET_SIZE || !alive
      else HoldsOwn(t) && !EvictsOwn(t, n, alive)
  }

  /** Exactly what each operation does to our own node. */
  lemma OwnStep(h: HashFn, t: Tab, op: Op)
    requires WellFormed(h, t) && Hashed(h, t.self) && OpHashed(h, op)
    ensures HoldsOwn(Apply(t, op)) <==> KeepsOwn(t, op)
  {
    ApplyOk(h, t, op);
    OwnBucket(h, t);
    OwnBucket(h, Apply(t, op));
    assert BucketOk(h, t.self.hash, 0, t.buckets[0]);
    DistIsMetricLike(t.self.hash, t.self.hash);
    match op
    case Add(ns) => AddKeepsOwn(t, ns);
    case Del(n) => DeleteHas(t.buckets[0], n.id, t.self.id);
    case Bond(n, alive) => PlaceHas(t.buckets[0], n, alive, t.self.id);
  }

  /** Operation `i` bonds our own node, and none behind it deletes it. */
  predicate BondedAndKept(own: NodeId, ops: seq<Op>, i: nat) {
    && i < |ops| && ops[i].Bond? && ops[i].node.id == own
    && forall j :: i < j < |ops| && ops[j].Del? ==> ops[j].node.id != own
  }

  ghost predicate AllHashed(h: HashFn, ops: seq<Op>) {
    forall i :: 0 <= i < |ops| ==> OpHashed(h, ops[i])
  }

  /** The last of a sequence of operations. */
  lemma OwnLast(h: HashFn, own: Node, ops: seq<Op>)
    requires Hashed(h, own) && AllHashed(h, ops) && ops != []
    ensures var m := |ops| - 1;
            var t := ApplyAll(Empty(own), ops[..m]);
            && AllHashed(h, ops[..m]) && WellFormed(h, t) && t.self == own
            && (HoldsOwn(ApplyAll(Empty(own), ops)) <==> KeepsOwn(t, ops[m]))
  {
    var m := |ops| - 1;
    ApplyAllOk(h, Empty(own), ops[..m]);
    OwnStep(h, ApplyAll(Empty(own), ops[..m]), ops[m]);
  }

  lemma EmptyHasNoOwn(own: Node)
    ensures !HoldsOwn(ApplyAll(Empty(own), []))
  {
  }

  lemma KeptEarlier(own: NodeId, ops: seq<Op>, i: nat)
    requires ops != [] && i < |ops| - 1
    ensures var m := |ops| - 1;
            BondedAndKept(own, ops, i) <==> BondedAndKept(own, ops[..m], i) && !(ops[m].Del? && ops[m].node.id == own)
  {
    var m := |ops| - 1;
    assert forall j :: 0 <= j < m ==> ops[..m][j] == ops[j];
  }

  /** Our own node is in the table only if it was bonded and not deleted since. */
  lemma {:induction false} OwnOnlyByBond(h: HashFn, own: Node, ops: seq<Op>) returns (i: nat)
    requires Hashed(h, own) && AllHashed(h, ops) && HoldsOwn(ApplyAll(Empty(own), ops))
    ensures BondedAndKept(own.id, ops, i)
  {
    hide HoldsOwn, ApplyAll, Empty, AllHashed, EvictsOwn, WellFormed, Hashed;
    EmptyHasNoOwn(own);
    var m := |ops| - 1;
    OwnLast(h, own, ops);
    if ops[m].Bond? && ops[m].node.id == own.id {
      i := m;
    } else {
      i := OwnOnlyByBond(h, own, ops[..m]);
      KeptEarlier(own.id, ops, i);
    }
  }

  /** No other identifier has our digest. */
  ghost predicate NoCollision(h: HashFn, own: NodeId) {
    forall id :: h(id) == h(own) ==> id == own
  }

  lemma EntryIsOwn(h: HashFn, t: Tab, k: nat)
    requires WellFormed(h, t) && Hashed(h, t.self) && NoCollision(h, t.self.id) && k < |t.buckets[0]|
    ensures t.buckets[0][k].id == t.self.id
  {
    assert BucketOk(h, t.self.hash, 0, t.buckets[0]);
    assert EntryOk(h, t.self.hash, 0, t.buckets[0][k]);
    DistIsMetricLike(t.self.hash, t.buckets[0][k].hash);
  }

  /** Then the first bucket holds nobody else, so it is never full. */
  lemma FirstBucketSmall(h: HashFn, t: Tab)
    requires WellFormed(h, t) && Hashed(h, t.self) && NoCollision(h, t.self.id)
    ensures |t.buckets[0]| <= 1
  {
    assert BucketOk(h, t.self.hash, 0, t.buckets[0]);
    if |t.buckets[0]| > 1 {
      EntryIsOwn(h, t, 0);
      EntryIsOwn(h, t, 1);
    }
  }

  lemma {:induction false} BondedIsHeld(h: HashFn, own: Node, ops: seq<Op>, i: nat)
    requires Hashed(h, own) && AllHashed(h, ops) && NoCollision(h, own.id) && BondedAndKept(own.id, ops, i)
    ensures HoldsOwn(ApplyAll(Empty(own), ops))
    decreases |ops|
  {
    hide HoldsOwn, ApplyAll, Empty, AllHashed, WellFormed, Hashed, NoCollision;
    var m := |ops| - 1;
    OwnLast(h, own, ops);
    FirstBucketSmall(h, ApplyAll(Empty(own), ops[..m]));
    if i < m {
      KeptEarlier(own.id, ops, i);
      BondedIsHeld(h, own, ops[..m], i);
    }
  }

  /** For every sequence of operations: the table holds our own node exactly if some operation bonds it
      and no later one deletes it. */
  lemma OwnExactly(h: HashFn, own: Node, ops: seq<Op>)
    requires Hashed(h, own) && AllHashed(h, ops) && NoCollision(h, own.id)
    ensures HoldsOwn(ApplyAll(Empty(own), ops)) <==> exists i: nat :: BondedAndKept(own.id, ops, i)
  {
    if HoldsOwn(ApplyAll(Empty(own), ops)) {
      var i := OwnOnlyByBond(h, own, ops);
    }
    if i: nat :| BondedAndKept(own.id, ops, i) {
      BondedIsHeld(h, own, ops, i);
    }
  }

  /** One bond with ourselves puts us into our own table. */
  lemma OwnExample(own: Node, alive: bool)
    ensures HoldsOwn(Apply(Empty(own), Bond(own, alive)))
  {
    var t := Apply(Empty(own), Bond(own, alive));
    var i := IndexOf(Empty(own), own);
    assert t.buckets[i] == [own];
    assert Holds(t, i, 0);
  }

  // ---------- Any node ----------

  ghost predicate HoldsId(t: Tab, id: NodeId) {
    exists i, k :: Holds(t, i, k) && t.buckets[i][k].id == id
  }

  /** Only the bucket of its distance can hold a node. */
  lemma InItsBucket(h: HashFn, t: Tab, n: Node)
    requires WellFormed(h, t) && Hashed(h, n)
    ensures HoldsId(t, n.id) <==> Has(t.buckets[IndexOf(t, n)], n.id)
  {
    var b := IndexOf(t, n);
    HasAt(t.buckets[b], n.id);
    if i, k :| Holds(t, i, k) && t.buckets[i][k].id == n.id {
      assert BucketOk(h, t.self.hash, i, t.buckets[i]);
      assert EntryOk(h, t.self.hash, i, t.buckets[i][k]);
    }
    if k :| 0 <= k < |t.buckets[b]| && t.buckets[b][k].id == n.id {
      assert Holds(t, b, k);
    }
  }

  /** Exactly who is in the table after a bond: its node, unless the bucket is full of others and the last of
      them answers; and everyone else, but for that last one if it does not. */
  lemma BondMembers(h: HashFn, t: Tab, m: Node, alive: bool, n: Node)
    requires WellFormed(h, t) && Hashed(h, m) && Hashed(h, n)
    ensures var es, r := t.buckets[IndexOf(t, m)], Apply(t, Bond(m, alive));
            && (n.id == m.id ==> (HoldsId(r, n.id) <==> HoldsId(t, n.id) || |es| < 16 || !alive))
            && (n.id != m.id ==> (HoldsId(r, n.id) <==>
                  HoldsId(t, n.id) && !(|es| == 16 && es[15].id == n.id && !HoldsId(t, m.id) && !alive)))
  {
    var i, r := IndexOf(t, m), Apply(t, Bond(m, alive));
    ApplyOk(h, t, Bond(m, alive));
    InItsBucket(h, t, n);
    InItsBucket(h, t, m);
    InItsBucket(h, r, n);
    assert BucketOk(h, t.self.hash, i, t.buckets[i]);
    hide Place, Has, HoldsId, LogDist;
    PlaceHas(t.buckets[i], m, alive, n.id);
    if |t.buckets[i]| == 16 && t.buckets[i][15].id == n.id {
      assert EntryOk(h, t.self.hash, i, t.buckets[i][15]);
    }
  }

  /** Exactly who is in the table after a deletion. */
  lemma DelMembers(h: HashFn, t: Tab, m: Node, n: Node)
    requires WellFormed(h, t) && Hashed(h, m) && Hashed(h, n)
    ensures HoldsId(Apply(t, Del(m)), n.id) <==> HoldsId(t, n.id) && n.id != m.id
  {
    var i, r := IndexOf(t, m), Apply(t, Del(m));
    ApplyOk(h, t, Del(m));
    InItsBucket(h, t, n);
    InItsBucket(h, r, n);
    assert BucketOk(h, t.self.hash, i, t.buckets[i]);
    DeleteHas(t.buckets[i], m.id, n.id);
  }

  /** Exactly who is in the table after adding one node: that node too, if it is not ourselves and its bucket
      has room. Nobody is moved. */
  lemma AddMembers(h: HashFn, t: Tab, m: Node, n: Node)
    requires WellFormed(h, t) && Hashed(h, m) && Hashed(h, n)
    ensures HoldsId(Apply(t, Add([m])), n.id) <==>
            HoldsId(t, n.id) || (n.id == m.id && m.id != t.self.id && |t.buckets[IndexOf(t, m)]| < 16)
    ensures forall b :: 0 <= b < N_BUCKETS ==> t.buckets[b] <= Apply(t, Add([m])).buckets[b]
  {
    var i, r := IndexOf(t, m), Apply(t, Add([m]));
    ApplyOk(h, t, Add([m]));
    InItsBucket(h, t, n);
    InItsBucket(h, r, n);
    AddOne(t, m);
    AddHas(t.buckets[i], m, n.id);
    hide Has, HoldsId, LogDist, AddLast, Apply, WellFormed;
  }

  lemma AddOne(t: Tab, m: Node)
    requires |t.buckets| == N_BUCKETS
    ensures var i := IndexOf(t, m);
            Apply(t, Add([m])).buckets == if m.id == t.self.id then t.buckets else t.buckets[i := AddLast(t.buckets[i], m)]
  {
    hide LogDist, AddLast;
    var i := IndexOf(t, m);
    var u := t.(buckets := t.buckets[i := AddLast(t.buckets[i], m)]);
    assert [m][1..] == [] && [m][0] == m;
    assert AddAll(t, []) == t && AddAll(u, []) == u;
  }

  lemma AddHas(es: Bucket, m: Node, id: NodeId)
    ensures Has(AddLast(es, m), id) <==> Has(es, id) || (id == m.id && |es| < BUCKET_SIZE)
    ensures es <= AddLast(es, m)
  {
    HasAt(es, id);
    HasAt(AddLast(es, m), id);
    HasAt(es, m.id);
    if Has(es, id) {
      var k :| 0 <= k < |es| && es[k].id == id;
      assert AddLast(es, m)[k].id == id;
    } else if id == m.id && |es| < BUCKET_SIZE {
      assert AddLast(es, m)[|es|] == m;
    }
  }

  /** Adding several nodes is adding them one after the other. */
  lemma {:induction false} AddOneByOne(t: Tab, ns: seq<Node>, m: Node)
    requires |t.buckets| == N_BUCKETS
    ensures Apply(t, Add(ns + [m])) == Apply(Apply(t, Add(ns)), Add([m]))
    decreases |ns|
  {
    hide LogDist, AddLast;
    if ns == [] {
      assert ns + [m] == [m];
    } else {
      assert (ns + [m])[1..] == ns[1..] + [m] && (ns + [m])[0] == ns[0];
      if ns[0].id == t.self.id {
        AddOneByOne(t, ns[1..], m);
      } else {
        var i := IndexOf(t, ns[0]);
        AddOneByOne(t.(buckets := t.buckets[i := AddLast(t.buckets[i], ns[0])]), ns[1..], m);
      }
    }
  }
}
