/** What the findnode handler of discover/types.go answers: the nodes nearest to the sender, whatever the
    target it asks for, and of these only a packet that lists a single node leaves. */
module FindnodeAnswer {
  import opened NodeTypes
  import opened XorMetric
  import opened Closest
  import opened WireSize

  const MAX_NEIGHBORS := 1024

  /** The 16 nodes of a table nearest to `to`. */
  function Nearest(table: seq<Node>, to: Hash): seq<Node> {
    Take(SortAll(ByDistance(to), table), BUCKET_SIZE)
  }

  /** The loop that cuts the closest nodes into packets: they are handed on in order, in packets that are
      full except for the last, which is not empty. */
  method Chunk(closest: seq<Node>) returns (packets: seq<seq<Node>>)
    ensures Flatten(packets) == closest
    ensures forall i :: 0 <= i < |packets| ==> 0 < |packets[i]| <= MAX_NEIGHBORS
    ensures forall i :: 0 <= i < |packets| - 1 ==> |packets[i]| == MAX_NEIGHBORS
  {
    packets := [];
    var nodes: seq<Node> := [];
    for i := 0 to |closest|
      invariant Flatten(packets) + nodes == closest[..i]
      invariant forall k :: 0 <= k < |packets| ==> 0 < |packets[k]| <= MAX_NEIGHBORS
      invariant forall k :: 0 <= k < |packets| && (k < |packets| - 1 || i < |closest|) ==> |packets[k]| == MAX_NEIGHBORS
      invariant |nodes| < MAX_NEIGHBORS && (i == |closest| ==> nodes == [])
    {
      nodes := nodes + [closest[i]];
      assert Flatten(packets) + nodes == closest[..i + 1];
      if |nodes| == MAX_NEIGHBORS || i == |closest| - 1 {
        FlattenAppend(packets, nodes);
        packets := packets + [nodes];
        nodes := [];
      }
    }
  }

  lemma FlattenAppend(ps: seq<seq<Node>>, p: seq<Node>)
    ensures Flatten(ps + [p]) == Flatten(ps) + p
  {
    assert (ps + [p])[..|ps|] == ps;
  }

  /** Few nodes make one packet. */
  lemma OnePacket(packets: seq<seq<Node>>)
    requires |Flatten(packets)| <= BUCKET_SIZE
    requires forall i :: 0 <= i < |packets| ==> 0 < |packets[i]|
    requires forall i :: 0 <= i < |packets| - 1 ==> |packets[i]| == MAX_NEIGHBORS
    ensures packets == if Flatten(packets) == [] then [] else [Flatten(packets)]
  {
    if |packets| == 1 {
      assert packets == [] + [packets[0]];
      FlattenAppend([], packets[0]);
      assert Flatten([]) + packets[0] == packets[0];
    }
  }

  /** The packets that leave. */
  function Departing(ip: IpText, packets: seq<seq<Node>>, expiration: nat): seq<seq<Node>> {
    if packets == [] then []
    else
      var m := |packets| - 1;
      Departing(ip, packets[..m], expiration) + if Leaves(NeighborsText(ip, packets[m], expiration)) then [packets[m]] else []
  }

  method SendAll(ip: IpText, packets: seq<seq<Node>>, expiration: nat) returns (sent: seq<seq<Node>>)
    ensures sent == Departing(ip, packets, expiration)
  {
    sent := [];
    for i := 0 to |packets|
      invariant sent == Departing(ip, packets[..i], expiration)
    {
      assert packets[..i + 1][..i] == packets[..i];
      if Leaves(NeighborsText(ip, packets[i], expiration)) {
        sent := sent + [packets[i]];
      }
    }
    assert packets[..|packets|] == packets;
  }

  /** `n` listed alone makes a packet that fits. */
  predicate FitsAlone(ip: IpText, n: Node, expiration: nat) {
    ip(n.ip).Some? && NodeText(ip(n.ip).value, n) + Decimal(expiration) < 230
  }

  lemma DepartingOne(ip: IpText, p: seq<Node>, expiration: nat)
    requires p != []
    ensures Departing(ip, [p], expiration) == if |p| == 1 && FitsAlone(ip, p[0], expiration) then [p] else []
    ensures Departing(ip, [], expiration) == []
  {
    NeighborsLeaveExactly(ip, p, expiration);
    assert [p][..0] == [];
  }

  /** The handler: `handed` is what it passes to send, `sent` what leaves. A request that is out of date or
      from a node without a record gets nothing; otherwise one packet with the nodes nearest to the sender
      is built, whatever the target, and it leaves exactly if it lists one node only and fits. */
  method HandleFindnode(expired: bool, known: bool, digest: NodeId -> Hash, buckets: seq<seq<Node>>,
                        from: NodeId, target: NodeId, ip: IpText, expiration: nat)
    returns (handed: seq<seq<Node>>, sent: seq<seq<Node>>)
    ensures var near := Nearest(Flatten(buckets), digest(from));
            && handed == (if expired || !known || near == [] then [] else [near])
            && sent == (if handed != [] && |near| == 1 && FitsAlone(ip, near[0], expiration) then [near] else [])
  {
    handed, sent := [], [];
    if expired || !known {
      return;
    }
    var closest := FindClosest(buckets, digest(from), BUCKET_SIZE);
    handed := Chunk(closest);
    OnePacket(handed);
    sent := SendAll(ip, handed, expiration);
    if closest != [] {
      DepartingOne(ip, closest, expiration);
    }
  }

  // ---------- Is it the right answer? ----------

  ghost predicate DistinctHashes(ns: seq<Node>) {
    forall i, j :: 0 <= i < j < |ns| ==> ns[i].hash != ns[j].hash
  }

  /** The same nodes, in whatever order. */
  ghost predicate SameNodes(a: seq<Node>, b: seq<Node>) {
    multiset(a) == multiset(b)
  }

  lemma {:induction false} OnceEach(ns: seq<Node>, n: Node)
    requires DistinctHashes(ns)
    ensures multiset(ns)[n] <= 1
  {
    if ns != [] {
      var m := |ns| - 1;
      OnceEach(ns[..m], n);
      assert ns == ns[..m] + [ns[m]];
      if ns[m] == n {
        assert n !in ns[..m];
      }
    }
  }

  lemma SameHashSameNode(ns: seq<Node>, x: Node, y: Node)
    requires DistinctHashes(ns) && x in ns && y in ns && x.hash == y.hash
    ensures x == y
  {
  }

  /** The node itself is the nearest to its own digest. */
  lemma SelfIsNearest(table: seq<Node>, n: Node)
    requires DistinctHashes(table) && n in table
    ensures n in Nearest(table, n.hash)
  {
    var rank, s := ByDistance(n.hash), SortAll(ByDistance(n.hash), table);
    SortAllSorts(rank, table);
    hide SortAll, DistinctHashes, Dist;
    assert n in multiset(table) && s[0] in multiset(s);
    var i :| 0 <= i < |s| && s[i] == n;
    assert rank(s[0]) <= rank(s[i]);
    DistIsMetricLike(n.hash, n.hash);
    DistIsMetricLike(n.hash, s[0].hash);
    SameHashSameNode(table, s[0], n);
  }

  /** Every node of the table carries the digest of its identifier, and no two the same. */
  ghost predicate ProperTable(digest: NodeId -> Hash, table: seq<Node>) {
    DistinctHashes(table) && forall i :: 0 <= i < |table| ==> table[i].hash == digest(table[i].id)
  }

  /** In a table of more than 16 nodes the answer is wrong for some target: a node left out of it. */
  lemma WrongAnswer(digest: NodeId -> Hash, table: seq<Node>, from: NodeId) returns (missed: Node)
    requires ProperTable(digest, table) && |table| > BUCKET_SIZE
    ensures missed in table && missed in Nearest(table, digest(missed.id)) && missed !in Nearest(table, digest(from))
  {
    var s := SortAll(ByDistance(digest(from)), table);
    SortAllSorts(ByDistance(digest(from)), table);
    missed := s[BUCKET_SIZE];
    assert missed in multiset(table);
    SelfIsNearest(table, missed);
    OnceEach(table, missed);
    assert s == s[..BUCKET_SIZE] + s[BUCKET_SIZE..];
    assert s[BUCKET_SIZE..][0] == missed;
    assert missed in multiset(s[BUCKET_SIZE..]);
  }

  /** Exactly when a findnode request gets the right nodes whatever its target: the table holds at most 16. */
  lemma RightExactlyWhenSmall(digest: NodeId -> Hash, table: seq<Node>, from: NodeId)
    requires ProperTable(digest, table)
    ensures (forall target: NodeId :: SameNodes(Nearest(table, digest(from)), Nearest(table, digest(target)))) <==>
            |table| <= BUCKET_SIZE
  {
    var near := Nearest(table, digest(from));
    SortAllSorts(ByDistance(digest(from)), table);
    if |table| <= BUCKET_SIZE {
      forall target: NodeId
        ensures SameNodes(near, Nearest(table, digest(target)))
      {
        SortAllSorts(ByDistance(digest(target)), table);
      }
    } else {
      var missed := WrongAnswer(digest, table, from);
      var right := Nearest(table, digest(missed.id));
      assert missed in multiset(right) && missed !in multiset(near);
      assert !SameNodes(near, right);
    }
  }
}
