/** The mutable table of discover/table.go: the loops over bucket entries are proved to compute the
    operations of the Table module, and reading random nodes is proved to write distinct ones. */
module TableStore {
  import opened NodeTypes
  import opened XorMetric
  import opened Table
  import DialState

  class KadTable {
    const self: Node
    var buckets: seq<Bucket>

    ghost predicate Valid()
      reads this
    {
      |buckets| == N_BUCKETS
    }

    ghost function Abs(): Tab
      reads this
    {
      Tab(self, buckets)
    }

    constructor (self: Node)
      ensures Valid() && Abs() == Empty(self)
    {
      this.self := self;
      buckets := seq(N_BUCKETS, _ => []);
    }

    method BucketIndex(n: Node) returns (i: nat)
      ensures i == IndexOf(Abs(), n)
    {
      var d := ComputeLogDist(self.hash, n.hash);
      LogDistBound(self.hash, n.hash);
      i := d;
    }

    /** bump: moves a known node to the front of its bucket. */
    method Bump(i: nat, n: Node) returns (found: bool)
      requires Valid() && i < N_BUCKETS
      modifies this
      ensures Valid() && found == (Find(old(buckets)[i], n.id) < |old(buckets)[i]|)
      ensures buckets == if found then old(buckets)[i := Place(old(buckets)[i], n, true)] else old(buckets)
    {
      var es := buckets[i];
      for k := 0 to |es|
        invariant forall j :: 0 <= j < k ==> es[j].id != n.id
        invariant buckets == old(buckets)
      {
        if es[k].id == n.id {
          FindFirst(es, n.id, k);
          buckets := buckets[i := [n] + es[..k] + es[k + 1..]];
          assert [n] + es[..k] + es[k + 1..] == [n] + RemoveAt(es, k);
          return true;
        }
      }
      FindFirst(es, n.id, |es|);
      return false;
    }

    /** pingreplace: puts a new node to the front; a full bucket first pings its last node. */
    method PingReplace(i: nat, n: Node, lastAlive: bool)
      requires Valid() && i < N_BUCKETS && Find(buckets[i], n.id) == |buckets[i]|
      modifies this
      ensures Valid() && buckets == old(buckets)[i := Place(old(buckets)[i], n, lastAlive)]
    {
      var es := buckets[i];
      if |es| == BUCKET_SIZE {
        if lastAlive {
          return;
        }
        es := es[..BUCKET_SIZE - 1];
      }
      buckets := buckets[i := [n] + es];
    }

    /** The end of bond: bump, or ping and replace. */
    method PlaceBonded(n: Node, lastAlive: bool)
      requires Valid()
      modifies this
      ensures Valid() && Abs() == Apply(old(Abs()), Bond(n, lastAlive))
    {
      var i := BucketIndex(n);
      var found := Bump(i, n);
      if !found {
        PingReplace(i, n, lastAlive);
      }
    }

    /** add: appends nodes other than ourselves to buckets with room. */
    method AddNodes(ns: seq<Node>)
      requires Valid()
      modifies this
      ensures Valid() && Abs() == Apply(old(Abs()), Add(ns))
    {
      for k := 0 to |ns|
        invariant Valid() && AddAll(Abs(), ns[k..]) == AddAll(old(Abs()), ns)
      {
        assert ns[k..][0] == ns[k] && ns[k..][1..] == ns[k + 1..];
        AddNode(ns[k]);
      }
      assert ns[|ns|..] == [];
    }

    method AddNode(n: Node)
      requires Valid()
      modifies this
      ensures Valid()
      ensures buckets == if n.id == self.id then old(buckets)
                         else var i := IndexOf(old(Abs()), n); old(buckets)[i := AddLast(old(buckets)[i], n)]
    {
      if n.id == self.id {
        return;
      }
      var i := BucketIndex(n);
      var es := buckets[i];
      for k := 0 to |es|
        invariant forall j :: 0 <= j < k ==> es[j].id != n.id
        invariant buckets == old(buckets)
      {
        if es[k].id == n.id {
          return;
        }
      }
      FindFirst(es, n.id, |es|);
      if |es| < BUCKET_SIZE {
        buckets := buckets[i := es + [n]];
      }
    }

    /** del: removes a node from its bucket. */
    method DelNode(n: Node)
      requires Valid()
      modifies this
      ensures Valid() && Abs() == Apply(old(Abs()), Del(n))
    {
      var i := BucketIndex(n);
      var es := buckets[i];
      for k := 0 to |es|
        invariant forall j :: 0 <= j < k ==> es[j].id != n.id
        invariant buckets == old(buckets)
      {
        if es[k].id == n.id {
          FindFirst(es, n.id, k);
          buckets := buckets[i := es[..k] + es[k + 1..]];
          return;
        }
      }
      FindFirst(es, n.id, |es|);
    }
  }

  lemma FindFirst(es: Bucket, id: NodeId, k: nat)
    requires k <= |es| && (k < |es| ==> es[k].id == id)
    requires forall j :: 0 <= j < k ==> es[j].id != id
    ensures Find(es, id) == k
  {
  }

  // ---------- Reading random nodes ----------

  /** The nodes of some buckets, each as often as it occurs. */
  ghost function Content(bs: seq<Bucket>): multiset<Node> {
    if bs == [] then multiset{} else Content(bs[..|bs| - 1]) + multiset(bs[|bs| - 1])
  }

  lemma {:induction false} ContentSplit(bs: seq<Bucket>, cs: seq<Bucket>)
    ensures Content(bs + cs) == Content(bs) + Content(cs)
  {
    if cs == [] {
      assert bs + cs == bs;
    } else {
      ContentSplit(bs, cs[..|cs| - 1]);
      assert (bs + cs)[..|bs + cs| - 1] == bs + cs[..|cs| - 1];
    }
  }

  lemma ContentAt(bs: seq<Bucket>, j: nat)
    requires j < |bs|
    ensures Content(bs) == Content(bs[..j]) + multiset(bs[j]) + Content(bs[j + 1..])
  {
    assert bs == bs[..j + 1] + bs[j + 1..] && bs[..j + 1][..j] == bs[..j];
    ContentSplit(bs[..j + 1], bs[j + 1..]);
  }

  lemma ContentUpdate(bs: seq<Bucket>, j: nat, b: Bucket)
    requires j < |bs|
    ensures Content(bs[j := b]) + multiset(bs[j]) == Content(bs) + multiset(b)
  {
    ContentAt(bs, j);
    var cs := bs[j := b];
    ContentAt(cs, j);
    assert cs[..j] == bs[..j] && cs[j + 1..] == bs[j + 1..];
  }

  lemma ContentRemoveEmpty(bs: seq<Bucket>, j: nat)
    requires j < |bs| && bs[j] == []
    ensures Content(bs[..j] + bs[j + 1..]) == Content(bs)
  {
    ContentAt(bs, j);
    ContentSplit(bs[..j], bs[j + 1..]);
  }

  lemma ContentSwap(bs: seq<Bucket>, i: nat, j: nat)
    requires i < |bs| && j < |bs|
    ensures Content(bs[i := bs[j]][j := bs[i]]) == Content(bs)
  {
    var cs := bs[i := bs[j]];
    ContentUpdate(bs, i, bs[j]);
    ContentUpdate(cs, j, bs[i]);
    if i != j {
      forall x: Node
        ensures Content(cs[j := bs[i]])[x] == Content(bs)[x]
      {
        assert (Content(cs) + multiset(bs[i]))[x] == (Content(bs) + multiset(bs[j]))[x];
        assert (Content(cs[j := bs[i]]) + multiset(bs[j]))[x] == (Content(cs) + multiset(bs[i]))[x];
      }
    } else {
      assert cs[j := bs[i]] == bs;
    }
  }

  ghost predicate AllNonEmpty(bs: seq<Bucket>) {
    forall i :: 0 <= i < |bs| ==> bs[i] != []
  }

  function Occupied(buckets: seq<Bucket>): seq<Bucket> {
    if buckets == [] then []
    else Occupied(buckets[..|buckets| - 1]) + if buckets[|buckets| - 1] != [] then [buckets[|buckets| - 1]] else []
  }

  /** The non-empty buckets. */
  method NonEmpty(buckets: seq<Bucket>) returns (bs: seq<Bucket>)
    ensures bs == Occupied(buckets) && AllNonEmpty(bs) && Content(bs) == Content(buckets)
  {
    bs := [];
    for i := 0 to |buckets|
      invariant bs == Occupied(buckets[..i]) && AllNonEmpty(bs) && Content(bs) == Content(buckets[..i])
    {
      assert buckets[..i + 1][..i] == buckets[..i];
      if |buckets[i]| > 0 {
        assert (bs + [buckets[i]])[..|bs|] == bs;
        bs := bs + [buckets[i]];
      }
    }
    assert buckets[..|buckets|] == buckets;
  }

  /** `bs` is `input` rearranged by `p`. */
  ghost predicate Rearranges(input: seq<Bucket>, p: seq<nat>, bs: seq<Bucket>) {
    && |p| == |input| == |bs|
    && (forall i :: 0 <= i < |p| ==> p[i] < |input| && bs[i] == input[p[i]])
    && (forall i, j :: 0 <= i < j < |p| ==> p[i] != p[j])
  }

  /** No bucket keeps its place, if there are two or more. */
  ghost predicate AllMoved(p: seq<nat>) {
    |p| >= 2 ==> forall i :: 0 <= i < |p| ==> p[i] != i
  }

  lemma SwapRearranges(input: seq<Bucket>, p: seq<nat>, bs: seq<Bucket>, i: nat, j: nat)
    requires Rearranges(input, p, bs) && i < |p| && j < |p|
    ensures Rearranges(input, p[i := p[j]][j := p[i]], bs[i := bs[j]][j := bs[i]])
  {
  }

  lemma NothingSwapped(input: seq<Bucket>, p: seq<nat>)
    requires p == seq(|input|, k => k)
    ensures Rearranges(input, p, input)
  {
  }

  /** Above `i` every bucket has moved; up to `i` each is in its own place or from above. */
  ghost predicate MovedAbove(p: seq<nat>, i: int) {
    && (forall k :: 0 <= k <= i && k < |p| ==> p[k] == k || p[k] > i)
    && (forall k :: i < k < |p| && k >= 0 ==> p[k] != k)
    && (i == 0 && |p| >= 2 ==> p[0] != 0)
  }

  lemma SwapMoves(p: seq<nat>, i: nat, j: nat)
    requires MovedAbove(p, i) && j < i < |p|
    ensures MovedAbove(p[i := p[j]][j := p[i]], i - 1)
  {
  }

  /** The shuffle, for any source of randomness. The place drawn is always below the one being filled, so
      every bucket moves. */
  method Shuffle(input: seq<Bucket>, random: nat -> nat) returns (bs: seq<Bucket>, ghost p: seq<nat>)
    requires AllNonEmpty(input)
    ensures |bs| == |input| && AllNonEmpty(bs) && Content(bs) == Content(input)
    ensures Rearranges(input, p, bs) && AllMoved(p)
  {
    hide Content, Rearranges;
    bs, p := input, seq(|input|, k => k);
    NothingSwapped(input, p);
    var i := |bs| - 1;
    while i > 0
      invariant |p| == |bs| == |input| && -1 <= i < |bs| && (i == -1 ==> |bs| == 0)
      invariant AllNonEmpty(bs) && Content(bs) == Content(input) && Rearranges(input, p, bs) && MovedAbove(p, i)
    {
      var j := random(i) % i;
      ContentSwap(bs, i, j);
      SwapRearranges(input, p, bs, i, j);
      SwapMoves(p, i, j);
      bs, p := bs[i := bs[j]][j := bs[i]], p[i := p[j]][j := p[i]];
      i := i - 1;
    }
  }

  lemma Cancel(a: multiset<Node>, b: multiset<Node>, c: multiset<Node>)
    requires a + c == b + c
    ensures a == b
  {
    forall x: Node
      ensures a[x] == b[x]
    {
      assert (a + c)[x] == a[x] + c[x] && (b + c)[x] == b[x] + c[x];
    }
  }

  /** Takes the head of bucket `j`, and the bucket itself if that empties it. */
  method TakeHead(bs: seq<Bucket>, j: nat) returns (x: Node, rest: seq<Bucket>)
    requires j < |bs| && AllNonEmpty(bs)
    ensures AllNonEmpty(rest) && Content(bs) == multiset{x} + Content(rest)
    ensures x == bs[j][0] && (|bs[j]| > 1 ==> rest == bs[j := bs[j][1..]])
  {
    hide Content;
    var b := bs[j];
    x := b[0];
    ContentUpdate(bs, j, b[1..]);
    rest := bs[j := b[1..]];
    assert b == [x] + b[1..];
    assert multiset(b) == multiset{x} + multiset(b[1..]);
    Cancel(Content(bs), multiset{x} + Content(rest), multiset(b[1..]));
    if |b| == 1 {
      ContentRemoveEmpty(rest, j);
      rest := rest[..j] + rest[j + 1..];
    }
  }

  lemma NonEmptyContent(bs: seq<Bucket>)
    requires AllNonEmpty(bs)
    ensures |Content(bs)| > 0 <==> |bs| > 0
  {
  }

  /** Every bucket has a second node, so that none is emptied in the first round. */
  ghost predicate NoneSingle(bs: seq<Bucket>) {
    forall b :: 0 <= b < |bs| ==> |bs[b]| >= 2
  }

  /** The first nodes written are the heads of the buckets, one of each in turn. */
  ghost predicate HeadsFirst(bs: seq<Bucket>, w: seq<Node>) {
    forall k :: 0 <= k < |w| && k < |bs| ==> bs[k] != [] && w[k] == bs[k][0]
  }

  /** ReadRandomNodes: fills the buffer round robin from the shuffled buckets. It writes as many nodes
      as fit, each as often as the table holds it, and never touches an emptied bucket; but it
      reports one node too many when the buffer fills up first. `order` is the order of the buckets after
      the shuffle; where no bucket has a single node, the first written are their heads in that order. */
  method ReadRandomNodes(buckets: seq<Bucket>, buf: array<Node>, random: nat -> nat)
    returns (n: nat, ghost order: seq<Bucket>, ghost p: seq<nat>)
    modifies buf
    ensures n == Min(|Content(buckets)|, buf.Length + 1)
    ensures multiset(buf[..Min(n, buf.Length)]) <= Content(buckets)
    ensures forall k :: n <= k < buf.Length ==> buf[k] == old(buf[k])
    ensures Rearranges(Occupied(buckets), p, order) && AllMoved(p)
    ensures NoneSingle(order) ==> HeadsFirst(order, buf[..Min(n, buf.Length)])
  {
    var bs := NonEmpty(buckets);
    NonEmptyContent(bs);
    if |bs| == 0 {
      return 0, [], [];
    }
    bs, p := Shuffle(bs, random);
    order := bs;
    ghost var w, left;
    n, w, left := FillRoundRobin(bs, buf);
    MovedCounts(bs, w, left);
    assert buf[..Min(n, buf.Length)] == w;
  }

  /** What has been written accounts for what is missing from the buckets. */
  ghost predicate Moved(buckets: seq<Bucket>, w: seq<Node>, bs: seq<Bucket>) {
    AllNonEmpty(bs) && multiset(w) + Content(bs) == Content(buckets)
  }

  lemma MoveHead(buckets: seq<Bucket>, w: seq<Node>, bs: seq<Bucket>, x: Node, rest: seq<Bucket>)
    requires Moved(buckets, w, bs) && AllNonEmpty(rest) && Content(bs) == multiset{x} + Content(rest)
    ensures Moved(buckets, w + [x], rest)
  {
  }

  lemma MovedCounts(buckets: seq<Bucket>, w: seq<Node>, bs: seq<Bucket>)
    requires Moved(buckets, w, bs)
    ensures multiset(w) <= Content(buckets)
    ensures if |bs| == 0 then |Content(buckets)| == |w| else |Content(buckets)| > |w|
  {
  }

  /** The next bucket, round robin. */
  function After(j: nat, n: nat): (k: nat)
    requires n > 0
    ensures k < n
  {
    (j + 1) % n
  }

  /** The first `i` buckets have lost their heads. */
  ghost predicate HeadsTaken(buckets: seq<Bucket>, bs: seq<Bucket>, i: nat) {
    && |bs| == |buckets| && NoneSingle(buckets)
    && forall b :: 0 <= b < |bs| ==> bs[b] == if b < i then buckets[b][1..] else buckets[b]
  }

  /** Whose turn it is during the first round, and then. */
  function Turn(i: nat, n: nat): nat {
    if i < n then i else 0
  }

  lemma NextTurn(i: nat, n: nat)
    requires i < n
    ensures After(i, n) == Turn(i + 1, n)
  {
  }

  lemma HeadTaken(buckets: seq<Bucket>, bs: seq<Bucket>, w: seq<Node>, i: nat, x: Node, rest: seq<Bucket>)
    requires i < |buckets| && |w| == i && HeadsFirst(buckets, w) && HeadsTaken(buckets, bs, i)
    requires bs[i] != [] && x == bs[i][0] && (|bs[i]| > 1 ==> rest == bs[i := bs[i][1..]])
    ensures HeadsFirst(buckets, w + [x]) && HeadsTaken(buckets, rest, i + 1)
  {
    NextTurn(i, |buckets|);
    assert bs[i] == buckets[i];
  }

  lemma LaterNode(buckets: seq<Bucket>, w: seq<Node>, x: Node)
    requires |w| >= |buckets| && HeadsFirst(buckets, w)
    ensures HeadsFirst(buckets, w + [x])
  {
  }

  /** What holds when `i` nodes, `w`, have been moved, `bs` are left and `j` is next. */
  ghost predicate FillOk(buckets: seq<Bucket>, w: seq<Node>, bs: seq<Bucket>, i: nat, j: nat) {
    && Moved(buckets, w, bs) && |w| == i
    && (NoneSingle(buckets) ==> HeadsFirst(buckets, w))
    && (NoneSingle(buckets) && i <= |buckets| ==> HeadsTaken(buckets, bs, i) && j == Turn(i, |buckets|))
  }

  lemma FillStarts(buckets: seq<Bucket>)
    requires AllNonEmpty(buckets) && |buckets| > 0
    ensures FillOk(buckets, [], buckets, 0, 0)
  {
  }

  lemma FillStep(buckets: seq<Bucket>, w: seq<Node>, bs: seq<Bucket>, i: nat, j: nat, x: Node, rest: seq<Bucket>)
    requires FillOk(buckets, w, bs, i, j) && |buckets| > 0 && j < |bs| && bs[j] != []
    requires AllNonEmpty(rest) && Content(bs) == multiset{x} + Content(rest)
    requires x == bs[j][0] && (|bs[j]| > 1 ==> rest == bs[j := bs[j][1..]])
    ensures |rest| > 0 ==> FillOk(buckets, w + [x], rest, i + 1, After(j, |rest|))
    ensures Moved(buckets, w + [x], rest) && (NoneSingle(buckets) ==> HeadsFirst(buckets, w + [x]))
  {
    hide Content, Moved, HeadsFirst, HeadsTaken, After, NoneSingle;
    MoveHead(buckets, w, bs, x, rest);
    if NoneSingle(buckets) {
      if i < |buckets| {
        TurnTaken(buckets, bs, i);
        HeadTaken(buckets, bs, w, i, x, rest);
        TurnTaken(buckets, rest, i + 1);
        NextTurn(i, |buckets|);
      } else {
        LaterNode(buckets, w, x);
      }
    }
  }

  lemma TurnTaken(buckets: seq<Bucket>, bs: seq<Bucket>, i: nat)
    requires HeadsTaken(buckets, bs, i)
    ensures |bs| == |buckets|
  {
  }

  /** The loop that moves bucket heads into the buffer. */
  method FillRoundRobin(buckets: seq<Bucket>, buf: array<Node>) returns (n: nat, ghost w: seq<Node>, ghost left: seq<Bucket>)
    requires AllNonEmpty(buckets) && |buckets| > 0
    modifies buf
    ensures Moved(buckets, w, left) && |w| <= buf.Length && buf[..|w|] == w
    ensures if |left| == 0 then n == |w| else |w| == buf.Length && n == buf.Length + 1
    ensures forall k :: |w| <= k < buf.Length ==> buf[k] == old(buf[k])
    ensures NoneSingle(buckets) ==> HeadsFirst(buckets, w)
  {
    hide Content, Moved, HeadsFirst, NoneSingle, FillOk, After;
    FillStarts(buckets);
    var bs := buckets;
    var i, j := 0, 0;
    w := [];
    while i < buf.Length
      invariant 0 <= i <= buf.Length && 0 <= j < |bs| && AllNonEmpty(bs)
      invariant buf[..i] == w && FillOk(buckets, w, bs, i, j)
      invariant forall k :: i <= k < buf.Length ==> buf[k] == old(buf[k])
    {
      var x, rest := TakeHead(bs, j);
      FillStep(buckets, w, bs, i, j, x, rest);
      buf[i] := x;
      assert buf[..i + 1] == buf[..i] + [x];
      bs, w := rest, w + [x];
      if |bs| == 0 {
        return i + 1, w, bs;
      }
      i, j := i + 1, After(j, |bs|);
    }
    FillEnds(buckets, w, bs, i, j);
    return i + 1, w, bs;
  }

  lemma FillEnds(buckets: seq<Bucket>, w: seq<Node>, bs: seq<Bucket>, i: nat, j: nat)
    requires FillOk(buckets, w, bs, i, j)
    ensures Moved(buckets, w, bs) && (NoneSingle(buckets) ==> HeadsFirst(buckets, w))
  {
  }

  lemma {:induction false} BucketOnce(es: Bucket, x: Node)
    requires DistinctIds(es)
    ensures multiset(es)[x] <= 1
    ensures x in es <==> multiset(es)[x] == 1
  {
    if es != [] {
      var m := |es| - 1;
      BucketOnce(es[..m], x);
      assert es == es[..m] + [es[m]];
      assert es[..m] == es[..m];
    }
  }

  lemma {:induction false} ContentMember(bs: seq<Bucket>, x: Node) returns (i: nat, k: nat)
    requires x in Content(bs)
    ensures i < |bs| && k < |bs[i]| && bs[i][k] == x
  {
    var m := |bs| - 1;
    if x in multiset(bs[m]) {
      i := m;
      k :| 0 <= k < |bs[m]| && bs[m][k] == x;
    } else {
      i, k := ContentMember(bs[..m], x);
    }
  }

  lemma {:induction false} ContentOnce(h: HashFn, t: Tab, m: nat, x: Node)
    requires WellFormed(h, t) && m <= |t.buckets|
    ensures Content(t.buckets[..m])[x] <= 1
  {
    if m > 0 {
      var bs := t.buckets[..m];
      assert bs[..m - 1] == t.buckets[..m - 1];
      ContentOnce(h, t, m - 1, x);
      assert BucketOk(h, t.self.hash, m - 1, t.buckets[m - 1]);
      BucketOnce(t.buckets[m - 1], x);
      if x in Content(bs[..m - 1]) && x in t.buckets[m - 1] {
        var i, k := ContentMember(bs[..m - 1], x);
        assert false;
      }
    }
  }

  lemma TwiceIsTwo(ns: seq<Node>, a: nat, b: nat)
    requires a < b < |ns| && ns[a] == ns[b]
    ensures multiset(ns)[ns[b]] >= 2
  {
    assert ns == ns[..b] + ns[b..];
    assert ns[..b][a] in multiset(ns[..b]) && ns[b..][0] in multiset(ns[b..]);
  }

  /** What is read from a well-formed table has pairwise distinct identifiers. */
  lemma ReadNodesDistinct(h: HashFn, t: Tab, ns: seq<Node>)
    requires WellFormed(h, t) && multiset(ns) <= Content(t.buckets)
    ensures DistinctIds(ns)
  {
    WellFormedUnique(h, t);
    assert t.buckets[..N_BUCKETS] == t.buckets;
    forall a, b | 0 <= a < b < |ns|
      ensures ns[a].id != ns[b].id
    {
      var i, k := ContentMember(t.buckets, ns[a]);
      var j, l := ContentMember(t.buckets, ns[b]);
      assert Holds(t, i, k) && Holds(t, j, l);
      if ns[a].id == ns[b].id {
        TwiceIsTwo(ns, a, b);
        ContentOnce(h, t, N_BUCKETS, ns[a]);
        assert false;
      }
    }
  }

  /** The report of ReadRandomNodes is one the dial scheduler reads safely. */
  lemma ReportMeetsDialer(written: seq<Node>, size: nat, bufLen: nat)
    requires |written| == Min(size, bufLen)
    ensures DialState.ReadContract(written, Min(size, bufLen + 1), bufLen)
  {
  }
}
