/** The iterative lookup of discover/table.go. What the network answers is a parameter: the k-th reply
    taken from the channel, for every order and content of replies; or none, if the queries still out
    ended without one because a store write failed. */
module Lookup {
  import opened NodeTypes
  import opened Closest

  const ALPHA := 3

  // ---------- There are finitely many identifiers ----------

  ghost function AllBytes(): set<byte> {
    set i | 0 <= i < 256 :: ToByte(i)
  }

  lemma ByteListed(b: byte)
    ensures b in AllBytes()
  {
    assert ToByte(b as int) as int == b as int;
  }

  ghost function AllStrings(n: nat): set<seq<byte>> {
    if n == 0 then {[]} else set b, s | b in AllBytes() && s in AllStrings(n - 1) :: [b] + s
  }

  lemma {:induction false} AllStringsComplete(s: seq<byte>)
    ensures s in AllStrings(|s|)
  {
    if s != [] {
      AllStringsComplete(s[1..]);
      ByteListed(s[0]);
      assert s == [s[0]] + s[1..];
    }
  }

  /** The strings of `n` bytes outside `asked`. */
  ghost function Outside(n: nat, asked: set<seq<byte>>): set<seq<byte>> {
    AllStrings(n) - asked
  }

  lemma OutsideShrinks(n: nat, asked: set<seq<byte>>, id: seq<byte>)
    requires |id| == n && id !in asked
    ensures |Outside(n, asked + {id})| == |Outside(n, asked)| - 1
  {
    AllStringsComplete(id);
    assert id in Outside(n, asked);
    assert Outside(n, asked + {id}) == Outside(n, asked) - {id};
  }

  /** The identifiers not asked yet. */
  ghost function Unasked(self: NodeId, asked: set<NodeId>): set<seq<byte>> {
    Outside(|self|, asked)
  }

  lemma AskShrinks(self: NodeId, asked: set<NodeId>, id: NodeId)
    requires id !in asked
    ensures |Unasked(self, asked + {id})| == |Unasked(self, asked)| - 1
  {
    OutsideShrinks(|self|, asked, id);
  }

  // ---------- What is pushed ----------

  type Replies = nat -> Option<seq<Node>>

  /** The nodes of the first `k` replies, in the order received. */
  function Received(replies: Replies, k: nat): seq<Node> {
    if k == 0 then []
    else Received(replies, k - 1) + match replies(k - 1) case Some(ns) => ns case None => []
  }

  /** Each of the first `k` receives from the channel gets a reply. */
  ghost predicate AllReplied(replies: Replies, k: nat) {
    forall i: nat :: i < k ==> replies(i).Some?
  }

  predicate HasId(ns: seq<Node>, id: NodeId) {
    exists i :: 0 <= i < |ns| && ns[i].id == id
  }

  /** The first node received for each identifier. */
  function FirstById(ns: seq<Node>): seq<Node> {
    if ns == [] then []
    else
      var front, last := FirstById(ns[..|ns| - 1]), ns[|ns| - 1];
      if HasId(front, last.id) then front else front + [last]
  }

  lemma RepliedStep(replies: Replies, k: nat, n: nat)
    requires AllReplied(replies, k)
    ensures replies(k).Some? ==> AllReplied(replies, k + 1)
    ensures replies(k).None? && k < n ==> !AllReplied(replies, n)
  {
  }

  ghost predicate NoDuplicates(ids: seq<NodeId>) {
    forall i, j :: 0 <= i < j < |ids| ==> ids[i] != ids[j]
  }

  /** The identifiers marked as asked are our own and those queried, each once. */
  ghost predicate AskedOk(self: NodeId, asked: set<NodeId>, queried: seq<NodeId>) {
    NoDuplicates(queried) && self !in queried && asked == {self} + Members(queried)
  }

  ghost function Members(ids: seq<NodeId>): set<NodeId> {
    set id | id in ids
  }

  lemma AskOne(self: NodeId, asked: set<NodeId>, queried: seq<NodeId>, id: NodeId)
    requires AskedOk(self, asked, queried) && id !in asked
    ensures AskedOk(self, asked + {id}, queried + [id])
  {
  }

  /** Query `j` goes to the node at some position of the result set, when every entry nearer than it is
      ourselves or was asked before. */
  ghost predicate NearestUnasked(self: NodeId, entries: seq<Node>, queried: seq<NodeId>, j: nat) {
    && j < |queried|
    && exists i :: 0 <= i < |entries| && entries[i].id == queried[j] && AllBefore(self, entries, i, queried[..j])
  }

  ghost predicate AllBefore(self: NodeId, entries: seq<Node>, i: nat, queried: seq<NodeId>) {
    i <= |entries| && forall k :: 0 <= k < i ==> entries[k].id == self || entries[k].id in queried
  }

  lemma AskNearest(self: NodeId, entries: seq<Node>, i: nat, asked: set<NodeId>, queried: seq<NodeId>)
    requires AskedOk(self, asked, queried) && i < |entries| && FrontAsked(entries, i, asked)
    ensures NearestUnasked(self, entries, queried + [entries[i].id], |queried|)
  {
    assert (queried + [entries[i].id])[..|queried|] == queried;
    forall k | 0 <= k < i
      ensures entries[k].id == self || entries[k].id in queried
    {
      assert entries[k] in entries[..i];
    }
    assert AllBefore(self, entries, i, queried);
  }

  lemma NearestStays(self: NodeId, entries: seq<Node>, queried: seq<NodeId>, more: seq<NodeId>, j: nat)
    requires NearestUnasked(self, entries, queried, j)
    ensures NearestUnasked(self, entries, queried + more, j)
  {
    assert (queried + more)[..j] == queried[..j];
  }

  /** Asks the nearest nodes not asked yet while fewer than three queries are pending: each query goes to
      the nearest entry that is neither ourselves nor asked before. */
  method AskRound(self: NodeId, entries: seq<Node>, asked: set<NodeId>, pending: nat, queried: seq<NodeId>)
    returns (asked': set<NodeId>, pending': nat, queried': seq<NodeId>)
    requires pending <= ALPHA && AskedOk(self, asked, queried)
    ensures pending <= pending' <= 3 && AskedOk(self, asked', queried')
    ensures |queried'| - |queried| == pending' - pending == |Unasked(self, asked)| - |Unasked(self, asked')|
    ensures pending' < 3 ==> FrontAsked(entries, |entries|, asked')
    ensures queried <= queried' && forall j :: |queried| <= j < |queried'| ==> NearestUnasked(self, entries, queried', j)
  {
    hide NearestUnasked, Unasked;
    asked', pending', queried' := asked, pending, queried;
    var i := 0;
    while i < |entries| && pending' < ALPHA
      invariant 0 <= i <= |entries| && pending <= pending' <= ALPHA && AskedOk(self, asked', queried')
      invariant |queried'| - |queried| == pending' - pending == |Unasked(self, asked)| - |Unasked(self, asked')|
      invariant FrontAsked(entries, i, asked')
      invariant queried <= queried' && forall j :: |queried| <= j < |queried'| ==> NearestUnasked(self, entries, queried', j)
    {
      var n := entries[i];
      FrontAskedStep(entries, i, asked');
      if n.id !in asked' {
        forall j | |queried| <= j < |queried'|
          ensures NearestUnasked(self, entries, queried' + [n.id], j)
        {
          NearestStays(self, entries, queried', [n.id], j);
        }
        AskNearest(self, entries, i, asked', queried');
        AskOne(self, asked', queried', n.id);
        AskShrinks(self, asked', n.id);
        asked', pending', queried' := asked' + {n.id}, pending' + 1, queried' + [n.id];
      }
      i := i + 1;
    }
  }

  ghost predicate FrontAsked(entries: seq<Node>, i: nat, asked: set<NodeId>) {
    i <= |entries| && forall n :: n in entries[..i] ==> n.id in asked
  }

  lemma FrontAskedStep(entries: seq<Node>, i: nat, asked: set<NodeId>)
    requires i < |entries| && FrontAsked(entries, i, asked)
    ensures FrontAsked(entries, i + 1, asked + {entries[i].id})
    ensures entries[i].id in asked ==> asked + {entries[i].id} == asked
  {
  }

  /** The result set holds the 16 nearest of all nodes of the table and all nodes pushed since. */
  ghost predicate ResultOk(target: Hash, entries: seq<Node>, table: seq<Node>, pushed: seq<Node>) {
    && SortedBy(ByDistance(target), entries) && |entries| <= BUCKET_SIZE
    && entries == PushedAll(ByDistance(target), [], table + pushed, BUCKET_SIZE)
  }

  lemma PushOne(target: Hash, entries: seq<Node>, table: seq<Node>, pushed: seq<Node>, n: Node)
    requires ResultOk(target, entries, table, pushed)
    ensures ResultOk(target, Pushed(ByDistance(target), entries, n, BUCKET_SIZE), table, pushed + [n])
  {
    PushedAllAppend(ByDistance(target), table, pushed, n);
    PushedSorted(ByDistance(target), entries, n, BUCKET_SIZE);
  }

  lemma PushedAllAppend(rank: Rank, table: seq<Node>, pushed: seq<Node>, n: Node)
    ensures PushedAll(rank, [], table + (pushed + [n]), BUCKET_SIZE)
         == Pushed(rank, PushedAll(rank, [], table + pushed, BUCKET_SIZE), n, BUCKET_SIZE)
  {
    var all := table + (pushed + [n]);
    assert all[..|all| - 1] == table + pushed && all[|all| - 1] == n;
  }

  ghost predicate SeenOk(seen: set<NodeId>, pushed: seq<Node>) {
    forall id :: id in seen <==> HasId(pushed, id)
  }

  lemma SeeOne(seen: set<NodeId>, pushed: seq<Node>, n: Node)
    requires SeenOk(seen, pushed)
    ensures SeenOk(seen + {n.id}, pushed + [n])
  {
    assert (pushed + [n])[|pushed|] == n;
    forall id
      ensures HasId(pushed + [n], id) <==> HasId(pushed, id) || id == n.id
    {
      if HasId(pushed, id) {
        var i :| 0 <= i < |pushed| && pushed[i].id == id;
        assert (pushed + [n])[i].id == id;
      }
    }
  }

  lemma FirstByIdStep(before: seq<Node>, reply: seq<Node>, i: nat)
    requires i < |reply|
    ensures var first := FirstById(before + reply[..i]);
            FirstById(before + reply[..i + 1]) == if HasId(first, reply[i].id) then first else first + [reply[i]]
  {
    var ns := before + reply[..i + 1];
    assert ns[..|ns| - 1] == before + reply[..i] && ns[|ns| - 1] == reply[i];
  }

  /** Takes one reply: pushes each node whose identifier no reply has named before. */
  method TakeReply(c: NodesByDistance, reply: seq<Node>, seen: set<NodeId>, ghost before: seq<Node>, ghost table: seq<Node>)
    returns (seen': set<NodeId>)
    requires ResultOk(c.target, c.entries, table, FirstById(before)) && SeenOk(seen, FirstById(before))
    modifies c
    ensures ResultOk(c.target, c.entries, table, FirstById(before + reply)) && SeenOk(seen', FirstById(before + reply))
  {
    hide FirstById, PushedAll, HasId, SortedBy;
    seen' := seen;
    ghost var first := FirstById(before);
    assert before + reply[..0] == before;
    for i := 0 to |reply|
      invariant first == FirstById(before + reply[..i])
      invariant ResultOk(c.target, c.entries, table, first) && SeenOk(seen', first)
    {
      var n := reply[i];
      FirstByIdStep(before, reply, i);
      if n.id !in seen' {
        PushOne(c.target, c.entries, table, first, n);
        SeeOne(seen', first, n);
        seen' := seen' + {n.id};
        c.Push(n, BUCKET_SIZE);
        first := first + [n];
      }
    }
    assert before + reply[..|reply|] == before + reply;
  }

  lemma ResultIs(target: Hash, entries: seq<Node>, table: seq<Node>, pushed: seq<Node>)
    requires ResultOk(target, entries, table, pushed)
    ensures entries == Take(SortAll(ByDistance(target), table + pushed), 16)
  {
    PushedAllIsSortedFront(ByDistance(target), table + pushed, BUCKET_SIZE);
  }

  /** The result set and the identifiers seen after `k` replies. */
  ghost predicate Collected(target: Hash, table: seq<Node>, replies: Replies, k: nat, entries: seq<Node>, seen: set<NodeId>) {
    ResultOk(target, entries, table, FirstById(Received(replies, k))) && SeenOk(seen, FirstById(Received(replies, k)))
  }

  method TakeNext(target: Hash, entries: seq<Node>, replies: Replies, k: nat, seen: set<NodeId>, ghost table: seq<Node>)
    returns (entries': seq<Node>, seen': set<NodeId>)
    requires Collected(target, table, replies, k, entries, seen) && replies(k).Some?
    ensures Collected(target, table, replies, k + 1, entries', seen')
  {
    var c := new NodesByDistance(target);
    c.entries := entries;
    seen' := TakeReply(c, replies(k).value, seen, Received(replies, k), table);
    entries' := c.entries;
  }

  /** The result set after `k` replies. */
  ghost function ResultAfter(target: Hash, table: seq<Node>, replies: Replies, k: nat): seq<Node> {
    Take(SortAll(ByDistance(target), table + FirstById(Received(replies, k))), 16)
  }

  /** Query `j` was made when some `k` replies had come, fewer than three queries were pending, and it
      went to the nearest node of the result set then that had not been asked. */
  ghost predicate AskedInTurn(self: NodeId, target: Hash, table: seq<Node>, replies: Replies, queried: seq<NodeId>, j: nat) {
    exists k: nat :: k <= j < k + 3 && NearestUnasked(self, ResultAfter(target, table, replies, k), queried, j)
  }

  ghost predicate AllInTurn(self: NodeId, target: Hash, table: seq<Node>, replies: Replies, queried: seq<NodeId>) {
    forall j :: 0 <= j < |queried| ==> AskedInTurn(self, target, table, replies, queried, j)
  }

  lemma InTurnGrows(self: NodeId, target: Hash, table: seq<Node>, replies: Replies, k: nat, entries: seq<Node>, seen: set<NodeId>,
                    queried: seq<NodeId>, queried': seq<NodeId>)
    requires AllInTurn(self, target, table, replies, queried) && Collected(target, table, replies, k, entries, seen)
    requires queried <= queried' && k <= |queried| && |queried'| <= k + 3
    requires forall j :: |queried| <= j < |queried'| ==> NearestUnasked(self, entries, queried', j)
    ensures AllInTurn(self, target, table, replies, queried')
  {
    hide NearestUnasked, ResultOk, SeenOk, FirstById, Received, SortAll;
    ResultIs(target, entries, table, FirstById(Received(replies, k)));
    forall j | 0 <= j < |queried'|
      ensures AskedInTurn(self, target, table, replies, queried', j)
    {
      if j >= |queried| {
        assert NearestUnasked(self, ResultAfter(target, table, replies, k), queried', j);
      } else {
        assert AskedInTurn(self, target, table, replies, queried, j);
        var i: nat :| i <= j < i + 3 && NearestUnasked(self, ResultAfter(target, table, replies, i), queried, j);
        NearestStays(self, ResultAfter(target, table, replies, i), queried, queried'[|queried|..], j);
        assert queried + queried'[|queried|..] == queried';
      }
    }
  }

  lemma {:induction false} ReceivedGrows(replies: Replies, k: nat, j: nat)
    requires k <= j
    ensures Received(replies, k) <= Received(replies, j)
    decreases j
  {
    if k < j {
      ReceivedGrows(replies, k, j - 1);
    }
  }

  /** A node asked is one of the table or was named by an earlier reply. */
  lemma QueriedKnown(self: NodeId, target: Hash, table: seq<Node>, replies: Replies, queried: seq<NodeId>, j: nat)
    requires j < |queried| && AskedInTurn(self, target, table, replies, queried, j)
    ensures HasId(table, queried[j]) || HasId(Received(replies, j), queried[j])
  {
    hide SortAll, FirstById, Received, HasId;
    var k: nat :| k <= j < k + 3 && NearestUnasked(self, ResultAfter(target, table, replies, k), queried, j);
    var all := table + FirstById(Received(replies, k));
    var entries := ResultAfter(target, table, replies, k);
    var i :| 0 <= i < |entries| && entries[i].id == queried[j];
    SortAllSorts(ByDistance(target), all);
    assert entries[i] in multiset(SortAll(ByDistance(target), all));
    assert entries[i] in all;
    FirstByIdKeepsOne(Received(replies, k));
    ReceivedGrows(replies, k, j);
    EntryHasId(table, entries[i]);
    EntryHasId(FirstById(Received(replies, k)), entries[i]);
    HasIdGrows(Received(replies, k), Received(replies, j), queried[j]);
  }

  lemma EntryHasId(ns: seq<Node>, n: Node)
    ensures n in ns ==> HasId(ns, n.id)
  {
  }

  lemma HasIdGrows(ns: seq<Node>, ms: seq<Node>, id: NodeId)
    requires ns <= ms
    ensures HasId(ns, id) ==> HasId(ms, id)
  {
    if HasId(ns, id) {
      var i :| 0 <= i < |ns| && ns[i].id == id;
      assert ms[i].id == id;
    }
  }

  lemma SearchStarts(self: NodeId, target: Hash, initial: seq<Node>, replies: Replies, table: seq<Node>)
    requires ResultOk(target, initial, table, [])
    ensures Collected(target, table, replies, 0, initial, {}) && AskedOk(self, {self}, []) && AllReplied(replies, 0)
    ensures AllInTurn(self, target, table, replies, [])
  {
  }

  /** The loop of Lookup. Each turn lowers twice the unasked identifiers plus the pending queries, and no
      more than alpha queries are ever pending, so it ends, unless it waits for a reply that never comes;
      `done` tells which. */
  method SearchLoop(self: NodeId, target: Hash, initial: seq<Node>, replies: Replies, ghost table: seq<Node>)
    returns (done: bool, entries: seq<Node>, asked: set<NodeId>, seen: set<NodeId>, queried: seq<NodeId>)
    requires ResultOk(target, initial, table, [])
    ensures AskedOk(self, asked, queried) && (done <==> AllReplied(replies, |queried|))
    ensures AllInTurn(self, target, table, replies, queried)
    ensures done ==> Collected(target, table, replies, |queried|, entries, seen) && FrontAsked(entries, |entries|, asked)
  {
    hide AllReplied, Collected, AskedOk, FrontAsked, Unasked, ResultOk, AllInTurn, NearestUnasked;
    SearchStarts(self, target, initial, replies, table);
    var pending: nat, k: nat := 0, 0;
    done, entries, asked, seen, queried := true, initial, {self}, {}, [];
    while true
      invariant Collected(target, table, replies, k, entries, seen) && AskedOk(self, asked, queried)
      invariant |queried| == k + pending && pending <= ALPHA && done && AllReplied(replies, k)
      invariant AllInTurn(self, target, table, replies, queried)
      decreases 2 * |Unasked(self, asked)| + pending
    {
      ghost var before := queried;
      asked, pending, queried := AskRound(self, entries, asked, pending, queried);
      InTurnGrows(self, target, table, replies, k, entries, seen, before, queried);
      if pending == 0 {
        return;
      }
      RepliedStep(replies, k, |queried|);
      if replies(k).None? {
        done := false;
        return;
      }
      entries, seen := TakeNext(target, entries, replies, k, seen, table);
      k, pending := k + 1, pending - 1;
    }
  }

  lemma SearchDone(self: NodeId, target: Hash, table: seq<Node>, replies: Replies,
                   entries: seq<Node>, asked: set<NodeId>, seen: set<NodeId>, queried: seq<NodeId>)
    requires Collected(target, table, replies, |queried|, entries, seen) && AskedOk(self, asked, queried)
    requires FrontAsked(entries, |entries|, asked)
    ensures entries == Take(SortAll(ByDistance(target), table + FirstById(Received(replies, |queried|))), 16)
    ensures forall i :: 0 <= i < |entries| ==> entries[i].id == self || entries[i].id in queried
  {
    ResultIs(target, entries, table, FirstById(Received(replies, |queried|)));
    EveryNodeAsked(self, entries, asked, queried);
  }

  lemma EveryNodeAsked(self: NodeId, entries: seq<Node>, asked: set<NodeId>, queried: seq<NodeId>)
    requires AskedOk(self, asked, queried) && FrontAsked(entries, |entries|, asked)
    ensures forall i :: 0 <= i < |entries| ==> entries[i].id == self || entries[i].id in queried
  {
  }

  /** Lookup for a non-empty table. `queried` are the nodes asked, in order: none twice, never ourselves,
      each the nearest known node not asked yet, with fewer than three queries pending, and each one of the
      table or named by an earlier reply. It returns exactly if every query replies, and waits forever otherwise. The result is
      the 16 nearest of everything in the table and everything the replies named, sorted; and every node
      in it was asked or is ourselves. */
  method Search(self: NodeId, buckets: seq<seq<Node>>, target: Hash, replies: Replies)
    returns (result: Option<seq<Node>>, queried: seq<NodeId>)
    ensures NoDuplicates(queried) && self !in queried
    ensures forall j :: 0 <= j < |queried| ==>
              && AskedInTurn(self, target, Flatten(buckets), replies, queried, j)
              && (HasId(Flatten(buckets), queried[j]) || HasId(Received(replies, j), queried[j]))
    ensures result.Some? <==> AllReplied(replies, |queried|)
    ensures result.Some? ==>
              && result.value == Take(SortAll(ByDistance(target), Flatten(buckets) + FirstById(Received(replies, |queried|))), 16)
              && forall i :: 0 <= i < |result.value| ==> result.value[i].id == self || result.value[i].id in queried
  {
    var initial := FindClosest(buckets, target, BUCKET_SIZE);
    InitialOk(target, Flatten(buckets));
    var done, entries, asked, seen;
    done, entries, asked, seen, queried := SearchLoop(self, target, initial, replies, Flatten(buckets));
    forall j | 0 <= j < |queried|
      ensures HasId(Flatten(buckets), queried[j]) || HasId(Received(replies, j), queried[j])
    {
      QueriedKnown(self, target, Flatten(buckets), replies, queried, j);
    }
    if !done {
      return None, queried;
    }
    SearchDone(self, target, Flatten(buckets), replies, entries, asked, seen, queried);
    result := Some(entries);
  }

  lemma InitialOk(target: Hash, table: seq<Node>)
    ensures ResultOk(target, Take(SortAll(ByDistance(target), table), BUCKET_SIZE), table, [])
  {
    assert table + [] == table;
    PushedAllIsSortedFront(ByDistance(target), table, BUCKET_SIZE);
    SortedFrontIsNearest(ByDistance(target), table, BUCKET_SIZE);
  }

  // ---------- Repeated identifiers ----------

  /** FirstById keeps every identifier once, and the first node received for it. */
  lemma {:induction false} FirstByIdKeepsOne(ns: seq<Node>)
    ensures DistinctIds(FirstById(ns))
    ensures forall id :: HasId(FirstById(ns), id) <==> HasId(ns, id)
  {
    if ns != [] {
      var m := |ns| - 1;
      var front, last := FirstById(ns[..m]), ns[m];
      FirstByIdKeepsOne(ns[..m]);
      HasIdAppend(ns[..m], last);
      HasIdAppend(front, last);
      assert ns == ns[..m] + [last];
      if !HasId(front, last.id) {
        assert forall i :: 0 <= i < |front| ==> front[i].id != last.id;
      }
    }
  }

  lemma HasIdAppend(ns: seq<Node>, n: Node)
    ensures forall id :: HasId(ns + [n], id) <==> HasId(ns, id) || id == n.id
  {
    assert (ns + [n])[|ns|] == n;
    forall id | HasId(ns, id)
      ensures HasId(ns + [n], id)
    {
      var i :| 0 <= i < |ns| && ns[i].id == id;
      assert (ns + [n])[i].id == id;
    }
  }

  /** The initial result is not marked as seen, so an identifier is pushed twice exactly when a reply
      names a node that the table already held. */
  lemma PushedTwiceExactly(table: seq<Node>, received: seq<Node>)
    requires DistinctIds(table)
    ensures DistinctIds(table + FirstById(received)) <==> forall i :: 0 <= i < |table| ==> !HasId(received, table[i].id)
  {
    var first := FirstById(received);
    var all := table + first;
    FirstByIdKeepsOne(received);
    assert forall j :: 0 <= j < |first| ==> all[|table| + j] == first[j];
    assert forall i :: 0 <= i < |all| ==> all[i] == if i < |table| then table[i] else first[i - |table|];
    if i, j :| 0 <= i < |table| && 0 <= j < |first| && table[i].id == first[j].id {
      assert all[i].id == all[|table| + j].id;
      assert HasId(received, table[i].id);
    }
  }
}
