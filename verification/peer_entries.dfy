/** The peer map of server.go, connection by connection: it is keyed by identifier, and a departing
    connection deletes by identifier, so it may delete the entry of a newer connection of the same node. */
module PeerEntries {
  import opened NodeTypes
  import opened ServerLoop

  /** addpeer, delpeer and rmstatic; connections are numbered as they are added. */
  datatype Step = Add(id: NodeId) | Depart(conn: nat) | Remove(id: NodeId)

  /** Which connection each entry holds, whose the connections are, and which have ended. */
  datatype Peers = Peers(entries: map<NodeId, nat>, conns: seq<NodeId>, gone: set<nat>)

  const NOBODY := Peers(map[], [], {})

  /** Each connection's runPeer reports its end once. */
  predicate Enabled(p: Peers, x: Step) {
    x.Depart? ==> x.conn < |p.conns| && x.conn !in p.gone
  }

  function Next(p: Peers, x: Step): Peers
    requires Enabled(p, x)
  {
    match x
    case Add(id) => p.(entries := p.entries[id := |p.conns|], conns := p.conns + [id])
    case Depart(k) => p.(entries := p.entries - {p.conns[k]}, gone := p.gone + {k})
    case Remove(id) => p.(entries := p.entries - {id})
  }

  ghost predicate IsRun(xs: seq<Step>)
    decreases |xs|, 0
  {
    xs == [] || (IsRun(xs[..|xs| - 1]) && Enabled(Exec(xs[..|xs| - 1]), xs[|xs| - 1]))
  }

  ghost function Exec(xs: seq<Step>): Peers
    requires IsRun(xs)
    decreases |xs|, 1
  {
    if xs == [] then NOBODY else Next(Exec(xs[..|xs| - 1]), xs[|xs| - 1])
  }

  /** The step of a server event, where it touches the peer map. */
  predicate Corresponds(p: Peers, e: Event, x: Step) {
    match e
    case Connected(t) => t.Dial? && x == Add(t.dest.id)
    case Accepted(id) => x == Add(id)
    case PeerGone(id) => x.Depart? && x.conn < |p.conns| && p.conns[x.conn] == id
    case RemoveStatic(id) => x == Remove(id)
    case _ => false
  }

  /** The server's own map has the same keys throughout. */
  lemma SameKeys(s: Server, p: Peers, e: Event, x: Step)
    requires s.peers.Keys == p.entries.Keys && EventOk(s, e) && Enabled(p, x) && Corresponds(p, e, x)
    ensures Apply(s, e).peers.Keys == Next(p, x).entries.Keys
  {
  }

  /** Step `x` concerns the entry of `id`; `conns` are the connections added before it, or more. */
  predicate Touches(conns: seq<NodeId>, x: Step, id: NodeId) {
    match x
    case Add(i) => i == id
    case Depart(k) => k < |conns| && conns[k] == id
    case Remove(i) => i == id
  }

  function Adds(xs: seq<Step>): nat {
    if xs == [] then 0 else Adds(xs[..|xs| - 1]) + if xs[|xs| - 1].Add? then 1 else 0
  }

  /** Step `i` of the run adds connection `j`, and no later step concerns its entry. */
  ghost predicate AddedLast(xs: seq<Step>, conns: seq<NodeId>, i: nat, j: nat) {
    && i < |xs| && xs[i].Add? && Adds(xs[..i]) == j
    && forall q :: i < q < |xs| ==> !Touches(conns, xs[q], xs[i].id)
  }

  /** Connections are added in order, and departures are of known connections. */
  ghost predicate Recorded(xs: seq<Step>, p: Peers) {
    && |p.conns| == Adds(xs)
    && forall i :: 0 <= i < |xs| && xs[i].Depart? ==> xs[i].conn < |p.conns|
  }

  ghost predicate Lists(p: Peers, id: NodeId, j: nat) {
    id in p.entries && p.entries[id] == j
  }

  lemma TouchesLater(conns: seq<NodeId>, more: seq<NodeId>, x: Step, id: NodeId)
    requires conns <= more && (x.Depart? ==> x.conn < |conns|)
    ensures Touches(conns, x, id) <==> Touches(more, x, id)
  {
  }

  lemma AddedLastStep(xs: seq<Step>, conns: seq<NodeId>, more: seq<NodeId>, i: nat, j: nat)
    requires xs != [] && i < |xs| - 1 && xs[i].Add? && conns <= more
    requires forall q :: 0 <= q < |xs| - 1 && xs[q].Depart? ==> xs[q].conn < |conns|
    ensures var m := |xs| - 1;
            AddedLast(xs, more, i, j) <==> AddedLast(xs[..m], conns, i, j) && !Touches(more, xs[m], xs[i].id)
  {
    hide Adds, Touches;
    var m := |xs| - 1;
    assert xs[..m][..i] == xs[..i] && xs[..m][i] == xs[i];
    forall q | i < q < m
      ensures xs[..m][q] == xs[q] && (Touches(conns, xs[q], xs[i].id) <==> Touches(more, xs[q], xs[i].id))
    {
      TouchesLater(conns, more, xs[q], xs[i].id);
    }
  }

  /** In every run the entry of an identifier is connection `j` exactly if a step added it under that
      identifier and no later step concerned the entry. */
  lemma {:induction false} ListedExactly(xs: seq<Step>, id: NodeId, j: nat)
    requires IsRun(xs)
    ensures Recorded(xs, Exec(xs))
    ensures Lists(Exec(xs), id, j) <==> exists i: nat :: i < |xs| && xs[i] == Add(id) && AddedLast(xs, Exec(xs).conns, i, j)
    decreases |xs|
  {
    if xs != [] {
      var m := |xs| - 1;
      var p, r := Exec(xs[..m]), Exec(xs);
      ListedExactly(xs[..m], id, j);
      RecordedStep(xs);
      forall i: nat | i < m && xs[i] == Add(id)
        ensures AddedLast(xs, r.conns, i, j) <==> AddedLast(xs[..m], p.conns, i, j) && !Touches(r.conns, xs[m], id)
      {
        AddedLastStep(xs, p.conns, r.conns, i, j);
      }
      LastStep(xs, id, j);
      hide AddedLast, Touches, Lists, IsRun, Exec, Recorded;
      if i: nat :| i < m && xs[..m][i] == Add(id) && AddedLast(xs[..m], p.conns, i, j) {
        assert xs[i] == Add(id);
      }
      if i: nat :| i < |xs| && xs[i] == Add(id) && AddedLast(xs, r.conns, i, j) {
        assert i < m ==> xs[..m][i] == Add(id);
      }
    }
  }

  lemma RecordedStep(xs: seq<Step>)
    requires xs != [] && IsRun(xs) && Recorded(xs[..|xs| - 1], Exec(xs[..|xs| - 1]))
    ensures Recorded(xs, Exec(xs)) && Exec(xs[..|xs| - 1]).conns <= Exec(xs).conns
    ensures forall q :: 0 <= q < |xs| - 1 && xs[q].Depart? ==> xs[q].conn < |Exec(xs[..|xs| - 1]).conns|
  {
    var m := |xs| - 1;
    assert forall q :: 0 <= q < m ==> xs[..m][q] == xs[q];
  }

  /** What the last step does to one entry. */
  lemma LastStep(xs: seq<Step>, id: NodeId, j: nat)
    requires xs != [] && IsRun(xs) && Recorded(xs[..|xs| - 1], Exec(xs[..|xs| - 1]))
    ensures var m := |xs| - 1;
            var p, r := Exec(xs[..m]), Exec(xs);
            && (Lists(r, id, j) <==>
                  (xs[m] == Add(id) && AddedLast(xs, r.conns, m, j)) || (Lists(p, id, j) && !Touches(r.conns, xs[m], id)))
  {
  }

  lemma {:induction false} AddsGrow(xs: seq<Step>, i: nat, j: nat)
    requires i <= j <= |xs|
    ensures Adds(xs[..i]) <= Adds(xs[..j])
    decreases j
  {
    if i < j {
      AddsGrow(xs, i, j - 1);
      assert xs[..j][..j - 1] == xs[..j - 1];
    }
  }

  /** Every connection was added by some step, under its identifier. */
  lemma {:induction false} AddedAt(xs: seq<Step>, k: nat) returns (i: nat)
    requires IsRun(xs) && k < |Exec(xs).conns|
    ensures i < |xs| && xs[i] == Add(Exec(xs).conns[k]) && Adds(xs[..i]) == k
    decreases |xs|
  {
    var m := |xs| - 1;
    var p := Exec(xs[..m]);
    ListedExactly(xs[..m], Exec(xs).conns[k], 0);
    if k < |p.conns| {
      i := AddedAt(xs[..m], k);
      assert xs[..m][..i] == xs[..i];
    } else {
      i := m;
    }
  }

  /** A step that replaced connection `k`: it added a later connection of the same node, whose entry no
      step has concerned since. */
  ghost predicate Replaced(xs: seq<Step>, conns: seq<NodeId>, k: nat, i: nat, j: nat) {
    k < j && k < |conns| && i < |xs| && xs[i] == Add(conns[k]) && AddedLast(xs, conns, i, j)
  }

  /** In every run, when connection `k` departs it deletes the entry of another connection exactly if it
      was replaced and that entry still stands. */
  lemma DepartureExactly(xs: seq<Step>, k: nat)
    requires IsRun(xs) && Enabled(Exec(xs), Depart(k))
    ensures var p := Exec(xs);
            var id := p.conns[k];
            (id in p.entries && p.entries[id] != k) <==> exists i: nat, j: nat :: Replaced(xs, p.conns, k, i, j)
  {
    var p := Exec(xs);
    var id := p.conns[k];
    if id in p.entries && p.entries[id] != k {
      var j := p.entries[id];
      ListedExactly(xs, id, j);
      assert Lists(p, id, j);
      var i: nat :| i < |xs| && xs[i] == Add(id) && AddedLast(xs, p.conns, i, j);
      var a := AddedAt(xs, k);
      assert a <= i;
      AddsGrow(xs, a, i);
      assert Replaced(xs, p.conns, k, i, j);
    }
    if i: nat, j: nat :| Replaced(xs, p.conns, k, i, j) {
      ListedExactly(xs, id, j);
      assert Lists(p, id, j);
    }
  }

  /** A node connects twice and its first connection ends: the second goes on without an entry. */
  lemma DepartureExample(id: NodeId)
    ensures var xs := [Add(id), Add(id), Depart(0)];
            IsRun(xs) && Exec(xs).entries == map[] && Exec(xs).conns == [id, id] && 1 !in Exec(xs).gone
  {
    var one, two, xs := [Add(id)], [Add(id), Add(id)], [Add(id), Add(id), Depart(0)];
    assert one[..0] == [] && two[..1] == one && xs[..2] == two;
    assert IsRun([]) && Exec([]) == NOBODY;
    assert IsRun(one) && Exec(one) == Peers(map[id := 0], [id], {});
    assert IsRun(two) && Exec(two) == Peers(map[id := 1], [id, id], {});
    assert Exec(xs).entries == map[id := 1] - {id};
  }
}
