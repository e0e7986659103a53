/** The gate on findnode requests: a neighbors reply goes only to nodes that answered a ping of ours.
    The UDP loop, the node records in the store and the findnode handler run side by side. */
module FindnodeGate {
  import opened NodeTypes
  import opened UdpLoop
  import opened UdpVerdicts

  /** A neighbors reply sent to `to` when the log of the UDP loop had length `at`. */
  datatype Answer = Answer(to: NodeId, at: nat)

  /** `store` maps each node with a record to the ping request whose pong led to that record. */
  datatype Gate = Gate(udp: Udp, store: map<NodeId, nat>, answers: seq<Answer>)

  datatype GateStep =
    | Net(step: Step)
    | Bonded(req: nat)
    | Forget(ids: set<NodeId>)
    | FindnodeFrom(from: NodeId)

  ghost predicate GateEnabled(g: Gate, x: GateStep) {
    match x
    case Net(s) => Enabled(g.udp, s)
    // pingpong writes the record only after its own ping returned without error
    case Bonded(q) =>
      && q < |g.udp.requests| && g.udp.requests[q].ptype == PONG_PACKET
      && Sent(q, Ok) in g.udp.log
    case Forget(_) => true
    case FindnodeFrom(_) => true
  }

  ghost function GateNext(g: Gate, x: GateStep): Gate
    requires GateEnabled(g, x)
  {
    match x
    case Net(s) => g.(udp := Next(g.udp, s))
    case Bonded(q) => g.(store := g.store[g.udp.requests[q].from := q])
    case Forget(ids) => g.(store := g.store - ids)
    case FindnodeFrom(id) => if id in g.store then g.(answers := g.answers + [Answer(id, |g.udp.log|)]) else g
  }

  function GateInit(now: int): Gate {
    Gate(Init(now), map[], [])
  }

  ghost predicate GateRun(g: Gate, xs: seq<GateStep>)
    decreases |xs|, 0
  {
    xs == [] || (GateRun(g, xs[..|xs| - 1]) && GateEnabled(GateExec(g, xs[..|xs| - 1]), xs[|xs| - 1]))
  }

  ghost function GateExec(g: Gate, xs: seq<GateStep>): Gate
    requires GateRun(g, xs)
    decreases |xs|, 1
  {
    if xs == [] then g else GateNext(GateExec(g, xs[..|xs| - 1]), xs[|xs| - 1])
  }

  /** Before entry `k` of the log, where our ping to `id` succeeds, we made that ping and a pong from
      `id` arrived and was matched. */
  ghost predicate PongProves(u: Udp, id: NodeId, i: nat, j: nat, k: nat) {
    && i < j < k && Causes(u, i, j, k)
    && u.requests[u.log[k].req] == Request(id, PONG_PACKET) && u.log[k].verdict == Ok
  }

  /** A pong from `id` proved a ping of ours within the first `n` entries of the log. */
  ghost predicate Proved(u: Udp, id: NodeId, n: nat) {
    exists i: nat, j: nat, k: nat :: k < n && PongProves(u, id, i, j, k)
  }

  ghost predicate GateInv(g: Gate) {
    && Inv(g.udp) && AllSubmitted(g.udp) && Justified(g.udp)
    && (forall id :: id in g.store ==> Proved(g.udp, id, |g.udp.log|))
    && (forall i :: 0 <= i < |g.answers| ==> g.answers[i].at <= |g.udp.log| && Proved(g.udp, g.answers[i].to, g.answers[i].at))
  }

  lemma ProvedGrows(u: Udp, v: Udp, id: NodeId, m: nat, n: nat)
    requires Proved(u, id, m) && m <= n && u.log <= v.log && u.requests <= v.requests
    ensures Proved(v, id, n)
  {
    var i: nat, j: nat, k: nat :| k < m && PongProves(u, id, i, j, k);
    CausesGrows(u, v, i, j, k);
    assert PongProves(v, id, i, j, k);
  }

  lemma GateStepInv(g: Gate, x: GateStep)
    requires GateInv(g) && GateEnabled(g, x)
    ensures GateInv(GateNext(g, x))
  {
    var r := GateNext(g, x);
    match x
    case Net(s) =>
      StepInv(g.udp, s);
      StepSubmitted(g.udp, s);
      StepJustified(g.udp, s);
      StepGrows(g.udp, s);
      forall id | id in r.store
        ensures Proved(r.udp, id, |r.udp.log|)
      {
        ProvedGrows(g.udp, r.udp, id, |g.udp.log|, |r.udp.log|);
      }
      forall i | 0 <= i < |r.answers|
        ensures Proved(r.udp, r.answers[i].to, r.answers[i].at)
      {
        ProvedGrows(g.udp, r.udp, r.answers[i].to, r.answers[i].at, r.answers[i].at);
      }
    case Bonded(q) =>
      var k :| 0 <= k < |g.udp.log| && g.udp.log[k] == Sent(q, Ok);
      var i, j :| 0 <= i < j < k && Causes(g.udp, i, j, k);
      assert PongProves(g.udp, g.udp.requests[q].from, i, j, k);
    case Forget(_) =>
    case FindnodeFrom(_) =>
  }

  lemma {:induction false} GateRunInv(now: int, xs: seq<GateStep>)
    requires GateRun(GateInit(now), xs)
    ensures GateInv(GateExec(GateInit(now), xs))
    decreases |xs|
  {
    if xs != [] {
      GateRunInv(now, xs[..|xs| - 1]);
      GateStepInv(GateExec(GateInit(now), xs[..|xs| - 1]), xs[|xs| - 1]);
    }
  }

  /** Starting from an empty store, in every run: a neighbors reply to a node is preceded by our own
      ping to that node, then by a pong from it that was matched, then by that ping succeeding. */
  lemma AnswersOnlyToBonded(now: int, xs: seq<GateStep>, a: nat)
    requires GateRun(GateInit(now), xs) && a < |GateExec(GateInit(now), xs).answers|
    ensures var g := GateExec(GateInit(now), xs);
            var u, to, at := g.udp, g.answers[a].to, g.answers[a].at;
            && at <= |u.log|
            && exists i: nat, j: nat, k: nat :: i < j < k < at && PingPongOk(u, to, i, j, k)
  {
    GateRunInv(now, xs);
    var g := GateExec(GateInit(now), xs);
    var i: nat, j: nat, k: nat :| k < g.answers[a].at && PongProves(g.udp, g.answers[a].to, i, j, k);
    assert PingPongOk(g.udp, g.answers[a].to, i, j, k);
  }

  /** Entry `i` is our ping to `id`, entry `j` a matched pong from `id`, entry `k` that ping's success. */
  ghost predicate PingPongOk(u: Udp, id: NodeId, i: nat, j: nat, k: nat) {
    && i < |u.log| && j < |u.log| && k < |u.log|
    && u.log[i].Submitted? && u.log[i].req < |u.requests|
    && u.requests[u.log[i].req] == Request(id, PONG_PACKET)
    && u.log[j].Arrived? && u.log[j].matched && u.log[j].reply.from == id && u.log[j].reply.ptype == PONG_PACKET
    && u.log[k] == Sent(u.log[i].req, Ok)
  }

  // ---------- Who is answered ----------

  /** Step `j` records that the ping `q` to `id` succeeded. */
  predicate Records(requests: seq<Request>, x: GateStep, id: NodeId) {
    x.Bonded? && x.req < |requests| && requests[x.req].from == id
  }

  predicate Forgets(x: GateStep, id: NodeId) {
    x.Forget? && id in x.ids
  }

  /** A bond with `id` was recorded in step `j` and not forgotten since. */
  ghost predicate RecordedAt(requests: seq<Request>, xs: seq<GateStep>, id: NodeId, j: nat) {
    j < |xs| && Records(requests, xs[j], id) && forall k :: j < k < |xs| ==> !Forgets(xs[k], id)
  }

  ghost predicate KnownNow(requests: seq<Request>, xs: seq<GateStep>, id: NodeId) {
    exists j: nat :: RecordedAt(requests, xs, id, j)
  }

  /** Every bond recorded so far is of a request made. */
  ghost predicate BondsMade(requests: seq<Request>, xs: seq<GateStep>) {
    forall j :: 0 <= j < |xs| && xs[j].Bonded? ==> xs[j].req < |requests|
  }

  lemma KnownStep(requests: seq<Request>, more: seq<Request>, xs: seq<GateStep>, id: NodeId)
    requires xs != [] && requests <= more && BondsMade(requests, xs[..|xs| - 1])
    ensures var m := |xs| - 1;
            KnownNow(more, xs, id) <==> Records(more, xs[m], id) || (KnownNow(requests, xs[..m], id) && !Forgets(xs[m], id))
  {
    var m := |xs| - 1;
    var ys := xs[..m];
    forall j: nat | j < m
      ensures RecordedAt(more, xs, id, j) <==> RecordedAt(requests, ys, id, j) && !Forgets(xs[m], id)
    {
      assert ys[j] == xs[j];
      assert forall k :: j < k < m ==> ys[k] == xs[k];
    }
    assert RecordedAt(more, xs, id, m) <==> Records(more, xs[m], id);
    assert forall j: nat :: RecordedAt(more, xs, id, j) ==> j <= m;
    assert forall j: nat :: RecordedAt(requests, ys, id, j) ==> j < m;
  }

  lemma GateLast(g: Gate, xs: seq<GateStep>)
    requires GateRun(g, xs) && xs != []
    ensures var m := |xs| - 1;
            && GateRun(g, xs[..m]) && GateEnabled(GateExec(g, xs[..m]), xs[m]) && GateExec(g, xs) == GateNext(GateExec(g, xs[..m]), xs[m])
  {
  }

  lemma GateStore(g: Gate, x: GateStep, id: NodeId)
    requires GateEnabled(g, x)
    ensures var r := GateNext(g, x);
            && g.udp.requests <= r.udp.requests && (x.Bonded? ==> x.req < |r.udp.requests|)
            && (id in r.store <==> Records(r.udp.requests, x, id) || (id in g.store && !Forgets(x, id)))
  {
    if x.Net? {
      StepGrows(g.udp, x.step);
    }
  }

  /** In every run a node has a record exactly if a bond with it was recorded and not forgotten since. */
  lemma {:induction false} KnownExactly(now: int, xs: seq<GateStep>, id: NodeId)
    requires GateRun(GateInit(now), xs)
    ensures var g := GateExec(GateInit(now), xs);
            BondsMade(g.udp.requests, xs) && (id in g.store <==> KnownNow(g.udp.requests, xs, id))
    decreases |xs|
  {
    if xs != [] {
      var m := |xs| - 1;
      GateLast(GateInit(now), xs);
      KnownExactly(now, xs[..m], id);
      hide GateRun, GateExec, GateNext, GateEnabled, KnownNow;
      var g, r := GateExec(GateInit(now), xs[..m]), GateExec(GateInit(now), xs);
      GateStore(g, xs[m], id);
      KnownStep(g.udp.requests, r.udp.requests, xs, id);
      BondsMadeStep(g.udp.requests, r.udp.requests, xs);
    }
  }

  lemma BondsMadeStep(requests: seq<Request>, more: seq<Request>, xs: seq<GateStep>)
    requires xs != [] && requests <= more && BondsMade(requests, xs[..|xs| - 1])
    requires xs[|xs| - 1].Bonded? ==> xs[|xs| - 1].req < |more|
    ensures BondsMade(more, xs)
  {
    assert forall j :: 0 <= j < |xs| - 1 ==> xs[..|xs| - 1][j] == xs[j];
  }

  /** In every run a findnode request is answered, then and there, exactly if a bond with its sender was
      recorded and not forgotten since; nothing else is answered. */
  lemma AnswersExactly(now: int, xs: seq<GateStep>, x: GateStep)
    requires GateRun(GateInit(now), xs) && GateEnabled(GateExec(GateInit(now), xs), x)
    ensures var g := GateExec(GateInit(now), xs);
            GateNext(g, x).answers ==
            if x.FindnodeFrom? && KnownNow(g.udp.requests, xs, x.from) then g.answers + [Answer(x.from, |g.udp.log|)] else g.answers
  {
    if x.FindnodeFrom? {
      KnownExactly(now, xs, x.from);
    }
  }
}
