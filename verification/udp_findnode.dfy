/** What a findnode request collects: over every run of the UDP loop its count and its nodes are exactly
    those of the replies its callback was given, and it succeeds exactly once these list 16 nodes. */
module UdpFindnode {
  import opened NodeTypes
  import opened UdpLoop
  import opened UdpVerdicts
  import opened UdpAnswers

  /** The nodes listed by the latest reply in the log. */
  ghost function LatestNodes(log: seq<LogEntry>): seq<Option<Node>> {
    if log == [] then []
    else
      var e := log[|log| - 1];
      if e.Arrived? then e.reply.nodes else LatestNodes(log[..|log| - 1])
  }

  /** All nodes listed by the replies that the callback of request `q` was given, in order. */
  ghost function Heard(log: seq<LogEntry>, q: nat): seq<Option<Node>> {
    if log == [] then []
    else
      var init := log[..|log| - 1];
      if log[|log| - 1] == Called(q) then Heard(init, q) + LatestNodes(init) else Heard(init, q)
  }

  lemma LogAppend(log: seq<LogEntry>, e: LogEntry, q: nat)
    ensures LatestNodes(log + [e]) == if e.Arrived? then e.reply.nodes else LatestNodes(log)
    ensures Heard(log + [e], q) == if e == Called(q) then Heard(log, q) + LatestNodes(log) else Heard(log, q)
  {
    assert (log + [e])[..|log|] == log;
  }

  lemma {:induction false} HeardIgnores(log: seq<LogEntry>, es: seq<LogEntry>, q: nat)
    requires Called(q) !in es
    ensures Heard(log + es, q) == Heard(log, q)
    decreases |es|
  {
    if es == [] {
      assert log + es == log;
    } else {
      var n := |es| - 1;
      HeardIgnores(log, es[..n], q);
      assert log + es == log + es[..n] + [es[n]];
      LogAppend(log + es[..n], es[n], q);
    }
  }

  ghost predicate Increasing(qs: seq<nat>) {
    forall i, j :: 0 <= i < j < |qs| ==> qs[i] < qs[j]
  }

  /** A reply is heard once by each request whose callback it ran. */
  lemma {:induction false} HeardCalls(log: seq<LogEntry>, r: Reply, m: bool, cs: seq<nat>, q: nat)
    requires Increasing(cs)
    ensures LatestNodes(log + [Arrived(r, m)] + CallEntries(cs)) == r.nodes
    ensures Heard(log + [Arrived(r, m)] + CallEntries(cs), q) == if q in cs then Heard(log, q) + r.nodes else Heard(log, q)
    decreases |cs|
  {
    hide Heard, LatestNodes, CallEntries;
    var start := log + [Arrived(r, m)];
    if cs == [] {
      LogAppend(log, Arrived(r, m), q);
      assert start + CallEntries(cs) == start;
    } else {
      var n := |cs| - 1;
      HeardCalls(log, r, m, cs[..n], q);
      assert start + CallEntries(cs) == start + CallEntries(cs[..n]) + [Called(cs[n])];
      LogAppend(start + CallEntries(cs[..n]), Called(cs[n]), q);
      assert cs == cs[..n] + [cs[n]];
    }
  }

  lemma AcceptCons(x: Option<Node>, ns: seq<Option<Node>>)
    ensures Accept([x] + ns) == (if x.Some? then [x.value] else []) + Accept(ns)
  {
    assert ([x] + ns)[1..] == ns;
  }

  /** What is accepted of a list of nodes: the valid ones, in their order. */
  lemma AcceptExactly(ns: seq<Option<Node>>, k: nat)
    requires k < |ns|
    ensures Accept(ns[..k + 1]) == Accept(ns[..k]) + (if ns[k].Some? then [ns[k].value] else [])
  {
    assert ns[..k + 1] == ns[..k] + [ns[k]];
    AcceptConcat(ns[..k], [ns[k]]);
    AcceptCons(ns[k], []);
    assert [ns[k]] + [] == [ns[k]];
  }

  lemma AcceptNone()
    ensures Accept([]) == []
  {
  }

  lemma {:induction false} AcceptConcat(a: seq<Option<Node>>, b: seq<Option<Node>>)
    ensures Accept(a + b) == Accept(a) + Accept(b)
  {
    AcceptNone();
    hide Accept;
    if a == [] {
      assert a + b == b;
    } else {
      AcceptConcat(a[1..], b);
      AcceptCons(a[0], a[1..]);
      AcceptCons(a[0], a[1..] + b);
      assert a == [a[0]] + a[1..] && a + b == [a[0]] + (a[1..] + b);
    }
  }

  ghost predicate Ordered(ps: seq<Pending>) {
    forall i, j :: 0 <= i < j < |ps| ==> ps[i].req < ps[j].req
  }

  lemma {:induction false} CalledIncreasing(ps: seq<Pending>, r: Reply)
    requires Ordered(ps)
    ensures Increasing(SweepReply(ps, r).called)
    ensures forall i :: 0 <= i < |SweepReply(ps, r).called| ==> exists j :: 0 <= j < |ps| && ps[j].req == SweepReply(ps, r).called[i]
  {
    if ps != [] {
      var rest, w := SweepReply(ps[1..], r).called, SweepReply(ps, r).called;
      CalledIncreasing(ps[1..], r);
      forall i | 0 <= i < |rest|
        ensures ps[0].req < rest[i] && exists j :: 0 <= j < |ps| && ps[j].req == rest[i]
      {
        var j :| 0 <= j < |ps[1..]| && ps[1..][j].req == rest[i];
        assert ps[j + 1] == ps[1..][j];
      }
      assert w == rest || w == [ps[0].req] || w == [ps[0].req] + rest;
    }
  }

  /** What request `p` has accumulated is what it was told. */
  ghost predicate Collects(log: seq<LogEntry>, p: Pending) {
    p.ptype == NEIGHBORS_PACKET ==>
      p.received == |Heard(log, p.req)| && p.nodes == Accept(Heard(log, p.req)) && p.received < BUCKET_SIZE
  }

  /** Entry `k`, if it is the verdict of a findnode request, is a success exactly if 16 nodes were listed. */
  ghost predicate FairVerdict(u: Udp, k: nat)
    requires k < |u.log|
  {
    u.log[k].Sent? && u.log[k].req < |u.requests| && u.requests[u.log[k].req].ptype == NEIGHBORS_PACKET ==>
      (u.log[k].verdict == Ok <==> |Heard(u.log[..k], u.log[k].req)| >= BUCKET_SIZE)
  }

  ghost predicate FindInv(u: Udp) {
    && Inv(u)
    && (forall q: nat :: Called(q) in u.log ==> q < |u.requests|)
    && (forall i :: 0 <= i < |u.plist| ==> Collects(u.log, u.plist[i]))
    && (forall k :: 0 <= k < |u.log| ==> FairVerdict(u, k))
  }

  /** A callback that is not done yet keeps the request's account. */
  lemma CallbackCollects(log: seq<LogEntry>, later: seq<LogEntry>, p: Pending, r: Reply)
    requires Collects(log, p) && Heard(later, p.req) == Heard(log, p.req) + r.nodes
    ensures !Callback(p, r).1 ==> Collects(later, Callback(p, r).0)
    ensures p.ptype == NEIGHBORS_PACKET ==>
              && Callback(p, r).0.nodes == Accept(Heard(later, p.req))
              && (Callback(p, r).1 <==> |Heard(later, p.req)| >= BUCKET_SIZE)
  {
    AcceptConcat(Heard(log, p.req), r.nodes);
  }

  /** The callbacks of one reply: who is told what. */
  lemma ReplyHeard(ps: seq<Pending>, log: seq<LogEntry>, r: Reply, m: bool, i: nat)
    requires Ordered(ps) && i < |ps|
    ensures var later := log + [Arrived(r, m)] + CallEntries(SweepReply(ps, r).called);
            var before := Heard(log, ps[i].req);
            Heard(later, ps[i].req) == if Matches(ps[i], r) && i <= StopAt(ps, r) then before + r.nodes else before
  {
    var cs := SweepReply(ps, r).called;
    CalledIncreasing(ps, r);
    HeardCalls(log, r, m, cs, ps[i].req);
    SweepReplyCalls(ps, r, ps[i].req);
  }

  lemma GotCollects(u: Udp, r: Reply, i: nat)
    requires FindInv(u) && Enabled(u, Got(r)) && i < |Next(u, Got(r)).plist|
    ensures Collects(Next(u, Got(r)).log, Next(u, Got(r)).plist[i])
  {
    var ps, w, k := u.plist, SweepReply(u.plist, r), StopAt(u.plist, r);
    var later := u.log + [Arrived(r, AnyMatch(ps, r))] + CallEntries(w.called);
    SweepReplyShape(ps, r);
    var j := if i < k then i else i + 1;
    assert Collects(u.log, ps[j]);
    ReplyHeard(ps, u.log, r, AnyMatch(ps, r), j);
    hide Heard, Accept, SweepReply, AnyMatch;
    if i < k && Matches(ps[i], r) {
      CallbackCollects(u.log, later, ps[i], r);
    }
    assert Collects(later, w.plist[i]);
    HeardIgnores(later, SentEntries(w, Ok), w.plist[i].req);
    assert Next(u, Got(r)).log == later + SentEntries(w, Ok);
  }

  /** A findnode request that a reply completes has been listed 16 nodes or more, and returns exactly the
      valid ones among all it was told. */
  lemma GotCompletes(u: Udp, r: Reply)
    requires FindInv(u) && Enabled(u, Got(r)) && SweepReply(u.plist, r).removed.Some?
    ensures var p, log := SweepReply(u.plist, r).removed.value, Next(u, Got(r)).log;
            && log != [] && log[|log| - 1] == Sent(p.req, Ok)
            && p.req < |u.requests| && u.requests[p.req] == Request(p.from, p.ptype)
            && (p.ptype == NEIGHBORS_PACKET ==>
                  |Heard(log[..|log| - 1], p.req)| >= BUCKET_SIZE && p.nodes == Accept(Heard(log[..|log| - 1], p.req)))
  {
    var ps, w, k := u.plist, SweepReply(u.plist, r), StopAt(u.plist, r);
    var later, log := u.log + [Arrived(r, AnyMatch(ps, r))] + CallEntries(w.called), Next(u, Got(r)).log;
    SweepReplyShape(ps, r);
    ReplyHeard(ps, u.log, r, AnyMatch(ps, r), k);
    assert Collects(u.log, ps[k]);
    CallbackCollects(u.log, later, ps[k], r);
    assert log[..|log| - 1] == later;
  }

  // ---------- Every step, every run ----------

  lemma OldVerdictsFair(u: Udp, r: Udp, k: nat)
    requires FindInv(u) && u.log <= r.log && u.requests <= r.requests && k < |u.log|
    ensures FairVerdict(r, k)
  {
    assert r.log[..k] == u.log[..k] && r.log[k] == u.log[k];
    assert FairVerdict(u, k);
    if u.log[k].Sent? {
      assert u.log[k] in u.log;
      assert u.log[k].req in Settled(u.log);
    }
  }

  /** What a step other than a reply adds: no callbacks, and failures of pending or brand-new requests. */
  ghost predicate Quiet(u: Udp, r: Udp) {
    && u.log <= r.log && u.requests <= r.requests
    && (forall i :: |u.log| <= i < |r.log| ==> !r.log[i].Called?)
    && (forall i :: |u.log| <= i < |r.log| && r.log[i].Sent? ==>
          r.log[i].verdict != Ok && (r.log[i].req == |u.requests| || exists p :: p in u.plist && p.req == r.log[i].req))
    && (forall p :: p in r.plist ==> p in u.plist || (p.req == |u.requests| && p.received == 0 && p.nodes == []))
  }

  lemma QuietStep(u: Udp, x: Step)
    requires Enabled(u, x) && !x.Got?
    ensures Quiet(u, Next(u, x))
  {
    if x.Tick? {
      var k := SweepExpiredShape(u.plist, u.tick.value);
      hide SweepExpired;
    }
  }

  /** Entries without callbacks tell nobody anything. */
  lemma QuietHeard(log: seq<LogEntry>, later: seq<LogEntry>, k: nat, q: nat)
    requires log <= later && |log| <= k <= |later|
    requires forall i :: |log| <= i < |later| ==> !later[i].Called?
    ensures Heard(later[..k], q) == Heard(log, q)
  {
    hide Heard;
    var es := later[|log|..k];
    assert later[..k] == log + es;
    assert forall i :: 0 <= i < |es| ==> es[i] == later[|log| + i];
    HeardIgnores(log, es, q);
  }

  /** Nobody was told anything before making a request. */
  lemma HeardNothing(log: seq<LogEntry>, q: nat)
    requires Called(q) !in log
    ensures Heard(log, q) == []
  {
    HeardIgnores([], log, q);
    assert [] + log == log;
  }

  lemma QuietFair(u: Udp, r: Udp, k: nat)
    requires FindInv(u) && Quiet(u, r) && |u.log| <= k < |r.log|
    ensures FairVerdict(r, k)
  {
    if r.log[k].Sent? && r.log[k].req < |r.requests| {
      var q := r.log[k].req;
      QuietHeard(u.log, r.log, k, q);
      if q == |u.requests| {
        HeardNothing(u.log, q);
      } else {
        var p :| p in u.plist && p.req == q;
        var i :| 0 <= i < |u.plist| && u.plist[i] == p;
        assert Collects(u.log, u.plist[i]) && r.requests[q] == u.requests[q];
      }
    }
  }

  lemma QuietCollects(u: Udp, r: Udp, p: Pending)
    requires FindInv(u) && Quiet(u, r) && p in r.plist
    ensures Collects(r.log, p)
  {
    QuietHeard(u.log, r.log, |r.log|, p.req);
    assert r.log[..|r.log|] == r.log;
    if p in u.plist {
      var i :| 0 <= i < |u.plist| && u.plist[i] == p;
      assert Collects(u.log, u.plist[i]);
    } else {
      HeardNothing(u.log, p.req);
    }
  }

  lemma QuietFindInv(u: Udp, x: Step)
    requires FindInv(u) && Enabled(u, x) && !x.Got?
    ensures FindInv(Next(u, x))
  {
    var r := Next(u, x);
    StepInv(u, x);
    QuietStep(u, x);
    hide Next, Inv, Collects, FairVerdict;
    forall k | 0 <= k < |r.log|
      ensures FairVerdict(r, k)
    {
      if k < |u.log| {
        OldVerdictsFair(u, r, k);
      } else {
        QuietFair(u, r, k);
      }
    }
    forall i | 0 <= i < |r.plist|
      ensures Collects(r.log, r.plist[i])
    {
      QuietCollects(u, r, r.plist[i]);
    }
    forall q: nat | Called(q) in r.log
      ensures q < |r.requests|
    {
      var i :| 0 <= i < |r.log| && r.log[i] == Called(q);
      assert u.log[i] == Called(q);
    }
  }

  lemma GotFair(u: Udp, r: Reply, k: nat)
    requires FindInv(u) && Enabled(u, Got(r)) && |u.log| <= k < |Next(u, Got(r)).log|
    ensures FairVerdict(Next(u, Got(r)), k)
  {
    if Next(u, Got(r)).log[k].Sent? {
      GotCompletes(u, r);
      hide SweepReply, Heard, AnyMatch, FindInv;
    }
  }

  lemma GotCalls(u: Udp, r: Reply, k: nat)
    requires FindInv(u) && Enabled(u, Got(r)) && |u.log| <= k < |Next(u, Got(r)).log|
    ensures Next(u, Got(r)).log[k].Called? ==> Next(u, Got(r)).log[k].req < |u.requests|
  {
    var w, log := SweepReply(u.plist, r), Next(u, Got(r)).log;
    CalledIncreasing(u.plist, r);
    hide SweepReply, AnyMatch, Increasing, FairVerdict, Collects;
    if log[k].Called? {
      var i := k - |u.log| - 1;
      assert 0 <= i < |w.called| && log[k].req == w.called[i];
      var j :| 0 <= j < |u.plist| && u.plist[j].req == w.called[i];
    }
  }

  lemma GotFindInv(u: Udp, r: Reply)
    requires FindInv(u) && Enabled(u, Got(r))
    ensures FindInv(Next(u, Got(r)))
  {
    var n := Next(u, Got(r));
    StepInv(u, Got(r));
    StepGrows(u, Got(r));
    assert n.requests == u.requests;
    hide Next, Inv, Collects, FairVerdict;
    forall k | 0 <= k < |n.log|
      ensures FairVerdict(n, k)
    {
      if k < |u.log| {
        OldVerdictsFair(u, n, k);
      } else {
        GotFair(u, r, k);
      }
    }
    forall i | 0 <= i < |n.plist|
      ensures Collects(n.log, n.plist[i])
    {
      GotCollects(u, r, i);
    }
    forall q: nat | Called(q) in n.log
      ensures q < |n.requests|
    {
      var k :| 0 <= k < |n.log| && n.log[k] == Called(q);
      if k < |u.log| {
        assert u.log[k] == Called(q);
      } else {
        GotCalls(u, r, k);
      }
    }
  }

  lemma {:induction false} RunFindInv(now: int, xs: seq<Step>)
    requires IsRun(Init(now), xs)
    ensures FindInv(Exec(Init(now), xs))
    decreases |xs|
  {
    if xs != [] {
      var u, x := Exec(Init(now), xs[..|xs| - 1]), xs[|xs| - 1];
      RunFindInv(now, xs[..|xs| - 1]);
      if x.Got? {
        GotFindInv(u, x.reply);
      } else {
        QuietFindInv(u, x);
      }
    }
  }

  /** In every run a pending findnode request has counted fewer than 16 nodes, namely all those listed by
      the replies its callback was given, and holds the valid ones among them. */
  lemma FindnodeCollects(now: int, xs: seq<Step>, i: nat)
    requires IsRun(Init(now), xs) && i < |Exec(Init(now), xs).plist|
    requires Exec(Init(now), xs).plist[i].ptype == NEIGHBORS_PACKET
    ensures var u := Exec(Init(now), xs);
            var told := Heard(u.log, u.plist[i].req);
            u.plist[i].received == |told| < 16 && u.plist[i].nodes == Accept(told)
  {
    RunFindInv(now, xs);
    assert Collects(Exec(Init(now), xs).log, Exec(Init(now), xs).plist[i]);
  }

  /** In every run a findnode request gets a verdict of success exactly if the replies its callback was
      given by then listed 16 nodes or more. */
  lemma FindnodeVerdict(now: int, xs: seq<Step>, k: nat)
    requires IsRun(Init(now), xs) && k < |Exec(Init(now), xs).log| && Exec(Init(now), xs).log[k].Sent?
    ensures var u := Exec(Init(now), xs);
            var q := u.log[k].req;
            && q < |u.requests|
            && (u.requests[q].ptype == NEIGHBORS_PACKET ==> (u.log[k].verdict == Ok <==> |Heard(u.log[..k], q)| >= 16))
  {
    RunFindInv(now, xs);
    var u := Exec(Init(now), xs);
    assert FairVerdict(u, k);
    assert u.log[k].req in Settled(u.log);
  }

  /** A neighbors reply, together with what request `q` was told before, lists 16 nodes or more. */
  ghost predicate Completes(u: Udp, r: Reply, q: nat) {
    |Heard(u.log, q)| + |r.nodes| >= 16
  }

  /** Request `q` waits for a neighbors reply and no earlier one that does is completed by it. */
  ghost predicate Reached(u: Udp, r: Reply, q: nat) {
    Waits(u, q, r.from, 4) && forall p: nat :: p < q && Waits(u, p, r.from, 4) ==> !Completes(u, r, p)
  }

  lemma CompletesAt(u: Udp, r: Reply, i: nat)
    requires FindInv(u) && r.ptype == 4 && i < |u.plist| && Matches(u.plist[i], r)
    ensures Callback(u.plist[i], r).1 <==> Completes(u, r, u.plist[i].req)
  {
    assert Collects(u.log, u.plist[i]);
  }

  lemma ReachedListed(u: Udp, r: Reply, i: nat)
    requires FindInv(u) && !u.done && r.ptype == 4 && i < |u.plist| && Matches(u.plist[i], r)
    ensures Reached(u, r, u.plist[i].req) <==> i <= StopAt(u.plist, r)
  {
    hide Completes, Callback, Heard;
    var ps, q, k := u.plist, u.plist[i].req, StopAt(u.plist, r);
    WaitsListed(u, q, r.from, 4);
    if i <= k {
      forall p: nat | p < q && Waits(u, p, r.from, 4)
        ensures !Completes(u, r, p)
      {
        WaitsListed(u, p, r.from, 4);
        var j :| 0 <= j < |ps| && ps[j].req == p && ps[j].from == r.from && ps[j].ptype == 4;
        assert j < i;
        CompletesAt(u, r, j);
      }
    } else {
      CompletesAt(u, r, k);
      WaitsListed(u, ps[k].req, r.from, 4);
      assert ps[k].req < q && Completes(u, r, ps[k].req);
    }
  }

  /** Over every run, a neighbors reply is given to exactly the requests that wait for it, up to the first
      one that it completes, and exactly that one succeeds. */
  lemma NeighborsReach(now: int, xs: seq<Step>, r: Reply, q: nat)
    requires IsRun(Init(now), xs) && Enabled(Exec(Init(now), xs), Got(r)) && r.ptype == 4
    ensures var u := Exec(Init(now), xs);
            && (Called(q) in Added(u, Got(r)) <==> Reached(u, r, q))
            && (Sent(q, Ok) in Added(u, Got(r)) <==> Reached(u, r, q) && Completes(u, r, q))
  {
    RunFindInv(now, xs);
    NeighborsStep(Exec(Init(now), xs), r, q);
  }

  lemma NeighborsStep(u: Udp, r: Reply, q: nat)
    requires FindInv(u) && Enabled(u, Got(r)) && r.ptype == 4
    ensures Called(q) in Added(u, Got(r)) <==> Reached(u, r, q)
    ensures Sent(q, Ok) in Added(u, Got(r)) <==> Reached(u, r, q) && Completes(u, r, q)
  {
    var ps, w, k := u.plist, SweepReply(u.plist, r), StopAt(u.plist, r);
    GotLog(u, r);
    assert Added(u, Got(r)) == ReplyEntries(ps, r);
    GotSent(ps, r, q, Ok);
    GotCalled(ps, r, q);
    SweepReplyCalls(ps, r, q);
    hide SweepReply, ReplyEntries, Reached, Completes, Inv, Collects, Callback, Heard;
    WaitsListed(u, q, r.from, 4);
    ReachedWaits(u, r, q);
    if i :| 0 <= i < |ps| && Matches(ps[i], r) && ps[i].req == q {
      ReachedListed(u, r, i);
      CompletesAt(u, r, i);
    }
    if k < |ps| {
      CompletesAt(u, r, k);
      ReachedListed(u, r, k);
    }
  }

  lemma ReachedWaits(u: Udp, r: Reply, q: nat)
    ensures Reached(u, r, q) ==> Waits(u, q, r.from, 4)
  {
  }

  lemma GotCalled(ps: seq<Pending>, r: Reply, q: nat)
    ensures Called(q) in ReplyEntries(ps, r) <==> q in SweepReply(ps, r).called
  {
    hide SweepReply, AnyMatch;
    var w := SweepReply(ps, r);
    var calls := CallEntries(w.called);
    assert ReplyEntries(ps, r) == [Arrived(r, AnyMatch(ps, r))] + calls + SentEntries(w, Ok);
    assert Called(q) in calls <==> q in w.called by {
      if i :| 0 <= i < |w.called| && w.called[i] == q {
        assert calls[i] == Called(q);
      }
    }
  }
}
