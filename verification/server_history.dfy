/** The state of the server loop told from its run: which nodes are static, connected, being dialed or in the
    history, by what the turns so far were; and from that exactly which static nodes a round dials. */
module ServerHistory {
  import opened NodeTypes
  import opened DialHistory
  import opened DialState
  import opened ServerLoop
  import opened ServerRuns
  import ExactRounds
  import RunLoop

  // ---------- What an event says about a node ----------

  predicate SetsStatic(e: Event, id: NodeId) {
    (e.AddStatic? && e.node.id == id) || e == RemoveStatic(id)
  }

  /** `e` enters a connection of `id`, with flag `f`. */
  predicate Enters(e: Event, id: NodeId, f: Flag) {
    (e.Connected? && e.dial.Dial? && e.dial.dest.id == id && e.dial.flag == f) || (e == Accepted(id) && f == 1)
  }

  predicate SetsPeer(e: Event, id: NodeId) {
    || (e.Connected? && e.dial.Dial? && e.dial.dest.id == id) || e == Accepted(id) || e == PeerGone(id) || e == RemoveStatic(id)
  }

  predicate EndsDial(e: Event, id: NodeId) {
    e.Finished? && e.task.Dial? && e.task.dest.id == id
  }

  // ---------- The same over a run ----------

  ghost predicate NoneSets(xs: seq<Turn>, from: nat, id: NodeId) {
    forall k :: from <= k < |xs| ==> !SetsStatic(xs[k].event, id)
  }

  /** Turn `i` adds `n` as a static node, and no later one adds or removes its identifier. */
  ghost predicate AddedStatic(xs: seq<Turn>, n: Node, i: nat) {
    i < |xs| && xs[i].event == AddStatic(n) && NoneSets(xs, i + 1, n.id)
  }

  /** `n` is the last node configured under its identifier. */
  ghost predicate Configured(nodes: seq<Node>, n: Node) {
    exists i :: 0 <= i < |nodes| && nodes[i] == n && forall j :: i < j < |nodes| ==> nodes[j].id != n.id
  }

  ghost predicate StaticNow(nodes: seq<Node>, xs: seq<Turn>, n: Node) {
    (Configured(nodes, n) && NoneSets(xs, 0, n.id)) || exists i: nat :: AddedStatic(xs, n, i)
  }

  /** Turn `i` enters a connection of `id`, and no later one replaces or removes it. */
  ghost predicate Entered(xs: seq<Turn>, id: NodeId, f: Flag, i: nat) {
    i < |xs| && Enters(xs[i].event, id, f) && forall k :: i < k < |xs| ==> !SetsPeer(xs[k].event, id)
  }

  ghost predicate PeerNow(xs: seq<Turn>, id: NodeId, f: Flag) {
    exists i: nat :: Entered(xs, id, f, i)
  }

  /** A dial of `id` ended in turn `i`; `exp` is thirty seconds after the round of that turn. */
  ghost predicate EndedAt(xs: seq<Turn>, id: NodeId, exp: int, i: nat) {
    i < |xs| && EndsDial(xs[i].event, id) && exp == xs[i].choice.now + 30_000_000_000
  }

  /** No round since turn `i` was later than `exp`. */
  ghost predicate LastsFrom(xs: seq<Turn>, i: nat, exp: int) {
    forall k :: i < k < |xs| ==> xs[k].choice.now <= exp
  }

  // ---------- One turn ----------

  lemma TurnState(s: Server, x: Turn)
    requires Enabled(s, x)
    ensures var r := Next(s, x);
            && r.now == x.choice.now
            && r.dialer.statics == (match x.event
                                    case AddStatic(n) => s.dialer.statics[n.id := n]
                                    case RemoveStatic(id) => s.dialer.statics - {id}
                                    case _ => s.dialer.statics)
  {
    hide Round;
    RoundFrame(s, x.choice);
  }

  lemma TurnPeers(s: Server, x: Turn, id: NodeId, f: Flag)
    requires Enabled(s, x)
    ensures (id in Next(s, x).peers && Next(s, x).peers[id] == f) <==>
            Enters(x.event, id, f) || (!SetsPeer(x.event, id) && id in s.peers && s.peers[id] == f)
  {
    hide Round, RoundPlan;
    RoundFrame(s, x.choice);
  }

  lemma TurnHist(s: Server, x: Turn, e: PastDial)
    requires Enabled(s, x)
    ensures e in Next(s, x).dialer.hist <==>
            || (e in s.dialer.hist && e.exp >= x.choice.now)
            || (EndsDial(x.event, e.id) && e.exp == x.choice.now + 30_000_000_000)
  {
    hide Round, RoundPlan;
    RoundFrame(s, x.choice);
  }

  // ---------- Every run ----------

  lemma LastTurn(s: Server, xs: seq<Turn>)
    requires IsRun(s, xs) && xs != []
    ensures var m := |xs| - 1;
            && IsRun(s, xs[..m]) && Enabled(Exec(s, xs[..m]), xs[m]) && Exec(s, xs) == Next(Exec(s, xs[..m]), xs[m])
  {
  }

  lemma ConfiguredExactly(nodes: seq<Node>, n: Node)
    ensures Configured(nodes, n) <==> n.id in StaticMap(nodes) && StaticMap(nodes)[n.id] == n
  {
    StaticMapKeys(nodes);
    if n.id in StaticMap(nodes) {
      var i := LastWith(nodes, n.id);
      StaticMapLast(nodes, i);
      if j :| 0 <= j < |nodes| && nodes[j] == n && forall k :: j < k < |nodes| ==> nodes[k].id != n.id {
        assert i == j;
      }
    } else if j :| 0 <= j < |nodes| && nodes[j] == n {
      StaticMapLast(nodes, j);
    }
  }

  lemma {:induction false} LastWith(nodes: seq<Node>, id: NodeId) returns (i: nat)
    requires exists k :: 0 <= k < |nodes| && nodes[k].id == id
    ensures i < |nodes| && nodes[i].id == id && forall j :: i < j < |nodes| ==> nodes[j].id != id
  {
    var m := |nodes| - 1;
    if nodes[m].id == id {
      i := m;
    } else {
      var k :| 0 <= k < |nodes| && nodes[k].id == id;
      assert nodes[..m][k].id == id;
      i := LastWith(nodes[..m], id);
    }
  }

  lemma StaticStep(nodes: seq<Node>, xs: seq<Turn>, n: Node)
    requires xs != []
    ensures var m := |xs| - 1;
            StaticNow(nodes, xs, n) <==>
            xs[m].event == AddStatic(n) || (!SetsStatic(xs[m].event, n.id) && StaticNow(nodes, xs[..m], n))
  {
    var m := |xs| - 1;
    var ys := xs[..m];
    assert forall k :: 0 <= k < m ==> ys[k] == xs[k];
    assert forall from: nat :: from <= m ==> (NoneSets(xs, from, n.id) <==> NoneSets(ys, from, n.id) && !SetsStatic(xs[m].event, n.id));
    forall i: nat
      ensures AddedStatic(xs, n, i) <==>
              (i == m && xs[m].event == AddStatic(n)) || (AddedStatic(ys, n, i) && !SetsStatic(xs[m].event, n.id))
    {
    }
    if xs[m].event == AddStatic(n) {
      assert AddedStatic(xs, n, m);
    }
  }

  /** In every run the static nodes are those configured or added and not removed or replaced since. */
  lemma {:induction false} StaticExactly(nodes: seq<Node>, maxDyn: nat, now: int, xs: seq<Turn>, n: Node)
    requires IsRun(Init(nodes, maxDyn, now), xs)
    ensures var d := Exec(Init(nodes, maxDyn, now), xs).dialer;
            (n.id in d.statics && d.statics[n.id] == n) <==> StaticNow(nodes, xs, n)
    decreases |xs|
  {
    hide StaticNow, Configured;
    var s := Init(nodes, maxDyn, now);
    if xs == [] {
      ConfiguredExactly(nodes, n);
      NoTurnYet(nodes, n);
    } else {
      var m := |xs| - 1;
      LastTurn(s, xs);
      StaticExactly(nodes, maxDyn, now, xs[..m], n);
      hide IsRun, Exec, Enabled, Next, Init;
      TurnState(Exec(s, xs[..m]), xs[m]);
      StaticStep(nodes, xs, n);
    }
  }

  lemma NoTurnYet(nodes: seq<Node>, n: Node)
    ensures StaticNow(nodes, [], n) <==> Configured(nodes, n)
  {
  }

  lemma PeerStep(xs: seq<Turn>, id: NodeId, f: Flag)
    requires xs != []
    ensures var m := |xs| - 1;
            PeerNow(xs, id, f) <==> Enters(xs[m].event, id, f) || (!SetsPeer(xs[m].event, id) && PeerNow(xs[..m], id, f))
  {
    var m := |xs| - 1;
    var ys := xs[..m];
    assert forall k :: 0 <= k < m ==> ys[k] == xs[k];
    forall i: nat
      ensures Entered(xs, id, f, i) <==> (i == m && Enters(xs[m].event, id, f)) || (Entered(ys, id, f, i) && !SetsPeer(xs[m].event, id))
    {
      if Entered(ys, id, f, i) {
        assert xs[i] == ys[i];
      }
    }
    if Enters(xs[m].event, id, f) {
      assert Entered(xs, id, f, m);
    }
  }

  /** In every run the peers are those entered and not gone, removed or replaced since, with their flags. */
  lemma {:induction false} PeerExactly(nodes: seq<Node>, maxDyn: nat, now: int, xs: seq<Turn>, id: NodeId, f: Flag)
    requires IsRun(Init(nodes, maxDyn, now), xs)
    ensures var peers := Exec(Init(nodes, maxDyn, now), xs).peers;
            (id in peers && peers[id] == f) <==> PeerNow(xs, id, f)
    decreases |xs|
  {
    hide PeerNow;
    var s := Init(nodes, maxDyn, now);
    if xs == [] {
      NobodyYet(id, f);
    } else {
      var m := |xs| - 1;
      LastTurn(s, xs);
      PeerExactly(nodes, maxDyn, now, xs[..m], id, f);
      hide IsRun, Exec, Enabled, Next, Init;
      TurnPeers(Exec(s, xs[..m]), xs[m], id, f);
      PeerStep(xs, id, f);
    }
  }

  lemma NobodyYet(id: NodeId, f: Flag)
    ensures !PeerNow([], id, f)
  {
  }

  ghost predicate InHistory(xs: seq<Turn>, e: PastDial) {
    exists i: nat :: EndedAt(xs, e.id, e.exp, i) && LastsFrom(xs, i, e.exp)
  }

  lemma HistoryStep(xs: seq<Turn>, e: PastDial)
    requires xs != []
    ensures var m := |xs| - 1;
            InHistory(xs, e) <==> || (InHistory(xs[..m], e) && e.exp >= xs[m].choice.now)
                                  || (EndsDial(xs[m].event, e.id) && e.exp == xs[m].choice.now + 30_000_000_000)
  {
    var m := |xs| - 1;
    var ys := xs[..m];
    assert forall k :: 0 <= k < m ==> ys[k] == xs[k];
    forall i: nat | i < m
      ensures EndedAt(xs, e.id, e.exp, i) <==> EndedAt(ys, e.id, e.exp, i)
      ensures LastsFrom(xs, i, e.exp) <==> LastsFrom(ys, i, e.exp) && xs[m].choice.now <= e.exp
    {
    }
    if EndedAt(xs, e.id, e.exp, m) {
      assert LastsFrom(xs, m, e.exp);
    }
  }

  /** In every run the history holds exactly the dials that ended, each until a round comes more than thirty
      seconds after the one it ended behind. */
  lemma {:induction false} HistoryExactly(nodes: seq<Node>, maxDyn: nat, now: int, xs: seq<Turn>, e: PastDial)
    requires IsRun(Init(nodes, maxDyn, now), xs)
    ensures e in Exec(Init(nodes, maxDyn, now), xs).dialer.hist <==> InHistory(xs, e)
    decreases |xs|
  {
    hide InHistory;
    var s := Init(nodes, maxDyn, now);
    if xs == [] {
      NothingYet(e);
    } else {
      var m := |xs| - 1;
      LastTurn(s, xs);
      HistoryExactly(nodes, maxDyn, now, xs[..m], e);
      hide IsRun, Exec, Enabled, Next, Init;
      TurnHist(Exec(s, xs[..m]), xs[m], e);
      HistoryStep(xs, e);
    }
  }

  lemma NothingYet(e: PastDial)
    ensures !InHistory([], e)
  {
  }

  // ---------- Who is being dialed ----------

  /** The round of turn `i` makes a dial task for `id`. */
  ghost predicate MakesDial(s: Server, xs: seq<Turn>, i: nat, id: NodeId)
    requires IsRun(s, xs)
  {
    i < |xs| && (RunLoop.RunNext(s, xs, i); id in DialIds(RoundPlan(Exec(s, xs[..i]), xs[i].choice).tasks))
  }

  /** Turn `i` makes a dial task for `id` that has not ended since. */
  ghost predicate DialOpen(s: Server, xs: seq<Turn>, i: nat, id: NodeId)
    requires IsRun(s, xs)
  {
    MakesDial(s, xs, i, id) && forall k :: i <= k < |xs| ==> !EndsDial(xs[k].event, id)
  }

  ghost predicate DialedNow(s: Server, xs: seq<Turn>, id: NodeId)
    requires IsRun(s, xs)
  {
    exists i: nat :: DialOpen(s, xs, i, id)
  }

  lemma TurnDialing(s: Server, x: Turn, id: NodeId)
    requires Enabled(s, x)
    ensures id in Next(s, x).dialer.dialing <==>
            (id in s.dialer.dialing || id in DialIds(RoundPlan(s, x.choice).tasks)) && !EndsDial(x.event, id)
  {
    hide Round, PlanTasks, DialIds;
    RoundFrame(s, x.choice);
    PlanAccounts(s.dialer, |s.pending| + |s.tasks|, s.peers, x.choice);
  }

  lemma MakesDialStep(s: Server, xs: seq<Turn>, i: nat, id: NodeId)
    requires IsRun(s, xs) && xs != [] && IsRun(s, xs[..|xs| - 1]) && i < |xs| - 1
    ensures MakesDial(s, xs, i, id) <==> MakesDial(s, xs[..|xs| - 1], i, id)
  {
    hide IsRun, Exec, RoundPlan, DialIds;
    var ys := xs[..|xs| - 1];
    assert ys[..i] == xs[..i] && ys[i] == xs[i];
    RunLoop.RunNext(s, xs, i);
    RunLoop.RunNext(s, ys, i);
  }

  lemma MakesDialLast(s: Server, xs: seq<Turn>, id: NodeId)
    requires IsRun(s, xs) && xs != []
    requires IsRun(s, xs[..|xs| - 1]) && Enabled(Exec(s, xs[..|xs| - 1]), xs[|xs| - 1])
    ensures MakesDial(s, xs, |xs| - 1, id) <==> id in DialIds(RoundPlan(Exec(s, xs[..|xs| - 1]), xs[|xs| - 1].choice).tasks)
  {
    hide IsRun, Exec, RoundPlan, DialIds;
  }

  lemma DialedStep(s: Server, xs: seq<Turn>, id: NodeId)
    requires IsRun(s, xs) && xs != []
    requires IsRun(s, xs[..|xs| - 1]) && Enabled(Exec(s, xs[..|xs| - 1]), xs[|xs| - 1])
    ensures var m := |xs| - 1;
            DialedNow(s, xs, id) <==>
            && (DialedNow(s, xs[..m], id) || id in DialIds(RoundPlan(Exec(s, xs[..m]), xs[m].choice).tasks))
            && !EndsDial(xs[m].event, id)
  {
    hide IsRun, Exec, RoundPlan, DialIds, MakesDial, Enabled;
    var m := |xs| - 1;
    var ys := xs[..m];
    MakesDialLast(s, xs, id);
    forall i: nat | i < m
      ensures DialOpen(s, xs, i, id) <==> DialOpen(s, ys, i, id) && !EndsDial(xs[m].event, id)
    {
      MakesDialStep(s, xs, i, id);
      assert forall k :: i <= k < m ==> ys[k] == xs[k];
    }
    forall i: nat | DialOpen(s, ys, i, id)
      ensures i < m
    {
      OpenIsTurn(s, ys, i, id);
    }
    forall i: nat | DialOpen(s, xs, i, id)
      ensures i <= m
    {
      OpenIsTurn(s, xs, i, id);
    }
    assert DialOpen(s, xs, m, id) <==> MakesDial(s, xs, m, id) && !EndsDial(xs[m].event, id);
  }

  lemma OpenIsTurn(s: Server, xs: seq<Turn>, i: nat, id: NodeId)
    requires IsRun(s, xs) && DialOpen(s, xs, i, id)
    ensures i < |xs|
  {
  }

  /** In every run the nodes recorded as being dialed are exactly those for which a round made a dial task
      that has not ended since, whether that task was run or lost. */
  lemma {:induction false} DialingExactly(nodes: seq<Node>, maxDyn: nat, now: int, xs: seq<Turn>, id: NodeId)
    requires IsRun(Init(nodes, maxDyn, now), xs)
    ensures id in Exec(Init(nodes, maxDyn, now), xs).dialer.dialing <==> DialedNow(Init(nodes, maxDyn, now), xs, id)
    decreases |xs|
  {
    var s := Init(nodes, maxDyn, now);
    if xs == [] {
      NotDialedYet(s, id);
    } else {
      hide DialedNow, Init;
      var m := |xs| - 1;
      LastTurn(s, xs);
      DialingExactly(nodes, maxDyn, now, xs[..m], id);
      hide IsRun, Exec, Enabled, Next, RoundPlan, DialIds;
      TurnDialing(Exec(s, xs[..m]), xs[m], id);
      DialedStep(s, xs, id);
    }
  }

  lemma NotDialedYet(s: Server, id: NodeId)
    ensures !DialedNow(s, [], id)
  {
  }

  // ---------- Which static nodes a round dials ----------

  /** A round dials a static node, as such, exactly if it is not being dialed, connected or in the live
      history. */
  lemma StaticRound(s: Server, c: Choice, n: Node)
    requires DialerOk(s.dialer) && ChoiceOk(s.dialer, c)
    ensures Dial(STATIC_DIAL, n) in RoundPlan(s, c).tasks <==>
            && n.id in s.dialer.statics && s.dialer.statics[n.id] == n
            && n.id !in s.dialer.dialing && n.id !in s.peers && n.id !in HistIds(Live(s.dialer.hist, c.now))
  {
    var d, peers, ts := s.dialer, s.peers, RoundPlan(s, c).tasks;
    if Dial(STATIC_DIAL, n) in ts {
      StaticDialFree(d, |s.pending| + |s.tasks|, peers, c, n);
    }
    if n.id in d.statics && d.statics[n.id] == n && n.id in ExactRounds.Due(d, peers, c.now) {
      StaticDialMade(d, |s.pending| + |s.tasks|, peers, c, n);
    }
  }

  lemma StaticDialFree(d: Dialer, nRunning: nat, peers: map<NodeId, Flag>, c: Choice, n: Node)
    requires DialerOk(d) && ChoiceOk(d, c) && Dial(STATIC_DIAL, n) in PlanTasks(d, nRunning, peers, c).tasks
    ensures n.id in d.statics && d.statics[n.id] == n && n.id in ExactRounds.Due(d, peers, c.now)
  {
    DialsComeFrom(d, nRunning, peers, c, Dial(STATIC_DIAL, n));
    RoundExtraTask(d, nRunning, peers, c);
    RoundDialsFresh(d, peers, c);
    hide PlanTasks, BufferPhase;
    assert Dial(STATIC_DIAL, n) in Dials(d, peers, c);
    var k :| k in d.statics && d.statics[k] == n;
  }

  lemma StaticDialMade(d: Dialer, nRunning: nat, peers: map<NodeId, Flag>, c: Choice, n: Node)
    requires DialerOk(d) && ChoiceOk(d, c) && n.id in d.statics && d.statics[n.id] == n && n.id in ExactRounds.Due(d, peers, c.now)
    ensures Dial(STATIC_DIAL, n) in PlanTasks(d, nRunning, peers, c).tasks
  {
    hide AddDials, IsOrder, StaticPhase, BufferPhase, PlanTasks, Tried, NStatic;
    var ds := Dials(d, peers, c);
    var i := StaticDialAt(d, peers, c, n.id);
    RoundDialsSources(d, peers, c);
    var k :| k in d.statics && d.statics[k] == ds[i].dest;
    assert ds[i] == Dial(STATIC_DIAL, n);
    assert ds[i] in ds;
    RoundKeepsDials(d, nRunning, peers, c, ds[i]);
  }

  lemma RoundKeepsDials(d: Dialer, nRunning: nat, peers: map<NodeId, Flag>, c: Choice, t: Task)
    requires ChoiceOk(d, c) && t in Dials(d, peers, c)
    ensures t in PlanTasks(d, nRunning, peers, c).tasks
  {
    RoundExtraTask(d, nRunning, peers, c);
    hide PlanTasks, Dials;
  }

  lemma StaticDialAt(d: Dialer, peers: map<NodeId, Flag>, c: Choice, id: NodeId) returns (i: nat)
    requires DialerOk(d) && ChoiceOk(d, c) && id in ExactRounds.Due(d, peers, c.now)
    ensures i < NStatic(d, peers, c) <= |Dials(d, peers, c)| && Dials(d, peers, c)[i].Dial? && Dials(d, peers, c)[i].dest.id == id
  {
    hide AddDials, IsOrder, StaticPhase, Dials, ExactRounds.Adds, ExactRounds.Due, DialerOk;
    var a := StaticPhase(d, peers, c).tasks;
    ExactRounds.StaticDials(d, peers, c);
    ExactRounds.AddsFromNone(d.dialing, StaticPhase(d, peers, c), STATIC_DIAL, ExactRounds.Due(d, peers, c.now));
    StaticsFirst(d, peers, c);
    var t :| t in a && t.Dial? && t.dest.id == id;
    i :| 0 <= i < |a| && a[i] == t;
  }

  lemma StaticsFirst(d: Dialer, peers: map<NodeId, Flag>, c: Choice)
    requires ChoiceOk(d, c)
    ensures StaticPhase(d, peers, c).tasks <= Dials(d, peers, c)
  {
    hide AddDials, StaticPhase, Tried;
    TwoPasses(d, peers, c);
    AddDialsCovers(StaticPhase(d, peers, c), Busy(d, peers, c.now), DYNAMIC_DIAL, Tried(d, peers, c));
  }

  /** A dial of `id` ended in some turn whose round was at most thirty seconds before `now`. */
  ghost predicate EndedLately(xs: seq<Turn>, id: NodeId, now: int) {
    exists i :: 0 <= i < |xs| && EndsDial(xs[i].event, id) && now - xs[i].choice.now <= 30_000_000_000
  }

  lemma {:induction false} TurnsInOrder(s: Server, xs: seq<Turn>, k: nat)
    requires IsRun(s, xs) && ClockOk(s, xs) && k < |xs|
    ensures xs[k].choice.now <= Exec(s, xs).now
    decreases |xs|
  {
    hide IsRun, Exec, ClockOk, Enabled, Next;
    var m := |xs| - 1;
    LastTurn(s, xs);
    LastClock(s, xs);
    TurnState(Exec(s, xs[..m]), xs[m]);
    if k < m {
      TurnsInOrder(s, xs[..m], k);
    }
  }

  lemma LastClock(s: Server, xs: seq<Turn>)
    requires IsRun(s, xs) && ClockOk(s, xs) && xs != [] && IsRun(s, xs[..|xs| - 1])
    ensures ClockOk(s, xs[..|xs| - 1]) && Exec(s, xs[..|xs| - 1]).now <= xs[|xs| - 1].choice.now
  {
    hide IsRun, Exec;
  }

  lemma LiveExactly(nodes: seq<Node>, maxDyn: nat, now: int, xs: seq<Turn>, c: Choice, id: NodeId)
    requires IsRun(Init(nodes, maxDyn, now), xs) && ClockOk(Init(nodes, maxDyn, now), xs)
    requires Exec(Init(nodes, maxDyn, now), xs).now <= c.now
    ensures id in HistIds(Live(Exec(Init(nodes, maxDyn, now), xs).dialer.hist, c.now)) <==> EndedLately(xs, id, c.now)
  {
    hide IsRun, Exec, ClockOk, Init;
    var s := Init(nodes, maxDyn, now);
    var hist := Exec(s, xs).dialer.hist;
    if id in HistIds(Live(hist, c.now)) {
      var e :| e in hist && e.exp >= c.now && e.id == id;
      HistoryExactly(nodes, maxDyn, now, xs, e);
      var i: nat :| EndedAt(xs, e.id, e.exp, i) && LastsFrom(xs, i, e.exp);
    }
    if i :| 0 <= i < |xs| && EndsDial(xs[i].event, id) && c.now - xs[i].choice.now <= 30_000_000_000 {
      var e := PastDial(id, xs[i].choice.now + 30_000_000_000);
      forall k | i < k < |xs|
        ensures xs[k].choice.now <= e.exp
      {
        TurnsInOrder(s, xs, k);
      }
      assert EndedAt(xs, e.id, e.exp, i) && LastsFrom(xs, i, e.exp);
      HistoryExactly(nodes, maxDyn, now, xs, e);
      assert e in Live(hist, c.now);
    }
  }

  /** With a clock that does not go back, in every round of every run: a node is dialed as a static one
      exactly if it was configured or added and not removed since, no dial of it is open, it is not
      connected, and no dial of it ended within the last thirty seconds. */
  lemma StaticDialsExactly(nodes: seq<Node>, maxDyn: nat, now: int, xs: seq<Turn>, c: Choice, n: Node)
    requires RunsTo(nodes, maxDyn, now, xs, c) && ClockOk(Init(nodes, maxDyn, now), xs)
    requires Exec(Init(nodes, maxDyn, now), xs).now <= c.now
    ensures Dial(STATIC_DIAL, n) in RoundPlan(Exec(Init(nodes, maxDyn, now), xs), c).tasks <==>
            && StaticNow(nodes, xs, n) && !DialedNow(Init(nodes, maxDyn, now), xs, n.id)
            && (forall f :: !PeerNow(xs, n.id, f)) && !EndedLately(xs, n.id, c.now)
  {
    hide IsRun, Exec, ClockOk, Init, StaticNow, DialedNow, PeerNow, EndedLately, Live, HistIds, RoundPlan, DialerOk;
    var s := Exec(Init(nodes, maxDyn, now), xs);
    RunDialerOk(nodes, maxDyn, now, xs);
    StaticRound(s, c, n);
    StaticExactly(nodes, maxDyn, now, xs, n);
    DialingExactly(nodes, maxDyn, now, xs, n.id);
    LiveExactly(nodes, maxDyn, now, xs, c, n.id);
    if n.id in s.peers {
      PeerExactly(nodes, maxDyn, now, xs, n.id, s.peers[n.id]);
    }
    if f :| PeerNow(xs, n.id, f) {
      PeerExactly(nodes, maxDyn, now, xs, n.id, f);
    }
  }

  lemma RunDialerOk(nodes: seq<Node>, maxDyn: nat, now: int, xs: seq<Turn>)
    requires IsRun(Init(nodes, maxDyn, now), xs)
    ensures DialerOk(Exec(Init(nodes, maxDyn, now), xs).dialer)
  {
    InitInv(nodes, maxDyn, now);
    RunInv(Init(nodes, maxDyn, now), xs);
  }

  /** A static node that was removed and not added again since is not dialed as a static one; any other
      one still is. */
  lemma RemovedStaysRemoved(nodes: seq<Node>, maxDyn: nat, now: int, xs: seq<Turn>, c: Choice, i: nat, n: Node)
    requires RunsTo(nodes, maxDyn, now, xs, c)
    requires i < |xs| && xs[i].event == RemoveStatic(n.id)
    requires forall k :: i < k < |xs| && xs[k].event.AddStatic? ==> xs[k].event.node.id != n.id
    ensures Dial(STATIC_DIAL, n) !in RoundPlan(Exec(Init(nodes, maxDyn, now), xs), c).tasks
    ensures forall m: Node :: m.id != n.id ==> (StaticNow(nodes, xs[..i + 1], m) <==> StaticNow(nodes, xs[..i], m))
  {
    hide IsRun, Exec, Init, StaticNow, RoundPlan, DialerOk;
    var s := Exec(Init(nodes, maxDyn, now), xs);
    RunDialerOk(nodes, maxDyn, now, xs);
    StaticRound(s, c, n);
    StaticExactly(nodes, maxDyn, now, xs, n);
    RemovedNotStatic(nodes, xs, i, n);
    forall m: Node | m.id != n.id
      ensures StaticNow(nodes, xs[..i + 1], m) <==> StaticNow(nodes, xs[..i], m)
    {
      StaticStep(nodes, xs[..i + 1], m);
      assert xs[..i + 1][..i] == xs[..i];
    }
  }

  lemma RemovedNotStatic(nodes: seq<Node>, xs: seq<Turn>, i: nat, n: Node)
    requires i < |xs| && xs[i].event == RemoveStatic(n.id)
    requires forall k :: i < k < |xs| && xs[k].event.AddStatic? ==> xs[k].event.node.id != n.id
    ensures !StaticNow(nodes, xs, n)
  {
    assert SetsStatic(xs[i].event, n.id);
    forall j: nat
      ensures !AddedStatic(xs, n, j)
    {
      assert j < i ==> !NoneSets(xs, j + 1, n.id);
    }
  }
}
