/** The bound under which the server loop loses no task is sharp: for every way to split 16 into static
    nodes and dynamic quota, some run loses a task. */
module ServerBound {
  import opened NodeTypes
  import opened DialHistory
  import opened DialState
  import opened ServerLoop
  import opened ServerRuns
  import opened ExactRounds
  import opened ServerConfigs

  // ---------- Nodes in order ----------

  function OrderOf(ns: seq<Node>): (ids: seq<NodeId>)
    ensures |ids| == |ns| && forall i :: 0 <= i < |ns| ==> ids[i] == ns[i].id
  {
    seq(|ns|, i requires 0 <= i < |ns| => ns[i].id)
  }

  /** A round at the given time that visits the static nodes in order. */
  function At(now: int, nodes: seq<Node>, random: seq<Node>): Choice {
    Choice(now, OrderOf(nodes), random, |random|)
  }

  lemma AtFits(now: int, nodes: seq<Node>, random: seq<Node>, quota: nat)
    requires DistinctIds(nodes) && |random| <= quota / 2
    ensures FitsIn(At(now, nodes, random), IdsOf(nodes), quota)
  {
    hide OrderOf;
    forall id | id in IdsOf(nodes)
      ensures id in OrderOf(nodes)
    {
      var i :| 0 <= i < |nodes| && nodes[i].id == id;
      assert OrderOf(nodes)[i] == id;
    }
  }

  /** The node in the middle moves from one side to the other. */
  lemma IdsMove(ns: seq<Node>, i: nat)
    requires DistinctIds(ns) && i < |ns|
    ensures IdsOf(ns[..i + 1]) == IdsOf(ns[..i]) + {ns[i].id} && ns[i].id !in IdsOf(ns[..i])
    ensures IdsOf(ns[i + 1..]) == IdsOf(ns[i..]) - {ns[i].id} && ns[i].id in IdsOf(ns[i..]) && ns[i].id in IdsOf(ns)
  {
    assert ns[..i + 1] == ns[..i] + [ns[i]] && ns[i..] == [ns[i]] + ns[i + 1..];
    forall n | n in ns[i + 1..]
      ensures n.id != ns[i].id
    {
      var k :| 0 <= k < |ns[i + 1..]| && ns[i + 1..][k] == n;
      assert ns[i + 1 + k] == n;
    }
  }

  lemma IdsSplit(ns: seq<Node>, i: nat)
    requires i <= |ns|
    ensures IdsOf(ns[..i]) + IdsOf(ns[i..]) == IdsOf(ns)
  {
    assert ns == ns[..i] + ns[i..];
  }

  lemma {:induction false} IdsCount(ns: seq<Node>)
    requires DistinctIds(ns)
    ensures |IdsOf(ns)| == |ns|
  {
    hide IdsOf, DistinctIds;
    if ns == [] {
      IdsNone();
    } else {
      DistinctRest(ns, 1);
      IdsCount(ns[1..]);
      IdsMove(ns, 0);
      IdsFirst(ns);
    }
  }

  lemma DistinctRest(ns: seq<Node>, i: nat)
    requires DistinctIds(ns) && i <= |ns|
    ensures DistinctIds(ns[i..]) && DistinctIds(ns[..i])
  {
  }

  /** How many there are on either side. */
  lemma IdsCounts(ns: seq<Node>, i: nat)
    requires DistinctIds(ns) && i <= |ns|
    ensures |IdsOf(ns[..i])| == i && |IdsOf(ns[i..])| == |ns| - i && |IdsOf(ns)| == |ns|
  {
    hide IdsOf, DistinctIds;
    DistinctRest(ns, i);
    IdsCount(ns[..i]);
    IdsCount(ns[i..]);
    IdsCount(ns);
  }

  // ---------- The history ----------

  ghost function Past(ids: set<NodeId>, exp: int): set<PastDial> {
    set id | id in ids :: PastDial(id, exp)
  }

  lemma PastIds(ids: set<NodeId>, exp: int, now: int)
    ensures HistIds(Past(ids, exp)) == ids && Live(Past(ids, exp), now) == (if now <= exp then Past(ids, exp) else {})
    ensures ids != {} ==> Past(ids, exp) != {}
  {
    forall id | id in ids
      ensures id in HistIds(Past(ids, exp)) && PastDial(id, exp) in Past(ids, exp)
    {
      assert PastDial(id, exp) in Past(ids, exp);
    }
  }

  lemma PastGrows(ids: set<NodeId>, id: NodeId, exp: int)
    ensures Past(ids, exp) + {PastDial(id, exp)} == Past(ids + {id}, exp)
  {
  }

  // ---------- Quiet rounds ----------

  ghost predicate IsQuiet(known: set<NodeId>, quota: nat, g: Config, now: int) {
    && !g.lookup && Lacking(quota, g) <= 0 && DueIn(known, g, now) == {} && Live(g.hist, now) == g.hist
    && g.tasks <= MAX_ACTIVE_TASKS && g.now <= now && (g.tasks == 0 ==> g.hist != {})
  }

  ghost function Rested(g: Config, now: int): Config {
    g.(tasks := if g.tasks == 0 then 1 else g.tasks, now := now)
  }

  /** A round with nothing to dial: it makes a wait exactly if nothing is running. */
  lemma QuietRound(nodes: seq<Node>, quota: nat, g: Config, now: int)
    requires Top(nodes, quota, g) && DistinctIds(nodes) && IsQuiet(IdsOf(nodes), quota, g, now)
    ensures Selects(nodes, quota, Rested(g, now))
  {
    hide Top, Selects, DistinctIds, IdsOf, Lacking, DueIn, Live, FitsIn, OrderOf;
    AtFits(now, nodes, [], quota);
    assert After(IdsOf(nodes), quota, g, now, {}, g.buf) == Rested(g, now);
    GoSettled(nodes, quota, g, At(now, nodes, []));
  }

  const EXPIRY := DIAL_HISTORY_EXPIRATION

  // ---------- Static dials end one by one ----------

  /** All but the first `j` static nodes are being dialed; those and the peers were dialed at time zero. */
  ghost function Finishing(nodes: seq<Node>, peers: set<NodeId>, j: nat, buf: seq<Node>, boot: bool): Config
    requires j <= |nodes|
  {
    Config(peers, IdsOf(nodes[j..]), {}, Past(peers + IdsOf(nodes[..j]), EXPIRY), buf, boot, false,
           if j == |nodes| then 1 else |nodes| - j, 0)
  }

  lemma NothingDue(nodes: seq<Node>, j: nat, g: Config, now: int)
    requires j <= |nodes| && g.statics == IdsOf(nodes[j..]) && IdsOf(nodes[..j]) <= HistIds(Live(g.hist, now))
    ensures DueIn(IdsOf(nodes), g, now) == {}
  {
    hide IdsOf, HistIds, Live;
    IdsSplit(nodes, j);
  }

  lemma FinishNext(nodes: seq<Node>, peers: set<NodeId>, j: nat, buf: seq<Node>, boot: bool, now: int)
    requires DistinctIds(nodes) && j < |nodes| <= MAX_ACTIVE_TASKS && 0 <= now <= EXPIRY
    ensures var g := Done(Finishing(nodes, peers, j, buf, boot), nodes[j].id);
            && nodes[j].id in IdsOf(nodes[j..]) && IsQuiet(IdsOf(nodes), |peers|, g, now)
            && Rested(g, now) == Finishing(nodes, peers, j + 1, buf, boot).(now := now)
  {
    hide DistinctIds, IdsOf, Past, HistIds, Live, DueIn;
    var g, id, past := Finishing(nodes, peers, j, buf, boot), nodes[j].id, peers + IdsOf(nodes[..j]);
    IdsMove(nodes, j);
    PastGrows(past, id, EXPIRY);
    PastIds(past + {id}, EXPIRY, now);
    assert past + {id} == peers + IdsOf(nodes[..j + 1]) && id in past + {id};
    assert {} - {id} == {};
    NothingDue(nodes, j + 1, Done(g, id), now);
  }

  lemma FinishStep(nodes: seq<Node>, peers: set<NodeId>, j: nat, buf: seq<Node>, boot: bool, now: int)
    requires DistinctIds(nodes) && j < |nodes| <= MAX_ACTIVE_TASKS && 0 <= now <= EXPIRY
    requires Selects(nodes, |peers|, Finishing(nodes, peers, j, buf, boot))
    ensures Selects(nodes, |peers|, Finishing(nodes, peers, j + 1, buf, boot).(now := now))
  {
    hide Selects, Top, DistinctIds, IdsOf, Past, IsQuiet, Rested, Done;
    var g, id := Finishing(nodes, peers, j, buf, boot), nodes[j].id;
    FinishNext(nodes, peers, j, buf, boot, now);
    GoDone(nodes, |peers|, g, id);
    QuietRound(nodes, |peers|, Done(g, id), now);
  }

  lemma {:induction false} FinishRun(nodes: seq<Node>, peers: set<NodeId>, j: nat, buf: seq<Node>, boot: bool)
    requires DistinctIds(nodes) && j <= |nodes| <= MAX_ACTIVE_TASKS
    requires Selects(nodes, |peers|, Finishing(nodes, peers, 0, buf, boot))
    ensures Selects(nodes, |peers|, Finishing(nodes, peers, j, buf, boot))
  {
    hide Selects, DistinctIds, IdsOf, Past;
    if j > 0 {
      FinishRun(nodes, peers, j - 1, buf, boot);
      FinishStep(nodes, peers, j - 1, buf, boot, 0);
    }
  }

  // ---------- Dynamic nodes connect one by one ----------

  /** The nodes of the run: the static ones; the dynamic ones that fill the quota; and those that are to
      replace all but one of them. */
  ghost predicate Parties(nodes: seq<Node>, bs: seq<Node>, cs: seq<Node>) {
    && |nodes| + |bs| == MAX_ACTIVE_TASKS && |bs| == |cs| + 1
    && DistinctIds(nodes) && DistinctIds(bs) && DistinctIds(cs)
    && IdsOf(nodes) !! IdsOf(bs) && IdsOf(nodes) !! IdsOf(cs) && IdsOf(bs) !! IdsOf(cs)
  }

  /** The first `i` dynamic nodes are connected and their dials done; all others are being dialed. */
  ghost function Connecting(nodes: seq<Node>, bs: seq<Node>, cs: seq<Node>, i: nat): Config
    requires i <= |bs|
  {
    Config(IdsOf(bs[..i]), IdsOf(nodes), IdsOf(bs[i..]), Past(IdsOf(bs[..i]), EXPIRY), cs, true, false,
           if i >= MAX_ACTIVE_TASKS then 1 else MAX_ACTIVE_TASKS - i, 0)
  }

  lemma AllDialedQuiet(known: set<NodeId>, quota: nat, g: Config)
    requires !g.lookup && g.statics == known && Lacking(quota, g) <= 0 && Live(g.hist, 0) == g.hist
    requires g.tasks <= MAX_ACTIVE_TASKS && g.now == 0 && (g.tasks == 0 ==> g.hist != {})
    ensures IsQuiet(known, quota, g, 0)
  {
    hide HistIds, Live, Lacking;
  }

  lemma ConnectNow(nodes: seq<Node>, bs: seq<Node>, cs: seq<Node>, i: nat)
    requires Parties(nodes, bs, cs) && i < |bs|
    ensures var g, id := Connecting(nodes, bs, cs, i), bs[i].id;
            var h := g.(peers := g.peers + {id});
            id in g.dyn && IsQuiet(IdsOf(nodes), |bs|, h, 0) && Rested(h, 0) == h
  {
    hide DistinctIds, IdsOf, Past, Live, IsQuiet;
    var g, id := Connecting(nodes, bs, cs, i), bs[i].id;
    IdsMove(bs, i);
    IdsCounts(bs, i);
    IdsCounts(bs, i + 1);
    PastIds(IdsOf(bs[..i]), EXPIRY, 0);
    AllDialedQuiet(IdsOf(nodes), |bs|, g.(peers := g.peers + {id}));
  }

  lemma ConnectNext(nodes: seq<Node>, bs: seq<Node>, cs: seq<Node>, i: nat)
    requires Parties(nodes, bs, cs) && i < |bs|
    ensures var g, id := Connecting(nodes, bs, cs, i), bs[i].id;
            var h := Done(g.(peers := g.peers + {id}), id);
            IsQuiet(IdsOf(nodes), |bs|, h, 0) && Rested(h, 0) == Connecting(nodes, bs, cs, i + 1)
  {
    hide DistinctIds, IdsOf, Past, Live, IsQuiet;
    var g, id := Connecting(nodes, bs, cs, i), bs[i].id;
    IdsMove(bs, i);
    IdsCounts(bs, i + 1);
    PastGrows(IdsOf(bs[..i]), id, EXPIRY);
    PastIds(IdsOf(bs[..i + 1]), EXPIRY, 0);
    assert id in IdsOf(bs[..i + 1]);
    assert IdsOf(nodes) - {id} == IdsOf(nodes);
    AllDialedQuiet(IdsOf(nodes), |bs|, Done(g.(peers := g.peers + {id}), id));
  }

  lemma {:induction false} ConnectRun(nodes: seq<Node>, bs: seq<Node>, cs: seq<Node>, i: nat)
    requires Parties(nodes, bs, cs) && i <= |bs| && Selects(nodes, |bs|, Connecting(nodes, bs, cs, 0))
    ensures Selects(nodes, |bs|, Connecting(nodes, bs, cs, i))
  {
    hide Selects, Top, DistinctIds, IdsOf, Past, IsQuiet, Rested, Done;
    if i > 0 {
      ConnectRun(nodes, bs, cs, i - 1);
      var g, id := Connecting(nodes, bs, cs, i - 1), bs[i - 1].id;
      ConnectNow(nodes, bs, cs, i - 1);
      ConnectNext(nodes, bs, cs, i - 1);
      var h := g.(peers := g.peers + {id});
      GoConnects(nodes, |bs|, g, id);
      QuietRound(nodes, |bs|, h, 0);
      GoDone(nodes, |bs|, h, id);
      QuietRound(nodes, |bs|, Done(h, id), 0);
    }
  }

  // ---------- The dynamic quota fills up ----------

  /** Nothing has been connected or dialed to the end yet. */
  ghost function Early(statics: set<NodeId>, dyn: set<NodeId>, buf: seq<Node>, boot: bool, lookup: bool, tasks: nat): Config {
    Config({}, statics, dyn, {}, buf, boot, lookup, tasks, 0)
  }

  lemma EarlyDue(known: set<NodeId>, statics: set<NodeId>, dyn: set<NodeId>, buf: seq<Node>, boot: bool, tasks: nat, quota: nat,
                 ids: set<NodeId>)
    ensures var g := Early(statics, dyn, buf, boot, false, tasks);
            && DueIn(known, g, 0) == known - (statics + dyn) && Live(g.hist, 0) == {} && Lacking(quota, g) == quota - |dyn|
            && (ids !! known && ids !! statics && ids !! dyn ==> FreshIn(known, g, 0, ids))
  {
  }

  /** A round that dials what is left of the static nodes and all of the buffer, and starts a lookup. */
  lemma EarlyLookup(nodes: seq<Node>, quota: nat, statics: set<NodeId>, buf: seq<Node>, boot: bool, tasks: nat, due: set<NodeId>,
                    random: seq<Node>)
    requires Top(nodes, quota, Early(statics, {}, buf, boot, false, tasks)) && DistinctIds(nodes) && DistinctIds(buf)
    requires statics <= IdsOf(nodes) && due == IdsOf(nodes) - statics && IdsOf(buf) !! IdsOf(nodes) && |buf| < quota
    requires tasks + |due| + |buf| + 1 <= MAX_ACTIVE_TASKS && |random| <= quota / 2 && IdsOf(random) <= IdsOf(buf)
    ensures Selects(nodes, quota, Early(IdsOf(nodes), IdsOf(buf), [], boot, true, tasks + |due| + |buf| + 1))
  {
    hide Top, Selects, DistinctIds, IdsOf, FitsIn, OrderOf, DueIn, FreshIn, Lacking, Live;
    var known, g := IdsOf(nodes), Early(statics, {}, buf, boot, false, tasks);
    AtFits(0, nodes, random, quota);
    IdsCount(buf);
    EarlyDue(known, statics, {}, buf, boot, tasks, quota, IdsOf(buf));
    assert known - (statics + {}) == due && statics + due == known;
    assert After(known, quota, g, 0, IdsOf(buf), []) == Early(known, IdsOf(buf), [], boot, true, tasks + |due| + |buf| + 1);
    GoLookup(nodes, quota, g, At(0, nodes, random));
  }

  /** Bootstrapping and two lookups fill the quota; `k` of the nodes found first are listed by the table. */
  lemma Fills(nodes: seq<Node>, bs: seq<Node>, cs: seq<Node>, k: nat)
    requires Parties(nodes, bs, cs) && k <= |bs| / 2 && k < |bs|
    ensures Selects(nodes, |bs|, Connecting(nodes, bs, cs, 0))
  {
    hide Top, Selects, DistinctIds, IdsOf, Past;
    var A, n, d := IdsOf(nodes), |nodes|, |bs|;
    var most := bs[..d - 1];
    Begins(nodes, d);
    FillFacts(nodes, bs, cs, k);
    EarlyLookup(nodes, d, {}, [], false, 0, A, []);
    GoFound(nodes, d, Early(A, {}, [], false, true, n + 1), []);
    EarlyLookup(nodes, d, A, [], true, n, {}, []);
    GoFound(nodes, d, Early(A, {}, [], true, true, n + 1), most);
    EarlyLookup(nodes, d, A, most, true, n, {}, bs[..k]);
    GoFound(nodes, d, Early(A, IdsOf(most), [], true, true, MAX_ACTIVE_TASKS), [bs[d - 1]] + cs);
    LastDialed(nodes, bs, cs);
  }

  lemma FillFacts(nodes: seq<Node>, bs: seq<Node>, cs: seq<Node>, k: nat)
    requires Parties(nodes, bs, cs) && k < |bs|
    ensures var A, most := IdsOf(nodes), bs[..|bs| - 1];
            && |A| == |nodes| && IdsOf([]) == {} && A - {} == A && A - A == {} && DistinctIds([]) && bs[..0] + [] == []
            && DistinctIds(most) && IdsOf(most) !! A && IdsOf(bs[..k]) <= IdsOf(most) && [] + most == most
            && [] + ([bs[|bs| - 1]] + cs) == [bs[|bs| - 1]] + cs
  {
    hide IdsOf, DistinctIds;
    IdsNone();
    DistinctNone();
    IdsCount(nodes);
    DistinctRest(bs, |bs| - 1);
    IdsSplit(bs, |bs| - 1);
    IdsSplit(bs[..|bs| - 1], k);
    assert bs[..|bs| - 1][..k] == bs[..k];
  }

  lemma DistinctNone()
    ensures DistinctIds([])
  {
  }

  lemma LastDialedFacts(nodes: seq<Node>, bs: seq<Node>, cs: seq<Node>, buf: seq<Node>, b: Node)
    requires Parties(nodes, bs, cs) && b == bs[|bs| - 1] && buf == [b] + cs
    ensures var A, g := IdsOf(nodes), Early(IdsOf(nodes), IdsOf(bs[..|bs| - 1]), buf, true, false, MAX_ACTIVE_TASKS - 1);
            && buf[0] == b && buf[1..] == cs && FreshIn(A, g, 0, {b.id}) && Lacking(|bs|, g) == 1
            && MadeIn(A, |bs|, g, 0, {b.id}, cs) == 1 && After(A, |bs|, g, 0, {b.id}, cs) == Connecting(nodes, bs, cs, 0)
  {
    hide DistinctIds, IdsOf, DueIn, FreshIn, Lacking, Live, Past;
    var A, most := IdsOf(nodes), IdsOf(bs[..|bs| - 1]);
    IdsMove(bs, |bs| - 1);
    IdsCounts(bs, |bs| - 1);
    EarlyDue(A, A, most, buf, true, MAX_ACTIVE_TASKS - 1, |bs|, {b.id});
    assert A - (A + most) == {};
    assert bs[..|bs| - 1 + 1] == bs && bs[0..] == bs && bs[..0] == [];
    IdsNone();
    PastNone();
  }

  /** The last node that is lacking is dialed; the others found with it stay in the buffer. */
  lemma LastDialed(nodes: seq<Node>, bs: seq<Node>, cs: seq<Node>)
    requires Parties(nodes, bs, cs)
    requires Top(nodes, |bs|, Early(IdsOf(nodes), IdsOf(bs[..|bs| - 1]), [bs[|bs| - 1]] + cs, true, false, MAX_ACTIVE_TASKS - 1))
    ensures Selects(nodes, |bs|, Connecting(nodes, bs, cs, 0))
  {
    hide Top, Selects, DistinctIds, IdsOf, FitsIn, OrderOf, FreshIn, Lacking, MadeIn, After, Connecting;
    var b := bs[|bs| - 1];
    LastDialedFacts(nodes, bs, cs, [b] + cs, b);
    AtFits(0, nodes, [], |bs|);
    GoRefill(nodes, |bs|, Early(IdsOf(nodes), IdsOf(bs[..|bs| - 1]), [b] + cs, true, false, MAX_ACTIVE_TASKS - 1), At(0, nodes, []));
  }

  lemma PastNone()
    ensures Past({}, EXPIRY) == {}
  {
  }

  // ---------- Dynamic peers leave one by one ----------

  /** Beside a wait, all static nodes are being dialed; the first `i` dynamic peers have left and been replaced. */
  ghost function Replacing(nodes: seq<Node>, bs: seq<Node>, cs: seq<Node>, i: nat, hist: set<PastDial>, now: int): Config
    requires i <= |cs| <= |bs|
  {
    Config(IdsOf(bs[i..]), IdsOf(nodes), IdsOf(cs[..i]), hist, cs[i..], true, false, 1 + |nodes| + i, now)
  }

  ghost predicate OnlyPeers(bs: seq<Node>, hist: set<PastDial>, now: int) {
    HistIds(hist) <= IdsOf(bs) && Live(hist, now) == hist
  }

  /** Once the history has expired all static nodes are dialed again. */
  lemma Resumes(nodes: seq<Node>, bs: seq<Node>, cs: seq<Node>) returns (hist: set<PastDial>, now: int)
    requires Parties(nodes, bs, cs) && Selects(nodes, |bs|, Finishing(nodes, IdsOf(bs), |nodes|, cs, true))
    ensures Selects(nodes, |bs|, Replacing(nodes, bs, cs, 0, hist, now)) && OnlyPeers(bs, hist, now)
  {
    hide Top, Selects, DistinctIds, IdsOf, FitsIn, OrderOf, Past, HistIds, Live, DueIn, After, MadeIn, Lacking;
    var g := Finishing(nodes, IdsOf(bs), |nodes|, cs, true);
    if |nodes| == 0 {
      hist, now := Past(IdsOf(bs), EXPIRY), 0;
      PastIds(IdsOf(bs), EXPIRY, 0);
      ResumesAtOnce(nodes, bs, cs);
    } else {
      hist, now := {}, EXPIRY + 1;
      ResumesLater(nodes, bs, cs);
      AtFits(now, nodes, [], |bs|);
      GoAddedAgain(nodes, |bs|, g, nodes[0]);
      GoSettled(nodes, |bs|, g, At(now, nodes, []));
    }
  }

  lemma ResumesAtOnce(nodes: seq<Node>, bs: seq<Node>, cs: seq<Node>)
    requires nodes == [] && |bs| == |cs| + 1
    ensures Finishing(nodes, IdsOf(bs), |nodes|, cs, true) == Replacing(nodes, bs, cs, 0, Past(IdsOf(bs), EXPIRY), 0)
  {
    hide Past, IdsOf;
    IdsNone();
    assert bs[0..] == bs && cs[..0] == [] && cs[0..] == cs && nodes[..0] == [] && nodes[0..] == [];
    assert IdsOf(bs) + {} == IdsOf(bs);
  }

  lemma ResumesDue(nodes: seq<Node>, bs: seq<Node>, cs: seq<Node>)
    requires Parties(nodes, bs, cs)
    ensures var g := Finishing(nodes, IdsOf(bs), |nodes|, cs, true);
            && DueIn(IdsOf(nodes), g, EXPIRY + 1) == IdsOf(nodes) && Live(g.hist, EXPIRY + 1) == {} && OnlyPeers(bs, {}, EXPIRY + 1)
  {
    hide IdsOf, Past, DistinctIds;
    IdsNone();
    assert nodes[|nodes|..] == [];
    PastIds(IdsOf(bs) + IdsOf(nodes[..|nodes|]), EXPIRY, EXPIRY + 1);
  }

  lemma ResumesLater(nodes: seq<Node>, bs: seq<Node>, cs: seq<Node>)
    requires Parties(nodes, bs, cs) && nodes != []
    ensures var g := Finishing(nodes, IdsOf(bs), |nodes|, cs, true);
            && Lacking(|bs|, g) <= 0 && g.tasks + MadeIn(IdsOf(nodes), |bs|, g, EXPIRY + 1, {}, cs) <= MAX_ACTIVE_TASKS
            && After(IdsOf(nodes), |bs|, g, EXPIRY + 1, {}, cs) == Replacing(nodes, bs, cs, 0, {}, EXPIRY + 1)
            && OnlyPeers(bs, {}, EXPIRY + 1)
  {
    hide IdsOf, Past, DistinctIds, DueIn, Live, OnlyPeers;
    IdsNone();
    assert bs[0..] == bs && cs[..0] == [] && cs[0..] == cs && nodes[|nodes|..] == [];
    IdsCount(nodes);
    IdsCount(bs);
    ResumesDue(nodes, bs, cs);
  }

  lemma ReplaceFacts(nodes: seq<Node>, bs: seq<Node>, cs: seq<Node>, i: nat, hist: set<PastDial>, now: int)
    requires Parties(nodes, bs, cs) && i < |cs| && OnlyPeers(bs, hist, now)
    ensures var A, g := IdsOf(nodes), Replacing(nodes, bs, cs, i, hist, now);
            var h := g.(peers := g.peers - {bs[i].id});
            && bs[i].id in g.peers && h.buf != [] && h.buf[0] == cs[i] && h.buf[1..] == cs[i + 1..]
            && FreshIn(A, h, now, {cs[i].id}) && Lacking(|bs|, h) == 1
            && h.tasks + MadeIn(A, |bs|, h, now, {cs[i].id}, cs[i + 1..]) <= MAX_ACTIVE_TASKS
            && After(A, |bs|, h, now, {cs[i].id}, cs[i + 1..]) == Replacing(nodes, bs, cs, i + 1, hist, now)
  {
    hide IdsOf, DistinctIds, HistIds, Live;
    IdsMove(bs, i);
    IdsMove(cs, i);
    IdsCounts(bs, i + 1);
    IdsCounts(cs, i);
    IdsSplit(bs, i + 1);
    assert DueIn(IdsOf(nodes), Replacing(nodes, bs, cs, i, hist, now).(peers := IdsOf(bs[i..]) - {bs[i].id}), now) == {};
    hide DueIn;
  }

  lemma {:induction false} ReplaceRun(nodes: seq<Node>, bs: seq<Node>, cs: seq<Node>, i: nat, hist: set<PastDial>, now: int)
    requires Parties(nodes, bs, cs) && i <= |cs| && OnlyPeers(bs, hist, now) && Selects(nodes, |bs|, Replacing(nodes, bs, cs, 0, hist, now))
    ensures Selects(nodes, |bs|, Replacing(nodes, bs, cs, i, hist, now))
  {
    hide Top, Selects, DistinctIds, IdsOf, FitsIn, OrderOf, After, MadeIn, Lacking, OnlyPeers, FreshIn;
    if i > 0 {
      ReplaceRun(nodes, bs, cs, i - 1, hist, now);
      var g, id := Replacing(nodes, bs, cs, i - 1, hist, now), bs[i - 1].id;
      ReplaceFacts(nodes, bs, cs, i - 1, hist, now);
      GoLeaves(nodes, |bs|, g, id);
      AtFits(now, nodes, [], |bs|);
      GoRefill(nodes, |bs|, g.(peers := g.peers - {id}), At(now, nodes, []));
    }
  }

  // ---------- The bound is sharp ----------

  lemma LastFacts(nodes: seq<Node>, bs: seq<Node>, cs: seq<Node>, hist: set<PastDial>, now: int)
    requires Parties(nodes, bs, cs) && OnlyPeers(bs, hist, now)
    ensures var g, id := Replacing(nodes, bs, cs, |cs|, hist, now), bs[|cs|].id;
            var h := g.(peers := g.peers - {id});
            && id in g.peers && h.buf == [] && IdsOf([]) == {} && FreshIn(IdsOf(nodes), h, now, {}) && Lacking(|bs|, h) == 1
            && h.tasks == MAX_ACTIVE_TASKS
  {
    hide IdsOf, DistinctIds, HistIds, Live;
    IdsNone();
    IdsMove(bs, |cs|);
    IdsCounts(bs, |cs| + 1);
    IdsCounts(cs, |cs|);
    assert bs[|cs| + 1..] == [];
  }

  /** The configuration in which all slots are taken and one dynamic peer is lacking. */
  ghost predicate Exhausted(nodes: seq<Node>, quota: nat, h: Config) {
    && Top(nodes, quota, h) && !h.lookup && h.buf == [] && IdsOf([]) == {} && FreshIn(IdsOf(nodes), h, h.now, {}) && Lacking(quota, h) == 1
    && h.tasks == MAX_ACTIVE_TASKS
  }

  /** With a dynamic quota: bootstrapping and two lookups fill it; all dynamic nodes connect, and all dials
      are done, so that a wait is started; the static nodes are dialed again; the dynamic peers leave one
      after the other and, but for the last, are replaced. */
  lemma Exhausts(nodes: seq<Node>, bs: seq<Node>, cs: seq<Node>, k: nat) returns (h: Config)
    requires Parties(nodes, bs, cs) && k <= |bs| / 2
    ensures Exhausted(nodes, |bs|, h)
  {
    hide Top, Selects, DistinctIds, IdsOf, OnlyPeers, FreshIn, Lacking, Past;
    Fills(nodes, bs, cs, k);
    ConnectRun(nodes, bs, cs, |bs|);
    AllConnected(nodes, bs, cs);
    IdsCount(bs);
    FinishRun(nodes, IdsOf(bs), |nodes|, cs, true);
    var hist, now := Resumes(nodes, bs, cs);
    ReplaceRun(nodes, bs, cs, |cs|, hist, now);
    LastFacts(nodes, bs, cs, hist, now);
    var g := Replacing(nodes, bs, cs, |cs|, hist, now);
    h := g.(peers := g.peers - {bs[|cs|].id});
    GoLeaves(nodes, |bs|, g, bs[|cs|].id);
  }

  /** Then the lookup for the last one is lost. */
  lemma QuotaLosesLookup(nodes: seq<Node>, bs: seq<Node>, cs: seq<Node>, k: nat) returns (xs: seq<Turn>, c: Choice)
    requires Parties(nodes, bs, cs) && k <= |bs| / 2
    ensures RunToSelect(nodes, |bs|, xs, c) && Exec(Init(nodes, |bs|, 0), xs).everStatic == IdsOf(nodes)
    ensures LookupStranded(SelectState(nodes, |bs|, 0, xs, c))
  {
    hide DistinctIds, IdsOf, FitsIn, OrderOf, FreshIn, Lacking, Shape, LookupStranded, IsRun, Exec, ClockOk,
         ChoiceOk, Round, Init;
    var h := Exhausts(nodes, bs, cs, k);
    xs :| RunTo(nodes, |bs|, xs) && Shape(Exec(Init(nodes, |bs|, 0), xs), IdsOf(nodes), |bs|, h);
    c := At(h.now, nodes, []);
    AtFits(h.now, nodes, [], |bs|);
    ShapeFields(Exec(Init(nodes, |bs|, 0), xs), IdsOf(nodes), |bs|, h);
    LookupRound(Exec(Init(nodes, |bs|, 0), xs), IdsOf(nodes), |bs|, h, c);
  }

  lemma AllConnected(nodes: seq<Node>, bs: seq<Node>, cs: seq<Node>)
    requires |nodes| + |bs| == MAX_ACTIVE_TASKS
    ensures Connecting(nodes, bs, cs, |bs|) == Finishing(nodes, IdsOf(bs), 0, cs, true)
  {
    hide IdsOf, Past;
    IdsNone();
    assert bs[..|bs|] == bs && bs[|bs|..] == [] && nodes[0..] == nodes && nodes[..0] == [];
    assert IdsOf(bs) + {} == IdsOf(bs);
  }

  /** Without a quota: all static nodes are dialed, the last one done a moment later than the others; a wait
      is started, all but the last are dialed again, and then the task of the last one is lost. */
  lemma StaticsLoseDial(nodes: seq<Node>) returns (xs: seq<Turn>, c: Choice)
    requires DistinctIds(nodes) && |nodes| == MAX_ACTIVE_TASKS
    ensures RunToSelect(nodes, 0, xs, c) && Exec(Init(nodes, 0, 0), xs).everStatic == IdsOf(nodes)
    ensures Stranded(SelectState(nodes, 0, 0, xs, c), nodes[15].id)
  {
    hide Selects, DistinctIds, IdsOf, FitsIn, OrderOf, MadeIn, After, Lacking, Shape, Stranded, IsRun, Exec,
         ClockOk, Past, ChoiceOk, Round, Init, IsQuiet, Rested, Done;
    var g0 := Config({}, {}, {}, {}, [], false, false, 0, 0);
    Begins(nodes, 0);
    AtFits(0, nodes, [], 0);
    DialsAll(nodes);
    GoSettled(nodes, 0, g0, At(0, nodes, []));
    FinishRun(nodes, {}, 14, [], false);
    FinishStep(nodes, {}, 14, [], false, 1);
    LastDone(nodes);
    WaitingRounds(nodes);
    GoDone(nodes, 0, Finishing(nodes, {}, 15, [], false).(now := 1), nodes[15].id);
    QuietRound(nodes, 0, Waiting(nodes, 0), 1);
    GoAddedAgain(nodes, 0, Waiting(nodes, 1), nodes[0]);
    AtFits(EXPIRY + 1, nodes, [], 0);
    GoSettled(nodes, 0, Waiting(nodes, 1), At(EXPIRY + 1, nodes, []));
    var full := Full(nodes);
    GoAddedAgain(nodes, 0, full, nodes[0]);
    xs :| RunTo(nodes, 0, xs) && Shape(Exec(Init(nodes, 0, 0), xs), IdsOf(nodes), 0, full);
    c := At(EXPIRY + 2, nodes, []);
    LosesLast(Exec(Init(nodes, 0, 0), xs), nodes);
  }

  /** All slots are taken, and the last static node is not yet dialed again. */
  ghost function Full(nodes: seq<Node>): Config
    requires |nodes| == 16
  {
    Config({}, IdsOf(nodes[..15]), {}, {PastDial(nodes[15].id, EXPIRY + 1)}, [], false, false, 16, EXPIRY + 1)
  }

  lemma DialsAll(nodes: seq<Node>)
    requires DistinctIds(nodes) && |nodes| == MAX_ACTIVE_TASKS
    ensures var g := Config({}, {}, {}, {}, [], false, false, 0, 0);
            && Lacking(0, g) == 0 && MadeIn(IdsOf(nodes), 0, g, 0, {}, []) == 16
            && After(IdsOf(nodes), 0, g, 0, {}, []) == Finishing(nodes, {}, 0, [], false)
  {
    hide IdsOf, DistinctIds, Past;
    IdsNone();
    PastNone();
    IdsCount(nodes);
    assert nodes[0..] == nodes && nodes[..0] == [];
    assert DueIn(IdsOf(nodes), Config({}, {}, {}, {}, [], false, false, 0, 0), 0) == IdsOf(nodes);
    hide DueIn;
    assert Live({}, 0) == {};
  }

  lemma LastHist(ids: set<NodeId>, id: NodeId, hist: set<PastDial>)
    requires hist == Past({} + ids, EXPIRY) + {PastDial(id, 1 + EXPIRY)}
    ensures HistIds(Live(hist, 1)) == ids + {id} && Live(hist, 1) == hist && hist != {}
    ensures Live(hist, EXPIRY + 1) == {PastDial(id, EXPIRY + 1)} && HistIds(Live(hist, EXPIRY + 1)) == {id}
  {
    var past, last := Past({} + ids, EXPIRY), {PastDial(id, 1 + EXPIRY)};
    PastIds({} + ids, EXPIRY, 1);
    PastIds({} + ids, EXPIRY, EXPIRY + 1);
    assert HistIds(last) == {id} by {
      assert PastDial(id, 1 + EXPIRY) in last;
    }
    assert HistIds(past + last) == HistIds(past) + HistIds(last);
    assert Live(hist, 1) == Live(past, 1) + last && Live(hist, EXPIRY + 1) == Live(past, EXPIRY + 1) + last;
    assert {} + ids == ids;
  }

  /** The last static dial is done: a wait is to be made. */
  ghost function Waiting(nodes: seq<Node>, tasks: nat): Config
    requires |nodes| == 16
  {
    Config({}, {}, {}, Past({} + IdsOf(nodes[..15]), EXPIRY) + {PastDial(nodes[15].id, 1 + EXPIRY)}, [], false, false, tasks, 1)
  }

  lemma LastDone(nodes: seq<Node>)
    requires DistinctIds(nodes) && |nodes| == MAX_ACTIVE_TASKS
    ensures var g := Finishing(nodes, {}, 15, [], false).(now := 1);
            && nodes[15].id in g.statics && Done(g, nodes[15].id) == Waiting(nodes, 0) && Rested(Waiting(nodes, 0), 1) == Waiting(nodes, 1)
  {
    hide IdsOf, DistinctIds, Past;
    IdsMove(nodes, 15);
    IdsNone();
    assert nodes[15 + 1..] == [];
    assert {} - {nodes[15].id} == {};
  }

  lemma WaitingRounds(nodes: seq<Node>)
    requires DistinctIds(nodes) && |nodes| == MAX_ACTIVE_TASKS
    ensures IsQuiet(IdsOf(nodes), 0, Waiting(nodes, 0), 1) && Lacking(0, Waiting(nodes, 1)) <= 0
    ensures MadeIn(IdsOf(nodes), 0, Waiting(nodes, 1), EXPIRY + 1, {}, []) == 15
    ensures After(IdsOf(nodes), 0, Waiting(nodes, 1), EXPIRY + 1, {}, []) == Full(nodes)
  {
    hide IdsOf, DistinctIds, Past, Live, HistIds;
    var id, ids := nodes[15].id, IdsOf(nodes[..15]);
    IdsMove(nodes, 15);
    IdsCounts(nodes, 15);
    assert nodes[..15 + 1] == nodes;
    LastHist(ids, id, Waiting(nodes, 0).hist);
    LastDue(IdsOf(nodes), ids, id);
  }

  lemma LastDue(all: set<NodeId>, ids: set<NodeId>, id: NodeId)
    requires all == ids + {id} && id !in ids
    ensures all - ({} + {}) - ({} + {id}) == ids && all - ({} + {}) - ({} + (ids + {id})) == {}
  {
  }

  lemma LosesLast(s: Server, nodes: seq<Node>)
    requires DistinctIds(nodes) && |nodes| == 16 && Shape(s, IdsOf(nodes), 0, Full(nodes))
    ensures var c := At(EXPIRY + 2, nodes, []);
            && s.now <= c.now && ChoiceOk(s.dialer, c) && |s.tasks| <= MAX_ACTIVE_TASKS && Stranded(Round(s, c), nodes[15].id)
            && s.everStatic == IdsOf(nodes)
  {
    hide TasksOk, DynIds, Round, OrderOf, Stranded, DistinctIds, IdsOf;
    var id := nodes[15].id;
    AtFits(EXPIRY + 2, nodes, [], 0);
    IdsMove(nodes, 15);
    assert Live(s.dialer.hist, EXPIRY + 2) == {};
    FullRoundStrands(s, At(EXPIRY + 2, nodes, []), id);
  }

  lemma MakesParties(nodes: seq<Node>, others: seq<Node>, d: nat)
    requires DistinctIds(nodes + others) && 0 < d == MAX_ACTIVE_TASKS - |nodes| && 2 * d <= |others|
    ensures Parties(nodes, others[..d], others[d..2 * d - 1])
  {
    var all, bs, cs := nodes + others, others[..d], others[d..2 * d - 1];
    assert forall i :: 0 <= i < |nodes| ==> nodes[i] == all[i];
    assert forall i :: 0 <= i < |bs| ==> bs[i] == all[|nodes| + i];
    assert forall i :: 0 <= i < |cs| ==> cs[i] == all[|nodes| + d + i];
  }

  lemma DistinctFront(ns: seq<Node>, ms: seq<Node>)
    requires DistinctIds(ns + ms)
    ensures DistinctIds(ns)
  {
    assert forall i :: 0 <= i < |ns| ==> ns[i] == (ns + ms)[i];
  }

  lemma StrandedIsLoss(s: Server, id: NodeId)
    requires Stranded(s, id) || LookupStranded(s)
    ensures !NothingLost(s)
  {
  }

  /** One task more than the bound allows is enough: for any static nodes and the dynamic quota that makes
      them 16 together, some run loses a task. Its clock does not go back, it receives only
      what peers and lookups can send, and any number of the nodes found may be listed by the table, up
      to half of the quota. */
  lemma BoundIsSharp(nodes: seq<Node>, quota: nat, others: seq<Node>, listed: nat) returns (xs: seq<Turn>, c: Choice)
    requires |nodes| + quota == MAX_ACTIVE_TASKS && DistinctIds(nodes + others) && |others| >= 2 * quota && listed <= quota / 2
    ensures RunsTo(nodes, quota, 0, xs, c) && ClockOk(Init(nodes, quota, 0), xs) && Receives(Init(nodes, quota, 0), xs)
    ensures Exec(Init(nodes, quota, 0), xs).now <= c.now && |Exec(Init(nodes, quota, 0), xs).everStatic| == |nodes|
    ensures !NothingLost(SelectState(nodes, quota, 0, xs, c))
    ensures quota == 0 ==> Stranded(SelectState(nodes, quota, 0, xs, c), nodes[|nodes| - 1].id)
    ensures quota > 0 ==> LookupStranded(SelectState(nodes, quota, 0, xs, c))
  {
    hide IsRun, Exec, ClockOk, Receives, ChoiceOk, Round, Init, IdsOf, DistinctIds, Stranded, LookupStranded,
         NothingLost, Parties, RunsTo;
    DistinctFront(nodes, others);
    IdsCount(nodes);
    if quota == 0 {
      xs, c := StaticsLoseDial(nodes);
      StrandedIsLoss(SelectState(nodes, quota, 0, xs, c), nodes[15].id);
    } else {
      MakesParties(nodes, others, quota);
      xs, c := QuotaLosesLookup(nodes, others[..quota], others[quota..2 * quota - 1], listed);
      StrandedIsLoss(SelectState(nodes, quota, 0, xs, c), others[0].id);
    }
  }
}
