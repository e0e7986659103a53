/** Runs of the server loop followed by their configurations: which nodes are connected, being dialed, in the
    history or in the lookup buffer. Each round and each event of the state machine becomes a step between
    configurations that some run reaches. */
module ServerConfigs {
  import opened NodeTypes
  import opened DialHistory
  import opened DialState
  import opened ServerLoop
  import opened ServerRuns
  import opened ExactRounds

  // ---------- States without lost or waiting tasks ----------

  /** The part of a state that the run below depends on: who is connected, all as dynamic peers; who is
      being dialed as a static or as a dynamic node; the history; the lookup buffer; whether the table
      has been bootstrapped and a lookup is running; how many tasks are running; the clock. */
  datatype Config = Config(peers: set<NodeId>, statics: set<NodeId>, dyn: set<NodeId>, hist: set<PastDial>,
                           buf: seq<Node>, boot: bool, lookup: bool, tasks: nat, now: int)

  ghost predicate Shape(s: Server, known: set<NodeId>, quota: nat, g: Config) {
    && Inv(s) && s.pending == [] && s.dialer.maxDyn == quota && s.dialer.statics.Keys == known && s.everStatic == known
    && s.peers.Keys == g.peers && DynKeys(s.peers) == g.peers
    && s.dialer.dialing.Keys == g.statics + g.dyn && DynKeys(s.dialer.dialing) == g.dyn && DialIds(s.tasks) == g.statics + g.dyn
    && s.dialer.lookupRunning == g.lookup && (g.lookup ==> Discover(!g.boot) in s.tasks)
    && s.dialer.hist == g.hist && s.dialer.lookupBuf == g.buf && s.dialer.bootstrapped == g.boot
    && |s.tasks| == g.tasks && s.now == g.now
  }

  ghost function DueIn(known: set<NodeId>, g: Config, now: int): set<NodeId> {
    known - (g.statics + g.dyn) - (g.peers + HistIds(Live(g.hist, now)))
  }

  ghost function Lacking(quota: nat, g: Config): int {
    quota - |g.peers| - |g.dyn|
  }

  ghost predicate FreshIn(known: set<NodeId>, g: Config, now: int, ids: set<NodeId>) {
    ids !! known && ids !! (g.statics + g.dyn) && ids !! (g.peers + HistIds(Live(g.hist, now)))
  }

  lemma ShapeDialer(s: Server, known: set<NodeId>, quota: nat, g: Config, now: int)
    requires Shape(s, known, quota, g)
    ensures Due(s.dialer, s.peers, now) == DueIn(known, g, now) && Need(s.dialer, s.peers) == Lacking(quota, g)
    ensures DialerOk(s.dialer) && |s.tasks| <= MAX_ACTIVE_TASKS && s.dialer.lookupRunning == g.lookup && s.dialer.lookupBuf == g.buf
    ensures forall ids :: FreshIn(known, g, now, ids) ==> Fresh(s.dialer, s.peers, now, ids)
  {
    hide TasksOk, DynIds, DialIds, DynKeys, HistIds, Live;
  }

  // ---------- Rounds ----------

  /** What a round makes of a configuration. */
  ghost function Rounded(g: Config, hist: set<PastDial>, statics: set<NodeId>, dyn: set<NodeId>, buf: seq<Node>, lookup: bool, made: nat,
                         now: int): Config {
    Config(g.peers, g.statics + statics, g.dyn + dyn, hist, buf, g.boot, lookup, g.tasks + made, now)
  }

  /** A round whose tasks fit the slots. */
  lemma RoundRuns(s: Server, c: Choice)
    requires Inv(s) && ChoiceOk(s.dialer, c) && s.pending == [] && |s.tasks| + |RoundPlan(s, c).tasks| <= MAX_ACTIVE_TASKS
    ensures var r := Round(s, c);
            && AtSelect(r) && r.tasks == s.tasks + RoundPlan(s, c).tasks && r.pending == [] && r.dialer == RoundPlan(s, c).dialer
            && r.peers == s.peers && r.everStatic == s.everStatic && r.now == c.now
  {
    hide TasksOk, DynIds, DialerOk, RoundPlan, Round, ChoiceOk;
    RoundFrame(s, c);
    RoundInv(s, c);
    RoundOutstanding(s, c);
    var r, ts := Round(s, c), RoundPlan(s, c).tasks;
    assert s.tasks + [] == s.tasks && (|s.tasks| == MAX_ACTIVE_TASKS ==> ts == []);
    assert Outstanding(r) == s.tasks + ts;
    assert r.pending == [];
    assert r.tasks + [] == r.tasks;
  }

  lemma RoundShape(s: Server, known: set<NodeId>, quota: nat, g: Config, c: Choice, hist: set<PastDial>, statics: set<NodeId>,
                   dyn: set<NodeId>, buf: seq<Node>, lookup: bool)
    requires Shape(s, known, quota, g) && ChoiceOk(s.dialer, c) && !g.lookup
    requires Makes(s.dialer, RoundPlan(s, c), hist, statics, dyn, buf, lookup)
    requires g.tasks + |RoundPlan(s, c).tasks| <= MAX_ACTIVE_TASKS
    ensures AtSelect(Round(s, c))
    ensures Shape(Round(s, c), known, quota, Rounded(g, hist, statics, dyn, buf, lookup, |RoundPlan(s, c).tasks|, c.now))
  {
    hide TasksOk, DynIds, DialerOk, RoundPlan, Round, ChoiceOk, DialIds, DynKeys;
    RoundRuns(s, c);
    DialIdsConcat(s.tasks, RoundPlan(s, c).tasks);
    assert (g.statics + g.dyn) + statics + dyn == (g.statics + statics) + (g.dyn + dyn);
    assert (g.statics + g.dyn) + (statics + dyn) == (g.statics + statics) + (g.dyn + dyn);
  }

  ghost predicate FitsIn(c: Choice, known: set<NodeId>, quota: nat) {
    IsOrder(c.order, known) && ReadContract(c.random, c.nRandom, quota / 2)
  }

  /** How many tasks a round makes. */
  ghost function MadeIn(known: set<NodeId>, quota: nat, g: Config, now: int, tried: set<NodeId>, left: seq<Node>): nat {
    var dials := |DueIn(known, g, now)| + |tried|;
    dials + One(|left| < Lacking(quota, g) - |tried| || (g.tasks == 0 && dials == 0 && Live(g.hist, now) != {}))
  }

  /** The configuration after a round that tries the given fresh dynamic nodes. */
  ghost function After(known: set<NodeId>, quota: nat, g: Config, now: int, tried: set<NodeId>, left: seq<Node>): Config {
    Rounded(g, Live(g.hist, now), DueIn(known, g, now), tried, left, |left| < Lacking(quota, g) - |tried|,
            MadeIn(known, quota, g, now, tried, left), now)
  }

  lemma TriedRound(s: Server, known: set<NodeId>, quota: nat, g: Config, c: Choice, tried: set<NodeId>, left: seq<Node>)
    requires Shape(s, known, quota, g) && FitsIn(c, known, quota) && ChoiceOk(s.dialer, c) && !g.lookup
    requires IdsOf(Tried(s.dialer, s.peers, c)) == tried && FreshIn(known, g, c.now, tried)
    requires left == g.buf[BufferPhase(s.dialer, s.peers, c).1..]
    ensures |s.tasks| <= MAX_ACTIVE_TASKS
    ensures |RoundPlan(s, c).tasks| == MadeIn(known, quota, g, c.now, tried, left)
    ensures Makes(s.dialer, RoundPlan(s, c), Live(g.hist, c.now), DueIn(known, g, c.now), tried, left, |left| < Lacking(quota, g) - |tried|)
    ensures g.tasks + MadeIn(known, quota, g, c.now, tried, left) <= MAX_ACTIVE_TASKS ==>
              AtSelect(Round(s, c)) && Shape(Round(s, c), known, quota, After(known, quota, g, c.now, tried, left))
  {
    hide Shape, Makes, DueIn, Lacking, IdsOf, Live, Round, BufferPhase, Tried, Fresh, FreshIn, PlanTasks,
         IsOrder, Due, Need, DialerOk, Inv;
    ShapeDialer(s, known, quota, g, c.now);
    ShapeFields(s, known, quota, g);
    RoundMakes(s.dialer, |s.pending| + |s.tasks|, s.peers, c, tried, left);
    if g.tasks + |RoundPlan(s, c).tasks| <= MAX_ACTIVE_TASKS {
      RoundShape(s, known, quota, g, c, Live(g.hist, c.now), DueIn(known, g, c.now), tried, left, |left| < Lacking(quota, g) - |tried|);
    }
  }

  lemma ShapeFields(s: Server, known: set<NodeId>, quota: nat, g: Config)
    requires Shape(s, known, quota, g)
    ensures s.pending == [] && |s.tasks| == g.tasks && s.dialer.hist == g.hist && s.dialer.statics.Keys == known
    ensures s.dialer.maxDyn == quota && s.dialer.lookupBuf == g.buf && s.now == g.now && Inv(s) && s.everStatic == known
  {
    hide Inv, DialIds, DynKeys;
  }

  /** A round while the dynamic quota is met. */
  lemma SettledRound(s: Server, known: set<NodeId>, quota: nat, g: Config, c: Choice)
    requires Shape(s, known, quota, g) && FitsIn(c, known, quota) && !g.lookup && Lacking(quota, g) <= 0
    requires g.tasks + MadeIn(known, quota, g, c.now, {}, g.buf) <= MAX_ACTIVE_TASKS
    ensures ChoiceOk(s.dialer, c) && |s.tasks| <= MAX_ACTIVE_TASKS
    ensures AtSelect(Round(s, c)) && Shape(Round(s, c), known, quota, After(known, quota, g, c.now, {}, g.buf))
  {
    hide Shape, DueIn, Lacking, IdsOf, Live, Round, BufferPhase, Tried, Fresh, PlanTasks, IsOrder, Due, Need,
         DialerOk, Inv, AtSelect, After, MadeIn;
    ShapeDialer(s, known, quota, g, c.now);
    ShapeFields(s, known, quota, g);
    NoneTried(s.dialer, s.peers, c);
    IdsNone();
    TriedRound(s, known, quota, g, c, {}, g.buf);
  }

  /** A round while one dynamic node is lacking and a fresh one is in front of the buffer. */
  lemma RefillRound(s: Server, known: set<NodeId>, quota: nat, g: Config, c: Choice)
    requires Shape(s, known, quota, g) && FitsIn(c, known, quota) && !g.lookup && Lacking(quota, g) == 1
    requires g.buf != [] && FreshIn(known, g, c.now, {g.buf[0].id})
    requires g.tasks + MadeIn(known, quota, g, c.now, {g.buf[0].id}, g.buf[1..]) <= MAX_ACTIVE_TASKS
    ensures ChoiceOk(s.dialer, c) && |s.tasks| <= MAX_ACTIVE_TASKS
    ensures AtSelect(Round(s, c)) && Shape(Round(s, c), known, quota, After(known, quota, g, c.now, {g.buf[0].id}, g.buf[1..]))
  {
    hide Shape, DueIn, Lacking, IdsOf, Live, Round, BufferPhase, Tried, Fresh, FreshIn, PlanTasks, IsOrder,
         Due, Need, DialerOk, Inv, AtSelect, After, MadeIn;
    ShapeDialer(s, known, quota, g, c.now);
    ShapeFields(s, known, quota, g);
    FirstTried(s.dialer, s.peers, c);
    IdsOne(g.buf[0]);
    TriedRound(s, known, quota, g, c, {g.buf[0].id}, g.buf[1..]);
  }

  lemma IdsOne(n: Node)
    ensures IdsOf([n]) == {n.id}
  {
    assert [n][0] == n;
  }

  /** A round while the buffer cannot supply the dynamic nodes lacking: it starts a lookup. */
  lemma LookupRound(s: Server, known: set<NodeId>, quota: nat, g: Config, c: Choice)
    requires Shape(s, known, quota, g) && FitsIn(c, known, quota) && !g.lookup && |g.buf| < Lacking(quota, g)
    requires IdsOf(c.random) <= IdsOf(g.buf) && FreshIn(known, g, c.now, IdsOf(g.buf))
    ensures ChoiceOk(s.dialer, c) && |s.tasks| <= MAX_ACTIVE_TASKS
    ensures g.tasks + MadeIn(known, quota, g, c.now, IdsOf(g.buf), []) <= MAX_ACTIVE_TASKS ==>
              AtSelect(Round(s, c)) && Shape(Round(s, c), known, quota, After(known, quota, g, c.now, IdsOf(g.buf), []))
    ensures g.tasks == MAX_ACTIVE_TASKS ==> LookupStranded(Round(s, c))
  {
    hide Shape, DueIn, Lacking, IdsOf, Live, Round, BufferPhase, Tried, Fresh, FreshIn, PlanTasks, IsOrder,
         Due, Need, DialerOk, Inv, AtSelect, After, MadeIn, LookupStranded;
    ShapeDialer(s, known, quota, g, c.now);
    ShapeFields(s, known, quota, g);
    AllTried(s.dialer, s.peers, c);
    IdsBound(g.buf);
    assert g.buf[|g.buf|..] == [];
    TriedRound(s, known, quota, g, c, IdsOf(g.buf), []);
    LossExactlyWhenFull(s, c);
  }

  // ---------- Events ----------

  lemma TaskOf(ts: seq<Task>, id: NodeId) returns (t: Task)
    requires id in DialIds(ts)
    ensures t in ts && t.Dial? && t.dest.id == id
  {
    t :| t in ts && t.Dial? && t.dest.id == id;
  }

  lemma TaskFlag(d: Dialer, ts: seq<Task>, t: Task)
    requires TasksOk(d, ts) && t in ts && t.Dial?
    ensures t.dest.id in d.dialing && d.dialing[t.dest.id] == t.flag
  {
    var i :| 0 <= i < |ts| && ts[i] == t;
  }

  /** A dynamic node being dialed connects. */
  lemma Connects(r: Server, known: set<NodeId>, quota: nat, g: Config, id: NodeId) returns (e: Event)
    requires Shape(r, known, quota, g) && AtSelect(r) && id in g.dyn
    ensures EventOk(r, e) && Receivable(r, e) && Shape(Apply(r, e), known, quota, g.(peers := g.peers + {id}))
  {
    hide TasksOk, DynIds, DialerOk, DialIds, IsDynamic;
    var t := TaskOf(r.tasks, id);
    assert Outstanding(r) == r.tasks + [] == r.tasks;
    TaskFlag(r.dialer, r.tasks, t);
    e := Connected(t);
    ApplyInv(r, e);
    assert DynKeys(Apply(r, e).peers) == g.peers + {id};
    hide Inv, DynKeys;
  }

  /** The dial task of a node is done. */
  lemma DialDone(r: Server, known: set<NodeId>, quota: nat, g: Config, id: NodeId) returns (e: Event)
    requires Shape(r, known, quota, g) && AtSelect(r) && id in g.statics + g.dyn && !g.lookup && g.tasks > 0
    ensures EventOk(r, e) && Receivable(r, e)
    ensures Shape(Apply(r, e), known, quota,
                  g.(statics := g.statics - {id}, dyn := g.dyn - {id}, hist := g.hist + {PastDial(id, g.now + DIAL_HISTORY_EXPIRATION)},
                     tasks := g.tasks - 1))
  {
    hide TasksOk, DynIds, DialerOk, DialIds, IsDynamic;
    var t := TaskOf(r.tasks, id);
    e := Finished(t, []);
    ApplyInv(r, e);
    assert Outstanding(r) == r.tasks + [] == r.tasks;
    var k := WithoutIsRemoval(r.tasks, t);
    RemovalAccounts(r.dialer, r.tasks, k);
    assert DynKeys(Apply(r, e).dialer.dialing) == g.dyn - {id};
    hide Inv, DynKeys;
    assert (g.statics + g.dyn) - {id} == (g.statics - {id}) + (g.dyn - {id});
  }

  /** A lookup is done; bootstrapping yields no nodes. */
  lemma LookupDone(r: Server, known: set<NodeId>, quota: nat, g: Config, result: seq<Node>)
    requires Shape(r, known, quota, g) && AtSelect(r) && g.lookup && (!g.boot ==> result == []) && g.tasks > 0
    ensures var e := Finished(Discover(!g.boot), result);
            && EventOk(r, e)
            && Shape(Apply(r, e), known, quota, g.(buf := g.buf + result, boot := true, lookup := false, tasks := g.tasks - 1))
  {
    hide TasksOk, DynIds, DialerOk, DialIds, DynKeys;
    var e := Finished(Discover(!g.boot), result);
    ApplyInv(r, e);
    assert Outstanding(r) == r.tasks + [] == r.tasks;
    var k := WithoutIsRemoval(r.tasks, e.task);
    RemovalAccounts(r.dialer, r.tasks, k);
    hide Inv;
  }

  lemma Leaves(r: Server, known: set<NodeId>, quota: nat, g: Config, id: NodeId)
    requires Shape(r, known, quota, g) && AtSelect(r) && id in g.peers
    ensures Receivable(r, PeerGone(id)) && Shape(Apply(r, PeerGone(id)), known, quota, g.(peers := g.peers - {id}))
  {
    hide TasksOk, DynIds, DialerOk, DialIds, IsDynamic;
    ApplyInv(r, PeerGone(id));
    assert DynKeys(r.peers - {id}) == g.peers - {id};
    hide Inv, DynKeys;
  }

  /** Adding a static node again changes nothing that matters here. */
  lemma AddedAgain(r: Server, known: set<NodeId>, quota: nat, g: Config, n: Node)
    requires Shape(r, known, quota, g) && AtSelect(r) && n.id in known
    ensures Shape(Apply(r, AddStatic(n)), known, quota, g)
  {
    hide TasksOk, DynIds, DialerOk, DialIds, DynKeys;
    ApplyInv(r, AddStatic(n));
    hide Inv;
    assert known + {n.id} == known;
  }

  // ---------- Configurations that runs reach ----------

  /** Some run, with a clock that does not go back, leads to the top of the loop in configuration `g`. */
  ghost predicate Top(nodes: seq<Node>, quota: nat, g: Config) {
    exists xs :: RunTo(nodes, quota, xs) && Shape(Exec(Init(nodes, quota, 0), xs), IdsOf(nodes), quota, g)
  }

  ghost predicate RunTo(nodes: seq<Node>, quota: nat, xs: seq<Turn>) {
    IsRun(Init(nodes, quota, 0), xs) && ClockOk(Init(nodes, quota, 0), xs) && Receives(Init(nodes, quota, 0), xs)
  }

  /** What peers and lookups can send: only a connected peer leaves, and a lookup finds at most a bucketful. */
  predicate Receivable(r: Server, e: Event) {
    (e.PeerGone? ==> e.id in r.peers) && (e.Finished? ==> |e.result| <= BUCKET_SIZE)
  }

  ghost predicate Receives(s: Server, xs: seq<Turn>)
    requires IsRun(s, xs)
  {
    xs == [] || (Receives(s, xs[..|xs| - 1]) && Receivable(Round(Exec(s, xs[..|xs| - 1]), xs[|xs| - 1].choice), xs[|xs| - 1].event))
  }

  ghost predicate RunToSelect(nodes: seq<Node>, quota: nat, xs: seq<Turn>, c: Choice) {
    && RunTo(nodes, quota, xs) && RunsTo(nodes, quota, 0, xs, c) && Exec(Init(nodes, quota, 0), xs).now <= c.now
  }

  /** The same at the select statement. */
  ghost predicate Selects(nodes: seq<Node>, quota: nat, g: Config) {
    exists xs, c :: RunToSelect(nodes, quota, xs, c) && ShapeAtSelect(SelectState(nodes, quota, 0, xs, c), IdsOf(nodes), quota, g)
  }

  ghost predicate ShapeAtSelect(r: Server, known: set<NodeId>, quota: nat, g: Config) {
    AtSelect(r) && Shape(r, known, quota, g)
  }

  lemma RoundReached(nodes: seq<Node>, quota: nat, xs: seq<Turn>, c: Choice, g: Config)
    requires RunTo(nodes, quota, xs)
    requires var s := Exec(Init(nodes, quota, 0), xs);
             && s.now <= c.now && ChoiceOk(s.dialer, c) && |s.tasks| <= MAX_ACTIVE_TASKS
             && AtSelect(Round(s, c)) && Shape(Round(s, c), IdsOf(nodes), quota, g)
    ensures Selects(nodes, quota, g)
  {
    hide IsRun, Exec, ClockOk, ChoiceOk, AtSelect, Shape, Round, IdsOf;
    assert RunToSelect(nodes, quota, xs, c);
  }

  lemma EventReached(nodes: seq<Node>, quota: nat, xs: seq<Turn>, c: Choice, e: Event, g: Config)
    requires RunToSelect(nodes, quota, xs, c)
    requires var r := SelectState(nodes, quota, 0, xs, c); EventOk(r, e) && Receivable(r, e) && Shape(Apply(r, e), IdsOf(nodes), quota, g)
    ensures Top(nodes, quota, g)
  {
    hide ChoiceOk, Shape, Round, IdsOf, Init, EventOk, Apply, Receivable;
    var x := Turn(c, e);
    assert (xs + [x])[..|xs|] == xs;
    assert RunTo(nodes, quota, xs + [x]);
  }

  // ---------- Rounds and events of configurations ----------

  lemma GoSettled(nodes: seq<Node>, quota: nat, g: Config, c: Choice)
    requires Top(nodes, quota, g) && FitsIn(c, IdsOf(nodes), quota) && !g.lookup && Lacking(quota, g) <= 0 && g.now <= c.now
    requires g.tasks + MadeIn(IdsOf(nodes), quota, g, c.now, {}, g.buf) <= MAX_ACTIVE_TASKS
    ensures Selects(nodes, quota, After(IdsOf(nodes), quota, g, c.now, {}, g.buf))
  {
    hide Selects, IsRun, ClockOk, Shape, FitsIn, IdsOf, Lacking, MadeIn, After, AtSelect, Round, ChoiceOk, Exec, Init;
    var xs :| RunTo(nodes, quota, xs) && Shape(Exec(Init(nodes, quota, 0), xs), IdsOf(nodes), quota, g);
    var s := Exec(Init(nodes, quota, 0), xs);
    ShapeFields(s, IdsOf(nodes), quota, g);
    SettledRound(s, IdsOf(nodes), quota, g, c);
    RoundReached(nodes, quota, xs, c, After(IdsOf(nodes), quota, g, c.now, {}, g.buf));
  }

  lemma GoRefill(nodes: seq<Node>, quota: nat, g: Config, c: Choice)
    requires Top(nodes, quota, g) && FitsIn(c, IdsOf(nodes), quota) && !g.lookup && Lacking(quota, g) == 1 && g.now <= c.now
    requires g.buf != [] && FreshIn(IdsOf(nodes), g, c.now, {g.buf[0].id})
    requires g.tasks + MadeIn(IdsOf(nodes), quota, g, c.now, {g.buf[0].id}, g.buf[1..]) <= MAX_ACTIVE_TASKS
    ensures Selects(nodes, quota, After(IdsOf(nodes), quota, g, c.now, {g.buf[0].id}, g.buf[1..]))
  {
    hide Selects, IsRun, ClockOk, Shape, FitsIn, IdsOf, Lacking, MadeIn, After, AtSelect, Round, ChoiceOk, Exec, Init, FreshIn;
    var xs :| RunTo(nodes, quota, xs) && Shape(Exec(Init(nodes, quota, 0), xs), IdsOf(nodes), quota, g);
    var s := Exec(Init(nodes, quota, 0), xs);
    ShapeFields(s, IdsOf(nodes), quota, g);
    RefillRound(s, IdsOf(nodes), quota, g, c);
    RoundReached(nodes, quota, xs, c, After(IdsOf(nodes), quota, g, c.now, {g.buf[0].id}, g.buf[1..]));
  }

  lemma GoLookup(nodes: seq<Node>, quota: nat, g: Config, c: Choice)
    requires Top(nodes, quota, g) && FitsIn(c, IdsOf(nodes), quota) && !g.lookup && |g.buf| < Lacking(quota, g) && g.now <= c.now
    requires IdsOf(c.random) <= IdsOf(g.buf) && FreshIn(IdsOf(nodes), g, c.now, IdsOf(g.buf))
    requires g.tasks + MadeIn(IdsOf(nodes), quota, g, c.now, IdsOf(g.buf), []) <= MAX_ACTIVE_TASKS
    ensures Selects(nodes, quota, After(IdsOf(nodes), quota, g, c.now, IdsOf(g.buf), []))
  {
    hide Selects, IsRun, ClockOk, Shape, FitsIn, IdsOf, Lacking, MadeIn, After, AtSelect, Round, ChoiceOk, Exec, Init, FreshIn;
    var xs :| RunTo(nodes, quota, xs) && Shape(Exec(Init(nodes, quota, 0), xs), IdsOf(nodes), quota, g);
    var s := Exec(Init(nodes, quota, 0), xs);
    ShapeFields(s, IdsOf(nodes), quota, g);
    LookupRound(s, IdsOf(nodes), quota, g, c);
    RoundReached(nodes, quota, xs, c, After(IdsOf(nodes), quota, g, c.now, IdsOf(g.buf), []));
  }

  lemma GoConnects(nodes: seq<Node>, quota: nat, g: Config, id: NodeId)
    requires Selects(nodes, quota, g) && id in g.dyn
    ensures Top(nodes, quota, g.(peers := g.peers + {id}))
  {
    hide Top, RunTo, RunsTo, Exec, Shape, IdsOf, AtSelect, SelectState, EventOk, Apply;
    var xs, c :| RunToSelect(nodes, quota, xs, c) && ShapeAtSelect(SelectState(nodes, quota, 0, xs, c), IdsOf(nodes), quota, g);
    var e := Connects(SelectState(nodes, quota, 0, xs, c), IdsOf(nodes), quota, g, id);
    EventReached(nodes, quota, xs, c, e, g.(peers := g.peers + {id}));
  }

  ghost function Done(g: Config, id: NodeId): Config
    requires g.tasks > 0
  {
    g.(statics := g.statics - {id}, dyn := g.dyn - {id}, hist := g.hist + {PastDial(id, g.now + DIAL_HISTORY_EXPIRATION)},
       tasks := g.tasks - 1)
  }

  lemma GoDone(nodes: seq<Node>, quota: nat, g: Config, id: NodeId)
    requires Selects(nodes, quota, g) && id in g.statics + g.dyn && !g.lookup && g.tasks > 0
    ensures Top(nodes, quota, Done(g, id))
  {
    hide Top, RunTo, RunsTo, Exec, Shape, IdsOf, AtSelect, SelectState, EventOk, Apply;
    var xs, c :| RunToSelect(nodes, quota, xs, c) && ShapeAtSelect(SelectState(nodes, quota, 0, xs, c), IdsOf(nodes), quota, g);
    var e := DialDone(SelectState(nodes, quota, 0, xs, c), IdsOf(nodes), quota, g, id);
    EventReached(nodes, quota, xs, c, e, Done(g, id));
  }

  lemma GoFound(nodes: seq<Node>, quota: nat, g: Config, result: seq<Node>)
    requires Selects(nodes, quota, g) && g.lookup && (!g.boot ==> result == []) && g.tasks > 0 && |result| <= BUCKET_SIZE
    ensures Top(nodes, quota, g.(buf := g.buf + result, boot := true, lookup := false, tasks := g.tasks - 1))
  {
    hide Top, RunTo, RunsTo, Exec, Shape, IdsOf, AtSelect, SelectState, EventOk, Apply;
    var xs, c :| RunToSelect(nodes, quota, xs, c) && ShapeAtSelect(SelectState(nodes, quota, 0, xs, c), IdsOf(nodes), quota, g);
    LookupDone(SelectState(nodes, quota, 0, xs, c), IdsOf(nodes), quota, g, result);
    EventReached(nodes, quota, xs, c, Finished(Discover(!g.boot), result),
                 g.(buf := g.buf + result, boot := true, lookup := false, tasks := g.tasks - 1));
  }

  lemma GoLeaves(nodes: seq<Node>, quota: nat, g: Config, id: NodeId)
    requires Selects(nodes, quota, g) && id in g.peers
    ensures Top(nodes, quota, g.(peers := g.peers - {id}))
  {
    hide Top, RunTo, RunsTo, Exec, Shape, IdsOf, AtSelect, SelectState, Apply;
    var xs, c :| RunToSelect(nodes, quota, xs, c) && ShapeAtSelect(SelectState(nodes, quota, 0, xs, c), IdsOf(nodes), quota, g);
    Leaves(SelectState(nodes, quota, 0, xs, c), IdsOf(nodes), quota, g, id);
    EventReached(nodes, quota, xs, c, PeerGone(id), g.(peers := g.peers - {id}));
  }

  lemma GoAddedAgain(nodes: seq<Node>, quota: nat, g: Config, n: Node)
    requires Selects(nodes, quota, g) && n in nodes
    ensures Top(nodes, quota, g)
  {
    hide Top, RunTo, RunsTo, Exec, Shape, AtSelect, SelectState, Apply;
    var xs, c :| RunToSelect(nodes, quota, xs, c) && ShapeAtSelect(SelectState(nodes, quota, 0, xs, c), IdsOf(nodes), quota, g);
    AddedAgain(SelectState(nodes, quota, 0, xs, c), IdsOf(nodes), quota, g, n);
    EventReached(nodes, quota, xs, c, AddStatic(n), g);
  }

  lemma Begins(nodes: seq<Node>, quota: nat)
    ensures Top(nodes, quota, Config({}, {}, {}, {}, [], false, false, 0, 0))
  {
    InitInv(nodes, quota, 0);
    StaticMapKeys(nodes);
    StaticMapCovers(nodes);
    var s := Init(nodes, quota, 0);
    assert s.dialer.statics.Keys == IdsOf(nodes);
    NoTaskDials();
    assert RunTo(nodes, quota, []);
    assert Shape(Exec(s, []), IdsOf(nodes), quota, Config({}, {}, {}, {}, [], false, false, 0, 0));
  }
}
