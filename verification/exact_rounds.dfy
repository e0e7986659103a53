/** What a round of scheduling does exactly, as sets of nodes, in the situations that a run can be steered
    through: the dynamic quota is met, or one node of the lookup buffer meets it, or the buffer cannot. */
module ExactRounds {
  import opened NodeTypes
  import opened DialHistory
  import opened DialState
  import opened ServerLoop
  import opened ServerRuns

  ghost function IdsOf(ns: seq<Node>): set<NodeId> {
    set n | n in ns :: n.id
  }

  lemma IdsFirst(ns: seq<Node>)
    requires ns != []
    ensures IdsOf(ns) == {ns[0].id} + IdsOf(ns[1..])
  {
    assert ns == [ns[0]] + ns[1..];
  }

  lemma {:induction false} IdsBound(ns: seq<Node>)
    ensures |IdsOf(ns)| <= |ns|
  {
    hide IdsOf;
    if ns == [] {
      IdsNone();
    } else {
      IdsFirst(ns);
      IdsBound(ns[1..]);
    }
  }

  lemma IdsNone()
    ensures IdsOf([]) == {}
  {
  }

  // ---------- One pass over candidates ----------

  /** `b` is `a` with dials of exactly the nodes `added` behind it. */
  ghost predicate Adds(a: Acc, b: Acc, flag: Flag, added: set<NodeId>) {
    && DialIds(b.tasks) == DialIds(a.tasks) + added && b.dialing.Keys == a.dialing.Keys + added
    && DynKeys(b.dialing) == (if IsDynamic(flag) then DynKeys(a.dialing) + added else DynKeys(a.dialing))
  }

  lemma AddsNothing(a: Acc, flag: Flag)
    ensures Adds(a, a, flag, {})
  {
    hide DialIds, DynKeys, IsDynamic;
  }

  lemma AddsTwice(a: Acc, m: Acc, b: Acc, flag: Flag, x: set<NodeId>, y: set<NodeId>)
    requires Adds(a, m, flag, x) && Adds(m, b, flag, y)
    ensures Adds(a, b, flag, x + y)
  {
    hide DialIds, DynKeys, IsDynamic;
    assert (DialIds(a.tasks) + x) + y == DialIds(a.tasks) + (x + y);
    assert (a.dialing.Keys + x) + y == a.dialing.Keys + (x + y);
    assert IsDynamic(flag) ==> (DynKeys(a.dialing) + x) + y == DynKeys(a.dialing) + (x + y);
  }

  lemma AddsOne(a: Acc, flag: Flag, n: Node)
    requires n.id !in a.dialing
    ensures Adds(a, Acc(a.dialing[n.id := flag], a.tasks + [Dial(flag, n)]), flag, {n.id})
  {
    hide IsDynamic;
    DialIdsConcat(a.tasks, [Dial(flag, n)]);
    assert DialIds([Dial(flag, n)]) == {n.id} by {
      assert Dial(flag, n) in [Dial(flag, n)];
    }
    hide DialIds;
    assert DynKeys(a.dialing[n.id := flag]) == if IsDynamic(flag) then DynKeys(a.dialing) + {n.id} else DynKeys(a.dialing);
    hide DynKeys;
  }

  /** A pass dials exactly the candidates that are not busy and not yet being dialed. */
  lemma {:induction false} AddDialsExact(a: Acc, busy: set<NodeId>, flag: Flag, ns: seq<Node>)
    ensures Adds(a, AddDials(a, busy, flag, ns), flag, IdsOf(ns) - a.dialing.Keys - busy)
    decreases |ns|
  {
    hide Adds, IdsOf;
    if ns == [] {
      IdsNone();
      AddsNothing(a, flag);
      assert IdsOf(ns) - a.dialing.Keys - busy == {};
    } else {
      var m, id := AddDial(a, busy, flag, ns[0]), ns[0].id;
      AddDialsExact(m, busy, flag, ns[1..]);
      IdsFirst(ns);
      if m == a {
        assert IdsOf(ns) - a.dialing.Keys - busy == IdsOf(ns[1..]) - a.dialing.Keys - busy;
      } else {
        AddsOne(a, flag, ns[0]);
        AddsTwice(a, m, AddDials(a, busy, flag, ns), flag, {id}, IdsOf(ns[1..]) - m.dialing.Keys - busy);
        assert IdsOf(ns) - a.dialing.Keys - busy == {id} + (IdsOf(ns[1..]) - m.dialing.Keys - busy);
      }
    }
  }

  lemma StaticIds(d: Dialer, c: Choice)
    requires ChoiceOk(d, c) && DialerOk(d)
    ensures IdsOf(StaticNodes(d.statics, c.order)) == d.statics.Keys
  {
    var ns := StaticNodes(d.statics, c.order);
    forall id | id in d.statics
      ensures id in IdsOf(ns)
    {
      var i :| 0 <= i < |c.order| && c.order[i] == id;
      assert ns[i] in ns;
    }
    forall id | id in IdsOf(ns)
      ensures id in d.statics
    {
      var i :| 0 <= i < |ns| && ns[i].id == id;
      assert c.order[i] in d.statics;
    }
  }

  // ---------- The dials of a round ----------

  /** The static nodes a round has to dial. */
  ghost function Due(d: Dialer, peers: map<NodeId, Flag>, now: int): set<NodeId> {
    d.statics.Keys - d.dialing.Keys - Busy(d, peers, now)
  }

  /** Nodes that a round may dial, none of them static. */
  ghost predicate Fresh(d: Dialer, peers: map<NodeId, Flag>, now: int, ids: set<NodeId>) {
    ids !! d.statics.Keys && ids !! d.dialing.Keys && ids !! Busy(d, peers, now)
  }

  lemma BatchLength(dialing: map<NodeId, Flag>, busy: set<NodeId>, a: Acc)
    requires IsBatch(dialing, busy, a)
    ensures AllDials(a.tasks) && |a.tasks| == |DialIds(a.tasks)|
  {
    hide DialIds;
    LengthBound(a.tasks);
  }

  lemma StaticDials(d: Dialer, peers: map<NodeId, Flag>, c: Choice)
    requires ChoiceOk(d, c) && DialerOk(d)
    ensures Adds(Acc(d.dialing, []), StaticPhase(d, peers, c), STATIC_DIAL, Due(d, peers, c.now))
    ensures |StaticPhase(d, peers, c).tasks| == |Due(d, peers, c.now)|
  {
    hide Adds, IdsOf, AddDials;
    var busy, start := Busy(d, peers, c.now), Acc(d.dialing, []);
    StaticIds(d, c);
    AddDialsExact(start, busy, STATIC_DIAL, StaticNodes(d.statics, c.order));
    NoTaskDials();
    AddDialsBatch(d.dialing, busy, start, STATIC_DIAL, StaticNodes(d.statics, c.order));
    BatchLength(d.dialing, busy, StaticPhase(d, peers, c));
    AddsFromNone(d.dialing, StaticPhase(d, peers, c), STATIC_DIAL, Due(d, peers, c.now));
  }

  lemma NoTaskDials()
    ensures DialIds([]) == {}
  {
  }

  lemma AddsFromNone(dialing: map<NodeId, Flag>, b: Acc, flag: Flag, added: set<NodeId>)
    requires Adds(Acc(dialing, []), b, flag, added)
    ensures DialIds(b.tasks) == added && b.dialing.Keys == dialing.Keys + added
  {
    hide DynKeys, IsDynamic;
  }

  lemma AllFresh(ids: set<NodeId>, statics: set<NodeId>, dialing: set<NodeId>, busy: set<NodeId>)
    requires ids !! statics && ids !! dialing && ids !! busy
    ensures ids - (dialing + (statics - dialing - busy)) - busy == ids
  {
  }

  lemma CardSum<T>(x: set<T>, y: set<T>)
    requires x !! y
    ensures |x + y| == |x| + |y|
  {
  }

  /** A static pass followed by a dynamic one. */
  lemma AddsBoth(dialing: map<NodeId, Flag>, a: Acc, b: Acc, due: set<NodeId>, tried: set<NodeId>)
    requires Adds(Acc(dialing, []), a, STATIC_DIAL, due) && Adds(a, b, DYNAMIC_DIAL, tried)
    ensures DialIds(b.tasks) == due + tried
    ensures b.dialing.Keys == dialing.Keys + due + tried && DynKeys(b.dialing) == DynKeys(dialing) + tried
  {
    NoTaskDials();
    assert !IsDynamic(STATIC_DIAL) && IsDynamic(DYNAMIC_DIAL);
    hide DialIds, DynKeys, IsDynamic;
  }

  lemma TriedDials(d: Dialer, peers: map<NodeId, Flag>, c: Choice, tried: set<NodeId>)
    requires ChoiceOk(d, c) && DialerOk(d) && IdsOf(Tried(d, peers, c)) == tried && Fresh(d, peers, c.now, tried)
    ensures Adds(StaticPhase(d, peers, c), BufferPhase(d, peers, c).0, DYNAMIC_DIAL, tried)
  {
    hide IdsOf, AddDials, IsOrder, BufferPhase, StaticPhase, Tried, Busy, Adds;
    var busy, a := Busy(d, peers, c.now), StaticPhase(d, peers, c);
    StaticDials(d, peers, c);
    AddsFromNone(d.dialing, a, STATIC_DIAL, Due(d, peers, c.now));
    AllFresh(tried, d.statics.Keys, d.dialing.Keys, busy);
    TwoPasses(d, peers, c);
    AddDialsExact(a, busy, DYNAMIC_DIAL, Tried(d, peers, c));
  }

  /** If the dynamic nodes tried are fresh, a round dials them and the static nodes that are due. */
  lemma RoundDials(d: Dialer, peers: map<NodeId, Flag>, c: Choice, tried: set<NodeId>)
    requires ChoiceOk(d, c) && DialerOk(d) && IdsOf(Tried(d, peers, c)) == tried && Fresh(d, peers, c.now, tried)
    ensures var a, due := BufferPhase(d, peers, c).0, Due(d, peers, c.now);
            && DialIds(a.tasks) == due + tried && |a.tasks| == |due| + |tried| && NStatic(d, peers, c) == |due|
            && a.dialing.Keys == d.dialing.Keys + due + tried && DynKeys(a.dialing) == DynKeys(d.dialing) + tried
            && AllDials(a.tasks)
  {
    hide IdsOf, IsOrder, IsBatch, AllDials, BufferPhase, StaticPhase, Tried, DialIds, DynKeys, Busy, Adds;
    var due := Due(d, peers, c.now);
    StaticDials(d, peers, c);
    TriedDials(d, peers, c, tried);
    AddsBoth(d.dialing, StaticPhase(d, peers, c), BufferPhase(d, peers, c).0, due, tried);
    RoundDialsFresh(d, peers, c);
    BatchLength(d.dialing, Busy(d, peers, c.now), BufferPhase(d, peers, c).0);
    CardSum(due, tried);
  }

  // ---------- Whole rounds ----------

  /** The plan of a round that dials the given static and dynamic nodes, leaves `buf` in the lookup buffer,
      and starts a lookup or not. */
  ghost predicate Makes(d: Dialer, p: Plan, hist: set<PastDial>, statics: set<NodeId>, dyn: set<NodeId>, buf: seq<Node>, lookup: bool) {
    && p.dialer == d.(dialing := p.dialer.dialing, lookupBuf := buf, hist := hist, lookupRunning := d.lookupRunning || lookup)
    && p.dialer.dialing.Keys == d.dialing.Keys + statics + dyn && DynKeys(p.dialer.dialing) == DynKeys(d.dialing) + dyn
    && DialIds(p.tasks) == statics + dyn
    && (lookup <==> exists t :: t in p.tasks && t.Discover?) && (lookup ==> Discover(!d.bootstrapped) in p.tasks)
  }

  lemma ConcludeDials(d: Dialer, tasks: seq<Task>, need: int, n: nat, now: int)
    requires AllDials(tasks)
    ensures var p, lookup := Conclude(d, tasks, need, n, now), |d.lookupBuf| < need && !d.lookupRunning;
            && p.dialer == d.(lookupRunning := d.lookupRunning || lookup) && DialIds(p.tasks) == DialIds(tasks)
            && |p.tasks| == |tasks| + One(lookup || (n == 0 && tasks == [] && d.hist != {}))
            && (lookup <==> exists t :: t in p.tasks && t.Discover?) && (lookup ==> Discover(!d.bootstrapped) in p.tasks)
  {
    var p, lookup := Conclude(d, tasks, need, n, now), |d.lookupBuf| < need && !d.lookupRunning;
    if lookup {
      assert p.tasks[|tasks|] == Discover(!d.bootstrapped);
      DialIdsConcat(tasks, [Discover(!d.bootstrapped)]);
      assert DialIds([Discover(!d.bootstrapped)]) == {};
    }
  }

  /** A round whose dynamic candidates are fresh: what it dials, and what else it makes. */
  lemma RoundMakes(d: Dialer, n: nat, peers: map<NodeId, Flag>, c: Choice, tried: set<NodeId>, left: seq<Node>)
    requires ChoiceOk(d, c) && DialerOk(d) && IdsOf(Tried(d, peers, c)) == tried && Fresh(d, peers, c.now, tried)
    requires left == d.lookupBuf[BufferPhase(d, peers, c).1..]
    ensures var p, due, live := PlanTasks(d, n, peers, c), Due(d, peers, c.now), Live(d.hist, c.now);
            var lookup := |left| < Need(d, peers) - |tried| && !d.lookupRunning;
            && Makes(d, p, live, due, tried, left, lookup)
            && |p.tasks| == |due| + |tried| + One(lookup || (n == 0 && |due| + |tried| == 0 && live != {}))
  {
    hide IdsOf, IsOrder, BufferPhase, Tried, DialIds, DynKeys, Busy, Need, Due, Live, Conclude, PlanTasks,
         NStatic, AllDials, Fresh;
    RoundDials(d, peers, c, tried);
    var a, live := BufferPhase(d, peers, c).0, Live(d.hist, c.now);
    var e := d.(dialing := a.dialing, lookupBuf := left, hist := live);
    PlanConcludes(d, n, peers, c, a, e, Need(d, peers) - |tried|);
    ConcludeDials(e, a.tasks, Need(d, peers) - |tried|, n, c.now);
  }

  // ---------- What is tried ----------

  /** With the quota met nothing is tried. */
  lemma NoneTried(d: Dialer, peers: map<NodeId, Flag>, c: Choice)
    requires ChoiceOk(d, c) && Need(d, peers) <= 0
    ensures Tried(d, peers, c) == [] && BufferPhase(d, peers, c).1 == 0
  {
    hide AddDials, StaticPhase, IsOrder, Need, Busy;
    assert Candidates(d, peers, c) == [];
    hide Candidates;
    assert RandomPhase(d, peers, c) == StaticPhase(d, peers, c) by {
      AddDialsNone(StaticPhase(d, peers, c), Busy(d, peers, c.now), DYNAMIC_DIAL);
    }
  }

  lemma AddDialsNone(a: Acc, busy: set<NodeId>, flag: Flag)
    ensures AddDials(a, busy, flag, []) == a
  {
  }

  lemma FreshDialed(d: Dialer, peers: map<NodeId, Flag>, c: Choice, id: NodeId)
    requires ChoiceOk(d, c) && DialerOk(d) && Fresh(d, peers, c.now, {id})
    ensures id !in StaticPhase(d, peers, c).dialing && id !in Busy(d, peers, c.now)
  {
    hide StaticPhase, IsOrder, Busy, Adds;
    StaticDials(d, peers, c);
    AddsFromNone(d.dialing, StaticPhase(d, peers, c), STATIC_DIAL, Due(d, peers, c.now));
    assert id in {id};
  }

  /** With one dynamic dial needed and a fresh node in front of the buffer, only that node is tried. */
  lemma FirstTried(d: Dialer, peers: map<NodeId, Flag>, c: Choice)
    requires ChoiceOk(d, c) && DialerOk(d) && Need(d, peers) == 1
    requires d.lookupBuf != [] && Fresh(d, peers, c.now, {d.lookupBuf[0].id})
    ensures Tried(d, peers, c) == [d.lookupBuf[0]] && BufferPhase(d, peers, c).1 == 1
  {
    hide AddDials, StaticPhase, IsOrder, Need, Busy, Drain, Fresh, DialerOk;
    var a, busy := StaticPhase(d, peers, c), Busy(d, peers, c.now);
    FreshDialed(d, peers, c, d.lookupBuf[0].id);
    assert Candidates(d, peers, c) == [];
    hide Candidates;
    AddDialsNone(a, busy, DYNAMIC_DIAL);
    assert d.lookupBuf[0..] == d.lookupBuf;
    DrainStep(a, busy, 1, d.lookupBuf, 0);
    DrainStops(AddDial(a, busy, DYNAMIC_DIAL, d.lookupBuf[0]), busy, 0, d.lookupBuf[1..]);
  }

  /** If the buffer cannot meet the need, all of it is tried; the table's nodes may be among it. */
  lemma AllTried(d: Dialer, peers: map<NodeId, Flag>, c: Choice)
    requires ChoiceOk(d, c) && DialerOk(d) && |d.lookupBuf| < Need(d, peers)
    requires IdsOf(c.random) <= IdsOf(d.lookupBuf) && Fresh(d, peers, c.now, IdsOf(d.lookupBuf))
    ensures IdsOf(Tried(d, peers, c)) == IdsOf(d.lookupBuf) && BufferPhase(d, peers, c).1 == |d.lookupBuf|
  {
    hide BufferPhase, IsOrder, Need, Busy, Fresh, NStatic, DialIds, DynKeys, AllDials, Due;
    var tried, used := IdsOf(Tried(d, peers, c)), BufferPhase(d, peers, c).1;
    assert tried <= IdsOf(d.lookupBuf);
    FreshPart(d, peers, c.now, tried, IdsOf(d.lookupBuf));
    RoundDials(d, peers, c, tried);
    CardMono(tried, IdsOf(d.lookupBuf));
    IdsBound(d.lookupBuf);
    RoundQuota(d, peers, c);
    assert d.lookupBuf[..used] == d.lookupBuf;
  }

  lemma FreshPart(d: Dialer, peers: map<NodeId, Flag>, now: int, part: set<NodeId>, ids: set<NodeId>)
    requires Fresh(d, peers, now, ids) && part <= ids
    ensures Fresh(d, peers, now, part)
  {
  }
}
