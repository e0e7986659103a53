/** The dial scheduler of dial.go. The first half defines what newTasks and taskDone compute as
    functions on values and proves what a round of scheduling guarantees; the second half is the
    mutable scheduler, whose methods are proved to compute those functions. */
module DialState {
  import opened NodeTypes
  import opened DialHistory

  type Flag = bv8

  const FLAG_INBOUND: Flag := 1
  const FLAG_OUTBOUND: Flag := 2
  const FLAG_STATIC: Flag := 4
  const FLAG_DYNAMIC: Flag := 8
  const STATIC_DIAL: Flag := FLAG_OUTBOUND | FLAG_STATIC
  const DYNAMIC_DIAL: Flag := FLAG_OUTBOUND | FLAG_DYNAMIC

  /** Thirty seconds, in nanoseconds. */
  const DIAL_HISTORY_EXPIRATION := 30_000_000_000

  predicate IsDynamic(f: Flag) {
    f & FLAG_DYNAMIC != 0
  }

  datatype Task = Dial(flag: Flag, dest: Node) | Discover(bootstrap: bool) | WaitExpire(duration: int)

  /** The scheduler's state; only the entries of the history matter, not their heap positions. */
  datatype Dialer = Dialer(statics: map<NodeId, Node>, maxDyn: nat, dialing: map<NodeId, Flag>,
                           lookupBuf: seq<Node>, lookupRunning: bool, bootstrapped: bool,
                           hist: set<PastDial>)

  /** What one round of scheduling does not control: the clock, Go's map iteration order over the
      static nodes, and what ReadRandomNodes wrote and returned. */
  datatype Choice = Choice(now: int, order: seq<NodeId>, random: seq<Node>, nRandom: nat)

  datatype Plan = Plan(dialer: Dialer, tasks: seq<Task>)

  /** ReadRandomNodes may report one node more than the buffer it filled can hold. */
  predicate ReadContract(random: seq<Node>, n: nat, bufLen: nat) {
    && |random| <= bufLen
    && (n == |random| || (n == |random| + 1 && |random| == bufLen))
  }

  ghost predicate IsOrder(order: seq<NodeId>, keys: set<NodeId>) {
    && (forall i, j :: 0 <= i < j < |order| ==> order[i] != order[j])
    && (forall k :: k in keys <==> k in order)
  }

  ghost predicate ChoiceOk(d: Dialer, c: Choice) {
    IsOrder(c.order, d.statics.Keys) && ReadContract(c.random, c.nRandom, d.maxDyn / 2)
  }

  ghost function DynKeys(m: map<NodeId, Flag>): set<NodeId> {
    set id | id in m && IsDynamic(m[id])
  }

  ghost function HistIds(h: set<PastDial>): set<NodeId> {
    set e | e in h :: e.id
  }

  ghost function Live(h: set<PastDial>, now: int): set<PastDial> {
    set e | e in h && e.exp >= now
  }

  lemma {:induction false} HasMin(h: set<PastDial>)
    requires h != {}
    ensures exists m :: m in h && forall e :: e in h ==> m.exp <= e.exp
    decreases |h|
  {
    var x :| x in h;
    if h - {x} != {} {
      HasMin(h - {x});
      var m :| m in h - {x} && forall e :: e in h - {x} ==> m.exp <= e.exp;
      var best := if x.exp <= m.exp then x else m;
      assert forall e :: e in h ==> e == x || e in h - {x};
      assert best in h;
    } else {
      assert h == {x} by { assert h == (h - {x}) + {x}; }
    }
  }

  ghost function MinExp(h: set<PastDial>): (t: int)
    requires h != {}
    ensures (exists m :: m in h && m.exp == t) && forall e :: e in h ==> t <= e.exp
  {
    HasMin(h);
    var m :| m in h && forall e :: e in h ==> m.exp <= e.exp;
    m.exp
  }

  /** The dial tasks of one round and the dialing map they produce. */
  datatype Acc = Acc(dialing: map<NodeId, Flag>, tasks: seq<Task>)

  function AddDial(a: Acc, busy: set<NodeId>, flag: Flag, n: Node): Acc {
    if n.id in a.dialing || n.id in busy then a
    else Acc(a.dialing[n.id := flag], a.tasks + [Dial(flag, n)])
  }

  function AddDials(a: Acc, busy: set<NodeId>, flag: Flag, ns: seq<Node>): Acc
    decreases |ns|
  {
    if ns == [] then a else AddDials(AddDial(a, busy, flag, ns[0]), busy, flag, ns[1..])
  }

  /** Dials from the lookup buffer while more dynamic dials are needed; also how much of it was used. */
  function Drain(a: Acc, busy: set<NodeId>, need: int, ns: seq<Node>): (r: (Acc, nat))
    ensures r.1 <= |ns|
    decreases |ns|
  {
    if ns == [] || need <= 0 then (a, 0)
    else
      var b := AddDial(a, busy, DYNAMIC_DIAL, ns[0]);
      var (c, used) := Drain(b, busy, need - (|b.tasks| - |a.tasks|), ns[1..]);
      (c, used + 1)
  }

  function StaticNodes(statics: map<NodeId, Node>, order: seq<NodeId>): (r: seq<Node>)
    requires forall k :: k in order ==> k in statics
    ensures |r| == |order| && forall i :: 0 <= i < |r| ==> r[i] == statics[order[i]]
  {
    seq(|order|, i requires 0 <= i < |order| => statics[order[i]])
  }

  /** Go's integer division by two, which truncates towards zero. */
  function Half(n: int): int {
    if n >= 0 then n / 2 else -(-n / 2)
  }

  ghost function Need(d: Dialer, peers: map<NodeId, Flag>): int {
    d.maxDyn - |DynKeys(peers)| - |DynKeys(d.dialing)|
  }

  ghost function Busy(d: Dialer, peers: map<NodeId, Flag>, now: int): set<NodeId> {
    peers.Keys + HistIds(Live(d.hist, now))
  }

  /** The dial tasks for static nodes. */
  ghost function StaticPhase(d: Dialer, peers: map<NodeId, Flag>, c: Choice): Acc
    requires ChoiceOk(d, c)
  {
    AddDials(Acc(d.dialing, []), Busy(d, peers, c.now), STATIC_DIAL, StaticNodes(d.statics, c.order))
  }

  /** The random table nodes that are tried: at most half of the dials needed. */
  ghost function Candidates(d: Dialer, peers: map<NodeId, Flag>, c: Choice): (r: seq<Node>)
    requires ChoiceOk(d, c)
    ensures |r| <= d.maxDyn / 2 && (r != [] ==> 2 * |r| <= Need(d, peers))
  {
    var k := Half(Need(d, peers));
    if k > 0 && d.bootstrapped then c.random[..Min(k, Min(c.nRandom, |c.random|))] else []
  }

  ghost function RandomPhase(d: Dialer, peers: map<NodeId, Flag>, c: Choice): Acc
    requires ChoiceOk(d, c)
  {
    AddDials(StaticPhase(d, peers, c), Busy(d, peers, c.now), DYNAMIC_DIAL, Candidates(d, peers, c))
  }

  ghost function BufferPhase(d: Dialer, peers: map<NodeId, Flag>, c: Choice): (r: (Acc, nat))
    requires ChoiceOk(d, c)
    ensures r.1 <= |d.lookupBuf|
  {
    var a, b := StaticPhase(d, peers, c), RandomPhase(d, peers, c);
    Drain(b, Busy(d, peers, c.now), Need(d, peers) - (|b.tasks| - |a.tasks|), d.lookupBuf)
  }

  /** The end of a round: start a lookup if the buffer cannot meet the remaining need, or wait for
      the history if there is nothing to do. The history in `d` is already expired. */
  ghost function Conclude(d: Dialer, tasks: seq<Task>, need: int, nRunning: nat, now: int): Plan {
    var lookup := |d.lookupBuf| < need && !d.lookupRunning;
    var all := if lookup then tasks + [Discover(!d.bootstrapped)] else tasks;
    Plan(d.(lookupRunning := d.lookupRunning || lookup),
         if nRunning == 0 && all == [] && d.hist != {} then [WaitExpire(MinExp(d.hist) - now)] else all)
  }

  /** What newTasks computes. */
  ghost function PlanTasks(d: Dialer, nRunning: nat, peers: map<NodeId, Flag>, c: Choice): Plan
    requires ChoiceOk(d, c)
  {
    var (a, used) := BufferPhase(d, peers, c);
    Conclude(d.(dialing := a.dialing, lookupBuf := d.lookupBuf[used..], hist := Live(d.hist, c.now)), a.tasks,
             Need(d, peers) - (|a.tasks| - |StaticPhase(d, peers, c).tasks|), nRunning, c.now)
  }

  /** What taskDone computes; `result` is what a finished lookup found. */
  function AfterTask(d: Dialer, t: Task, result: seq<Node>, now: int): Dialer {
    match t
    case Discover(bootstrap) =>
      d.(bootstrapped := d.bootstrapped || bootstrap, lookupRunning := false, lookupBuf := d.lookupBuf + result)
    case Dial(_, dest) =>
      d.(hist := d.hist + {PastDial(dest.id, now + DIAL_HISTORY_EXPIRATION)}, dialing := d.dialing - {dest.id})
    case WaitExpire(_) => d
  }

  // ---------- What a round of scheduling guarantees ----------

  predicate AllDials(ts: seq<Task>) {
    forall i :: 0 <= i < |ts| ==> ts[i].Dial?
  }

  ghost predicate DistinctDials(ts: seq<Task>) {
    forall i, j :: 0 <= i < j < |ts| && ts[i].Dial? && ts[j].Dial? ==> ts[i].dest.id != ts[j].dest.id
  }

  ghost function DialIds(ts: seq<Task>): set<NodeId> {
    set t | t in ts && t.Dial? :: t.dest.id
  }

  /** `a` extends `dialing` by exactly its own dial tasks: fresh, distinct and not busy. */
  ghost predicate IsBatch(dialing: map<NodeId, Flag>, busy: set<NodeId>, a: Acc) {
    && AllDials(a.tasks) && DistinctDials(a.tasks)
    && (forall i :: 0 <= i < |a.tasks| ==> a.tasks[i].dest.id !in dialing && a.tasks[i].dest.id !in busy)
    && a.dialing.Keys == dialing.Keys + DialIds(a.tasks)
    && (forall i :: 0 <= i < |a.tasks| ==> a.dialing[a.tasks[i].dest.id] == a.tasks[i].flag)
    && (forall id :: id in dialing ==> a.dialing[id] == dialing[id])
  }

  lemma AddDialBatch(dialing: map<NodeId, Flag>, busy: set<NodeId>, a: Acc, flag: Flag, n: Node)
    requires IsBatch(dialing, busy, a)
    ensures IsBatch(dialing, busy, AddDial(a, busy, flag, n))
  {
    var b := AddDial(a, busy, flag, n);
    if b != a {
      assert DialIds(b.tasks) == DialIds(a.tasks) + {n.id} by {
        assert b.tasks[|a.tasks|] == Dial(flag, n);
        assert forall t :: t in a.tasks ==> t in b.tasks;
      }
      forall i | 0 <= i < |a.tasks|
        ensures a.tasks[i].dest.id != n.id
      {
        assert a.tasks[i] in a.tasks;
      }
    }
  }

  /** A dynamic dial uses up one unit of the quota, a static dial none. */
  lemma AddDialQuota(a: Acc, busy: set<NodeId>, flag: Flag, n: Node)
    ensures var b := AddDial(a, busy, flag, n);
            && a.tasks <= b.tasks
            && |DynKeys(b.dialing)| - |DynKeys(a.dialing)| == (if IsDynamic(flag) then |b.tasks| - |a.tasks| else 0)
  {
    var b := AddDial(a, busy, flag, n);
    if b != a {
      assert DynKeys(b.dialing) == DynKeys(a.dialing) + if IsDynamic(flag) then {n.id} else {};
      assert n.id !in DynKeys(a.dialing);
    }
  }

  lemma {:induction false} AddDialsBatch(dialing: map<NodeId, Flag>, busy: set<NodeId>, a: Acc, flag: Flag, ns: seq<Node>)
    requires IsBatch(dialing, busy, a)
    ensures IsBatch(dialing, busy, AddDials(a, busy, flag, ns))
    decreases |ns|
  {
    if ns != [] {
      AddDialBatch(dialing, busy, a, flag, ns[0]);
      AddDialsBatch(dialing, busy, AddDial(a, busy, flag, ns[0]), flag, ns[1..]);
    }
  }

  lemma {:induction false} AddDialsQuota(a: Acc, busy: set<NodeId>, flag: Flag, ns: seq<Node>)
    ensures var b := AddDials(a, busy, flag, ns);
            && a.tasks <= b.tasks && |b.tasks| - |a.tasks| <= |ns|
            && |DynKeys(b.dialing)| - |DynKeys(a.dialing)| == (if IsDynamic(flag) then |b.tasks| - |a.tasks| else 0)
    decreases |ns|
  {
    if ns != [] {
      AddDialQuota(a, busy, flag, ns[0]);
      AddDialsQuota(AddDial(a, busy, flag, ns[0]), busy, flag, ns[1..]);
    }
  }

  /** After the pass every node tried is connected, in the history or being dialed, and the new
      tasks are dials of tried nodes with the given flag. */
  lemma {:induction false} AddDialsCovers(a: Acc, busy: set<NodeId>, flag: Flag, ns: seq<Node>)
    ensures var b := AddDials(a, busy, flag, ns);
            && a.tasks <= b.tasks
            && a.dialing.Keys <= b.dialing.Keys
            && (forall i :: 0 <= i < |ns| ==> ns[i].id in b.dialing || ns[i].id in busy)
            && (forall i :: |a.tasks| <= i < |b.tasks| ==> b.tasks[i].Dial? && b.tasks[i].flag == flag && b.tasks[i].dest in ns)
    decreases |ns|
  {
    if ns != [] {
      var m := AddDial(a, busy, flag, ns[0]);
      AddDialsCovers(m, busy, flag, ns[1..]);
      var b := AddDials(m, busy, flag, ns[1..]);
      forall i | 0 <= i < |ns|
        ensures ns[i].id in b.dialing || ns[i].id in busy
      {
        if i > 0 {
          assert ns[i] == ns[1..][i - 1];
        }
      }
    }
  }

  lemma DrainStep(a: Acc, busy: set<NodeId>, need: int, ns: seq<Node>, i: nat)
    requires i < |ns| && need > 0
    ensures var b := AddDial(a, busy, DYNAMIC_DIAL, ns[i]);
            var r := Drain(b, busy, need - (|b.tasks| - |a.tasks|), ns[i + 1..]);
            Drain(a, busy, need, ns[i..]) == (r.0, r.1 + 1)
  {
    assert ns[i..][1..] == ns[i + 1..];
  }

  lemma DrainStops(a: Acc, busy: set<NodeId>, need: int, ns: seq<Node>)
    requires ns == [] || need <= 0
    ensures Drain(a, busy, need, ns) == (a, 0)
  {
  }

  /** Draining never overdraws the need, and stops early only when nothing more is needed. */
  lemma {:induction false} DrainQuota(a: Acc, busy: set<NodeId>, need: int, ns: seq<Node>)
    ensures var (b, used) := Drain(a, busy, need, ns);
            && a.tasks <= b.tasks
            && |DynKeys(b.dialing)| - |DynKeys(a.dialing)| == |b.tasks| - |a.tasks|
            && (need <= 0 ==> b == a && used == 0)
            && (need >= 0 ==> |b.tasks| - |a.tasks| <= need)
            && (|b.tasks| - |a.tasks| < need ==> used == |ns|)
    decreases |ns|
  {
    if ns != [] && need > 0 {
      var m := AddDial(a, busy, DYNAMIC_DIAL, ns[0]);
      AddDialQuota(a, busy, DYNAMIC_DIAL, ns[0]);
      DrainQuota(m, busy, need - (|m.tasks| - |a.tasks|), ns[1..]);
    }
  }

  /** Draining is a pass over the part of the buffer it uses. */
  lemma {:induction false} DrainIsPass(a: Acc, busy: set<NodeId>, need: int, ns: seq<Node>)
    ensures var (b, used) := Drain(a, busy, need, ns);
            b == AddDials(a, busy, DYNAMIC_DIAL, ns[..used])
    decreases |ns|
  {
    if ns != [] && need > 0 {
      var m := AddDial(a, busy, DYNAMIC_DIAL, ns[0]);
      var left := need - (|m.tasks| - |a.tasks|);
      DrainIsPass(m, busy, left, ns[1..]);
      var used := Drain(a, busy, need, ns).1;
      assert ns[..used][1..] == ns[1..][..used - 1];
    }
  }

  ghost predicate DialerOk(d: Dialer) {
    forall k :: k in d.statics ==> d.statics[k].id == k
  }

  /** The dials of one round, static ones first. */
  ghost function Dials(d: Dialer, peers: map<NodeId, Flag>, c: Choice): seq<Task>
    requires ChoiceOk(d, c)
  {
    BufferPhase(d, peers, c).0.tasks
  }

  ghost function NStatic(d: Dialer, peers: map<NodeId, Flag>, c: Choice): (n: nat)
    requires ChoiceOk(d, c)
  {
    |StaticPhase(d, peers, c).tasks|
  }

  /** The dynamic nodes considered in one round. */
  ghost function Tried(d: Dialer, peers: map<NodeId, Flag>, c: Choice): seq<Node>
    requires ChoiceOk(d, c)
  {
    Candidates(d, peers, c) + d.lookupBuf[..BufferPhase(d, peers, c).1]
  }

  lemma {:induction false} AddDialsConcat(a: Acc, busy: set<NodeId>, flag: Flag, xs: seq<Node>, ys: seq<Node>)
    ensures AddDials(a, busy, flag, xs + ys) == AddDials(AddDials(a, busy, flag, xs), busy, flag, ys)
    decreases |xs|
  {
    if xs == [] {
      assert xs + ys == ys;
    } else {
      assert (xs + ys)[1..] == xs[1..] + ys;
      AddDialsConcat(AddDial(a, busy, flag, xs[0]), busy, flag, xs[1..], ys);
    }
  }

  /** The whole round is one static pass followed by one dynamic pass. */
  lemma TwoPasses(d: Dialer, peers: map<NodeId, Flag>, c: Choice)
    requires ChoiceOk(d, c)
    ensures BufferPhase(d, peers, c).0
         == AddDials(StaticPhase(d, peers, c), Busy(d, peers, c.now), DYNAMIC_DIAL, Tried(d, peers, c))
  {
    var a, b := StaticPhase(d, peers, c), RandomPhase(d, peers, c);
    DrainIsPass(b, Busy(d, peers, c.now), Need(d, peers) - (|b.tasks| - |a.tasks|), d.lookupBuf);
    AddDialsConcat(a, Busy(d, peers, c.now), DYNAMIC_DIAL, Candidates(d, peers, c), d.lookupBuf[..BufferPhase(d, peers, c).1]);
  }

  /** Each dial of a round is new: its node is not connected, not in the live history, not being
      dialed, not dialed twice; and dialing afterwards is dialing before plus exactly these dials. */
  lemma RoundDialsFresh(d: Dialer, peers: map<NodeId, Flag>, c: Choice)
    requires ChoiceOk(d, c)
    ensures IsBatch(d.dialing, Busy(d, peers, c.now), BufferPhase(d, peers, c).0)
  {
    var start, busy := Acc(d.dialing, []), Busy(d, peers, c.now);
    assert DialIds([]) == {};
    AddDialsBatch(d.dialing, busy, start, STATIC_DIAL, StaticNodes(d.statics, c.order));
    AddDialsBatch(d.dialing, busy, StaticPhase(d, peers, c), DYNAMIC_DIAL, Tried(d, peers, c));
    TwoPasses(d, peers, c);
  }

  /** Which dials a round makes: first static nodes, then tried dynamic nodes. */
  lemma RoundDialsSources(d: Dialer, peers: map<NodeId, Flag>, c: Choice)
    requires ChoiceOk(d, c)
    ensures var ts, k := Dials(d, peers, c), NStatic(d, peers, c);
            && k <= |ts|
            && (forall i :: 0 <= i < k ==> ts[i].Dial? && ts[i].flag == STATIC_DIAL && ts[i].dest in d.statics.Values)
            && (forall i :: k <= i < |ts| ==> ts[i].Dial? && ts[i].flag == DYNAMIC_DIAL && ts[i].dest in Tried(d, peers, c))
  {
    var busy, ns, a := Busy(d, peers, c.now), StaticNodes(d.statics, c.order), StaticPhase(d, peers, c);
    forall n | n in ns
      ensures n in d.statics.Values
    {
      var i :| 0 <= i < |ns| && ns[i] == n;
      assert c.order[i] in d.statics;
    }
    AddDialsCovers(Acc(d.dialing, []), busy, STATIC_DIAL, ns);
    AddDialsCovers(a, busy, DYNAMIC_DIAL, Tried(d, peers, c));
    TwoPasses(d, peers, c);
    assert a.tasks <= Dials(d, peers, c);
    hide AddDials, StaticNodes, Tried, BufferPhase, StaticPhase, Busy;
    assert forall i :: 0 <= i < |a.tasks| ==> Dials(d, peers, c)[i] == a.tasks[i];
  }

  /** A round dials every static node that is not connected, being dialed or dialed recently. */
  lemma StaticsCovered(d: Dialer, nRunning: nat, peers: map<NodeId, Flag>, c: Choice)
    requires ChoiceOk(d, c) && DialerOk(d)
    ensures var p := PlanTasks(d, nRunning, peers, c);
            forall id :: id in d.statics ==> id in p.dialer.dialing || id in peers || id in HistIds(p.dialer.hist)
  {
    var busy, ns := Busy(d, peers, c.now), StaticNodes(d.statics, c.order);
    AddDialsCovers(Acc(d.dialing, []), busy, STATIC_DIAL, ns);
    AddDialsCovers(StaticPhase(d, peers, c), busy, DYNAMIC_DIAL, Tried(d, peers, c));
    TwoPasses(d, peers, c);
    forall id | id in d.statics
      ensures id in BufferPhase(d, peers, c).0.dialing || id in busy
    {
      var i :| 0 <= i < |c.order| && c.order[i] == id;
      assert ns[i].id == id;
    }
  }

  /** Nodes leave the lookup buffer from the front, and only when they are being dialed, connected or were
      dialed recently; the rest stays in order. */
  lemma BufferConsumed(d: Dialer, nRunning: nat, peers: map<NodeId, Flag>, c: Choice)
    requires ChoiceOk(d, c)
    ensures var p, used := PlanTasks(d, nRunning, peers, c), BufferPhase(d, peers, c).1;
            && p.dialer.lookupBuf == d.lookupBuf[used..]
            && forall i :: 0 <= i < used ==> d.lookupBuf[i].id in p.dialer.dialing || d.lookupBuf[i].id in Busy(d, peers, c.now)
  {
    var used, tried := BufferPhase(d, peers, c).1, Tried(d, peers, c);
    AddDialsCovers(StaticPhase(d, peers, c), Busy(d, peers, c.now), DYNAMIC_DIAL, tried);
    TwoPasses(d, peers, c);
    var n := |Candidates(d, peers, c)|;
    assert forall i :: 0 <= i < used ==> tried[n + i] == d.lookupBuf[i];
  }

  /** How many nodes of the table a round tries: half of the dynamic dials needed, as far as the table
      has any. */
  ghost predicate IsDrawn(d: Dialer, peers: map<NodeId, Flag>, c: Choice, i: nat) {
    && d.bootstrapped && i < |c.random| && i < c.nRandom
    && 2 * (i + 1) <= d.maxDyn - |DynKeys(peers)| - |DynKeys(d.dialing)|
  }

  lemma CandidatesAre(d: Dialer, peers: map<NodeId, Flag>, c: Choice, i: nat)
    requires ChoiceOk(d, c)
    ensures IsDrawn(d, peers, c, i) <==> i < |Candidates(d, peers, c)|
    ensures IsDrawn(d, peers, c, i) ==> Candidates(d, peers, c)[i] == c.random[i]
  {
    hide DynKeys;
  }

  /** A round tries that many nodes of the table: afterwards each of them is being dialed, connected or in
      the history. */
  lemma RandomNodesCovered(d: Dialer, nRunning: nat, peers: map<NodeId, Flag>, c: Choice, i: nat)
    requires ChoiceOk(d, c) && IsDrawn(d, peers, c, i)
    ensures var p := PlanTasks(d, nRunning, peers, c);
            c.random[i].id in p.dialer.dialing || c.random[i].id in peers || c.random[i].id in HistIds(p.dialer.hist)
  {
    hide AddDials, StaticPhase, IsDrawn;
    CandidatesAre(d, peers, c, i);
    var tried := Tried(d, peers, c);
    assert tried[i] == c.random[i];
    AddDialsCovers(StaticPhase(d, peers, c), Busy(d, peers, c.now), DYNAMIC_DIAL, tried);
    TwoPasses(d, peers, c);
  }

  /** Every dial of a round is of a static node, as such, or else, as a dynamic one, of a node in the lookup
      buffer or of one of those nodes of the table. */
  lemma DialsComeFrom(d: Dialer, nRunning: nat, peers: map<NodeId, Flag>, c: Choice, t: Task)
    requires ChoiceOk(d, c) && t in PlanTasks(d, nRunning, peers, c).tasks && t.Dial?
    ensures t.flag == STATIC_DIAL || t.flag == DYNAMIC_DIAL
    ensures t.flag == STATIC_DIAL ==> t.dest in d.statics.Values
    ensures t.flag == DYNAMIC_DIAL ==> t.dest in d.lookupBuf || exists i: nat :: IsDrawn(d, peers, c, i) && c.random[i] == t.dest
  {
    var p, ds := PlanTasks(d, nRunning, peers, c), Dials(d, peers, c);
    RoundExtraTask(d, nRunning, peers, c);
    RoundDialsSources(d, peers, c);
    hide PlanTasks, Dials, BufferPhase, NStatic, IsDrawn;
    assert t in ds;
    var i :| 0 <= i < |ds| && ds[i] == t;
    if i >= NStatic(d, peers, c) {
      TriedFrom(d, peers, c, t.dest);
    }
  }

  lemma TriedFrom(d: Dialer, peers: map<NodeId, Flag>, c: Choice, n: Node)
    requires ChoiceOk(d, c) && n in Tried(d, peers, c)
    ensures n in d.lookupBuf || exists i: nat :: IsDrawn(d, peers, c, i) && c.random[i] == n
  {
    hide BufferPhase, IsDrawn;
    if n in Candidates(d, peers, c) {
      var i: nat :| i < |Candidates(d, peers, c)| && Candidates(d, peers, c)[i] == n;
      CandidatesAre(d, peers, c, i);
    }
  }

  /** The quota: the dynamic dials of a round never exceed the need at its start; if some need is
      left over, the whole buffer was used. */
  lemma RoundQuota(d: Dialer, peers: map<NodeId, Flag>, c: Choice)
    requires ChoiceOk(d, c)
    ensures var (a, used) := BufferPhase(d, peers, c);
            var added := |a.tasks| - NStatic(d, peers, c);
            && 0 <= added <= (if Need(d, peers) > 0 then Need(d, peers) else 0)
            && |DynKeys(a.dialing)| == |DynKeys(d.dialing)| + added
            && (added < Need(d, peers) ==> used == |d.lookupBuf|)
  {
    var busy := Busy(d, peers, c.now);
    assert !IsDynamic(STATIC_DIAL) && IsDynamic(DYNAMIC_DIAL);
    hide AddDials, Drain, Candidates, StaticNodes, DynKeys;
    AddDialsQuota(Acc(d.dialing, []), busy, STATIC_DIAL, StaticNodes(d.statics, c.order));
    var a, b := StaticPhase(d, peers, c), RandomPhase(d, peers, c);
    AddDialsQuota(a, busy, DYNAMIC_DIAL, Candidates(d, peers, c));
    DrainQuota(b, busy, Need(d, peers) - (|b.tasks| - |a.tasks|), d.lookupBuf);
  }

  /** A round that starts a lookup has used up the buffer and left the dynamic quota unmet. */
  lemma LookupStartsUnmet(d: Dialer, nRunning: nat, peers: map<NodeId, Flag>, c: Choice)
    requires ChoiceOk(d, c)
    ensures var p := PlanTasks(d, nRunning, peers, c);
            p.dialer.lookupRunning && !d.lookupRunning ==>
              p.dialer.lookupBuf == [] && |DynKeys(peers)| + |DynKeys(p.dialer.dialing)| < d.maxDyn
  {
    RoundQuota(d, peers, c);
  }

  /** With an empty buffer a round dials at most half of the dynamic nodes needed, so it never meets the
      quota by doing so. */
  lemma EmptyBufferUnmet(d: Dialer, nRunning: nat, peers: map<NodeId, Flag>, c: Choice)
    requires ChoiceOk(d, c) && d.lookupBuf == []
    ensures var p := PlanTasks(d, nRunning, peers, c);
            && p.dialer.lookupBuf == []
            && (|DynKeys(p.dialer.dialing)| == |DynKeys(d.dialing)| || |DynKeys(peers)| + |DynKeys(p.dialer.dialing)| < d.maxDyn)
  {
    RoundQuota(d, peers, c);
    var busy := Busy(d, peers, c.now);
    AddDialsQuota(StaticPhase(d, peers, c), busy, DYNAMIC_DIAL, Candidates(d, peers, c));
    assert BufferPhase(d, peers, c) == (RandomPhase(d, peers, c), 0);
  }

  /** After a round the dynamic quota is reached, or the buffer is used up and a lookup is running. */
  lemma NeedMetOrLookup(d: Dialer, nRunning: nat, peers: map<NodeId, Flag>, c: Choice)
    requires ChoiceOk(d, c)
    ensures var p := PlanTasks(d, nRunning, peers, c);
            || |DynKeys(peers)| + |DynKeys(p.dialer.dialing)| >= d.maxDyn
            || (p.dialer.lookupBuf == [] && p.dialer.lookupRunning)
  {
    RoundQuota(d, peers, c);
  }

  /** Besides dials, a round makes at most one task: a lookup exactly when it sets lookupRunning, or
      a wait for the least remaining time when there is nothing else to do or running. */
  lemma RoundExtraTask(d: Dialer, nRunning: nat, peers: map<NodeId, Flag>, c: Choice)
    requires ChoiceOk(d, c)
    ensures var p, ds := PlanTasks(d, nRunning, peers, c), Dials(d, peers, c);
            && ds <= p.tasks && |p.tasks| <= |ds| + 1
            && ((exists t :: t in p.tasks && t.Discover?) <==> p.dialer.lookupRunning && !d.lookupRunning)
            && (p.tasks == ds + [Discover(!d.bootstrapped)] || p.tasks == ds ||
                (ds == [] && nRunning == 0 && p.tasks[0].WaitExpire?))
            && (forall t :: t in p.tasks && t.WaitExpire? ==>
                  nRunning == 0 && p.tasks == [t] && t.duration >= 0
                  && (exists e :: e in p.dialer.hist && e.exp == c.now + t.duration)
                  && (forall e :: e in p.dialer.hist ==> c.now + t.duration <= e.exp))
  {
    var p, ds := PlanTasks(d, nRunning, peers, c), Dials(d, peers, c);
    RoundDialsFresh(d, peers, c);
    assert forall t :: t in ds ==> t.Dial?;
    var lookup := p.dialer.lookupRunning && !d.lookupRunning;
    if lookup {
      assert p.tasks[|ds|] == Discover(!d.bootstrapped);
    }
  }

  /** A round waits exactly if it has nothing to dial and no lookup to start, nothing runs and the history
      is not empty. */
  lemma RoundWaitsExactly(d: Dialer, nRunning: nat, peers: map<NodeId, Flag>, c: Choice)
    requires ChoiceOk(d, c)
    ensures var p := PlanTasks(d, nRunning, peers, c);
            (exists i :: 0 <= i < |p.tasks| && p.tasks[i].WaitExpire?) <==>
            nRunning == 0 && Dials(d, peers, c) == [] && !(p.dialer.lookupRunning && !d.lookupRunning) && Live(d.hist, c.now) != {}
  {
    var p, ds := PlanTasks(d, nRunning, peers, c), Dials(d, peers, c);
    RoundDialsFresh(d, peers, c);
    hide StaticPhase, BufferPhase, Live;
    assert forall i :: 0 <= i < |ds| ==> ds[i].Dial?;
    if nRunning == 0 && ds == [] && !(p.dialer.lookupRunning && !d.lookupRunning) && Live(d.hist, c.now) != {} {
      assert p.tasks[0].WaitExpire?;
    }
  }

  /** A round is its dials followed by its conclusion. */
  lemma PlanConcludes(d: Dialer, nRunning: nat, peers: map<NodeId, Flag>, c: Choice, a: Acc, e: Dialer, need: int)
    requires ChoiceOk(d, c) && a == BufferPhase(d, peers, c).0
    requires e == d.(dialing := a.dialing, lookupBuf := d.lookupBuf[BufferPhase(d, peers, c).1..], hist := Live(d.hist, c.now))
    requires need == Need(d, peers) - (|a.tasks| - NStatic(d, peers, c))
    ensures PlanTasks(d, nRunning, peers, c) == Conclude(e, a.tasks, need, nRunning, c.now)
  {
    hide Conclude, BufferPhase, StaticPhase, Live;
  }

  // ---------- The mutable scheduler ----------

  function StaticMap(ns: seq<Node>): map<NodeId, Node> {
    if ns == [] then map[] else StaticMap(ns[..|ns| - 1])[ns[|ns| - 1].id := ns[|ns| - 1]]
  }

  /** Of several nodes configured under one identifier the last one counts. */
  lemma {:induction false} StaticMapLast(ns: seq<Node>, i: nat)
    requires i < |ns|
    ensures ns[i].id in StaticMap(ns)
    ensures (forall j :: i < j < |ns| ==> ns[j].id != ns[i].id) ==> StaticMap(ns)[ns[i].id] == ns[i]
  {
    var m := |ns| - 1;
    if i < m {
      StaticMapLast(ns[..m], i);
    }
  }

  ghost function DynAmong(m: map<NodeId, Flag>, ids: set<NodeId>): set<NodeId> {
    set id | id in ids && id in m && IsDynamic(m[id])
  }

  /** Counts the dynamic entries of a map in any iteration order. */
  method CountDynamic(m: map<NodeId, Flag>) returns (n: nat)
    ensures n == |DynKeys(m)|
  {
    n := 0;
    var keys := m.Keys;
    ghost var done: set<NodeId> := {};
    while keys != {}
      invariant keys !! done && keys + done == m.Keys
      invariant n == |DynAmong(m, done)|
      decreases |keys|
    {
      var k :| k in keys;
      if IsDynamic(m[k]) {
        n := n + 1;
        assert DynAmong(m, done + {k}) == DynAmong(m, done) + {k};
      } else {
        assert DynAmong(m, done + {k}) == DynAmong(m, done);
      }
      keys, done := keys - {k}, done + {k};
    }
    assert DynKeys(m) == DynAmong(m, done);
  }

  class Scheduler {
    var statics: map<NodeId, Node>
    var maxDyn: nat
    var dialing: map<NodeId, Flag>
    var lookupBuf: seq<Node>
    var lookupRunning: bool
    var bootstrapped: bool
    const hist: History

    ghost function Abs(): Dialer
      reads this, hist
    {
      Dialer(statics, maxDyn, dialing, lookupBuf, lookupRunning, bootstrapped, Entries(hist.h))
    }

    ghost predicate Valid()
      reads this, hist
    {
      hist.Valid() && DialerOk(Abs())
    }

    constructor (nodes: seq<Node>, maxDyn: nat)
      ensures Valid() && fresh(hist)
      ensures Abs() == Dialer(StaticMap(nodes), maxDyn, map[], [], false, false, {})
    {
      this.maxDyn := maxDyn;
      statics, dialing := map[], map[];
      lookupBuf, lookupRunning, bootstrapped := [], false, false;
      hist := new History();
      new;
      for i := 0 to |nodes|
        invariant Valid() && fresh(hist)
        invariant Abs() == Dialer(StaticMap(nodes[..i]), maxDyn, map[], [], false, false, {})
      {
        AddStatic(nodes[i]);
        assert nodes[..i + 1][..i] == nodes[..i];
      }
      assert nodes[..|nodes|] == nodes;
    }

    method AddStatic(n: Node)
      requires Valid()
      modifies this
      ensures Valid() && Abs() == old(Abs()).(statics := old(Abs()).statics[n.id := n])
    {
      statics := statics[n.id := n];
    }

    method RemoveStatic(id: NodeId)
      requires Valid()
      modifies this
      ensures Valid() && Abs() == old(Abs()).(statics := old(Abs()).statics - {id})
    {
      statics := statics - {id};
    }

    /** The addDial closure: dials `n` unless it is being dialed, connected or dialed recently. */
    method TryDial(peers: map<NodeId, Flag>, tasks: seq<Task>, flag: Flag, n: Node) returns (added: bool, out: seq<Task>)
      modifies this`dialing
      ensures Acc(dialing, out) == AddDial(Acc(old(dialing), tasks), peers.Keys + HistIds(Entries(hist.h)), flag, n)
      ensures |out| == |tasks| + if added then 1 else 0
    {
      var recent := hist.Contains(n.id);
      if n.id in dialing || n.id in peers || recent {
        return false, tasks;
      }
      dialing := dialing[n.id := flag];
      return true, tasks + [Dial(flag, n)];
    }

    /** Dials each node of `ns` in turn. */
    method DialEach(peers: map<NodeId, Flag>, tasks: seq<Task>, flag: Flag, ns: seq<Node>) returns (out: seq<Task>)
      modifies this`dialing
      ensures Acc(dialing, out) == AddDials(Acc(old(dialing), tasks), peers.Keys + HistIds(Entries(hist.h)), flag, ns)
    {
      out := tasks;
      ghost var busy := peers.Keys + HistIds(Entries(hist.h));
      for i := 0 to |ns|
        invariant AddDials(Acc(dialing, out), busy, flag, ns[i..]) == AddDials(Acc(old(dialing), tasks), busy, flag, ns)
      {
        assert ns[i..][1..] == ns[i + 1..];
        var _, more := TryDial(peers, out, flag, ns[i]);
        out := more;
      }
    }

    /** Dials from the front of the lookup buffer while `want` is positive. */
    method DialFromBuffer(peers: map<NodeId, Flag>, tasks: seq<Task>, want: int) returns (out: seq<Task>, need: int)
      modifies this`dialing, this`lookupBuf
      ensures var (a, used) := Drain(Acc(old(dialing), tasks), peers.Keys + HistIds(Entries(hist.h)), want, old(lookupBuf));
              && Acc(dialing, out) == a && lookupBuf == old(lookupBuf)[used..]
      ensures need == want - (|out| - |tasks|)
    {
      hide Drain, AddDial, HistIds, Entries;
      out, need := tasks, want;
      var i := 0;
      ghost var busy := peers.Keys + HistIds(Entries(hist.h));
      assert lookupBuf[0..] == lookupBuf;
      while i < |lookupBuf| && need > 0
        invariant 0 <= i <= |lookupBuf| && lookupBuf == old(lookupBuf)
        invariant need == want - (|out| - |tasks|)
        invariant var (a, used) := Drain(Acc(dialing, out), busy, need, lookupBuf[i..]);
                  (a, i + used) == Drain(Acc(old(dialing), tasks), busy, want, lookupBuf)
      {
        DrainStep(Acc(dialing, out), busy, need, lookupBuf, i);
        var added, more := TryDial(peers, out, DYNAMIC_DIAL, lookupBuf[i]);
        out := more;
        if added {
          need := need - 1;
        }
        i := i + 1;
      }
      DrainStops(Acc(dialing, out), busy, need, lookupBuf[i..]);
      lookupBuf := lookupBuf[i..];
    }

    method ExpireHistory(now: int)
      requires hist.Valid()
      modifies hist
      ensures hist.Valid() && Entries(hist.h) == Live(old(Entries(hist.h)), now)
    {
      hist.Expire(now);
      assert forall e: PastDial :: e in hist.h <==> e in multiset(hist.h);
      assert forall e: PastDial :: e in old(hist.h) <==> e in old(multiset(hist.h));
    }

    /** Dials random table nodes for up to half of the need. */
    method DialRandom(peers: map<NodeId, Flag>, tasks: seq<Task>, c: Choice, want: int, ghost d: Dialer) returns (out: seq<Task>, need: int)
      requires ChoiceOk(d, c) && want == Need(d, peers) && bootstrapped == d.bootstrapped && maxDyn == d.maxDyn
      modifies this`dialing
      ensures Acc(dialing, out) == AddDials(Acc(old(dialing), tasks), peers.Keys + HistIds(Entries(hist.h)), DYNAMIC_DIAL, Candidates(d, peers, c))
      ensures need == want - (|out| - |tasks|)
    {
      var randomCandidates := Half(want);
      if randomCandidates > 0 && bootstrapped {
        // a report beyond the buffer is never followed: randomCandidates is at most its length
        assert randomCandidates <= maxDyn / 2;
        var k := Min(randomCandidates, c.nRandom);
        assert c.random[..k] == Candidates(d, peers, c);
        out := DialEach(peers, tasks, DYNAMIC_DIAL, c.random[..k]);
      } else {
        out := tasks;
      }
      need := want - (|out| - |tasks|);
    }

    /** The dials of one round, in the state `d` before the round with the history expired. */
    method DialRound(peers: map<NodeId, Flag>, c: Choice, want: int, ghost d: Dialer) returns (tasks: seq<Task>, need: int)
      requires ChoiceOk(d, c) && want == Need(d, peers)
      requires Abs() == d.(hist := Live(d.hist, c.now))
      modifies this`dialing, this`lookupBuf
      ensures var (a, used) := BufferPhase(d, peers, c);
              && Acc(dialing, tasks) == a && lookupBuf == d.lookupBuf[used..]
              && need == want - (|tasks| - NStatic(d, peers, c))
    {
      hide Drain, AddDials, HistIds, Entries, Live, Candidates, StaticNodes;
      ghost var busy := peers.Keys + HistIds(Entries(hist.h));
      tasks := DialEach(peers, [], STATIC_DIAL, StaticNodes(statics, c.order));
      assert Acc(dialing, tasks) == StaticPhase(d, peers, c);
      tasks, need := DialRandom(peers, tasks, c, want, d);
      assert Acc(dialing, tasks) == RandomPhase(d, peers, c);
      assert BufferPhase(d, peers, c) == Drain(Acc(dialing, tasks), busy, need, lookupBuf);
      tasks, need := DialFromBuffer(peers, tasks, need);
    }

    method MinExpiry() returns (t: int)
      requires hist.Valid() && |hist.h| > 0
      ensures Entries(hist.h) != {}
      ensures t == MinExp(Entries(hist.h))
    {
      t := hist.h[0].exp;
      forall k | 0 <= k < |hist.h|
        ensures hist.h[0].exp <= hist.h[k].exp
      {
        RootExpiresFirst(hist.h, k);
      }
      assert hist.h[0] in Entries(hist.h);
    }

    method ConcludeRound(dials: seq<Task>, need: int, nRunning: nat, now: int) returns (tasks: seq<Task>)
      requires hist.Valid()
      modifies this`lookupRunning
      ensures Plan(Abs(), tasks) == Conclude(old(Abs()), dials, need, nRunning, now)
    {
      tasks := dials;
      if |lookupBuf| < need && !lookupRunning {
        lookupRunning := true;
        tasks := tasks + [Discover(!bootstrapped)];
      }
      assert |hist.h| > 0 ==> hist.h[0] in Entries(hist.h);
      if nRunning == 0 && |tasks| == 0 && |hist.h| > 0 {
        var first := MinExpiry();
        tasks := [WaitExpire(first - now)];
      }
    }

    /** One round of scheduling. The clock, the map order of the static nodes and the outcome of
        ReadRandomNodes come in as the choice `c`. */
    method NewTasks(nRunning: nat, peers: map<NodeId, Flag>, c: Choice) returns (tasks: seq<Task>)
      requires Valid() && ChoiceOk(Abs(), c)
      modifies this`dialing, this`lookupBuf, this`lookupRunning, hist
      ensures Valid()
      ensures Plan(Abs(), tasks) == PlanTasks(old(Abs()), nRunning, peers, c)
    {
      ghost var d := Abs();
      var dynPeers := CountDynamic(peers);
      var dynDials := CountDynamic(dialing);
      ExpireHistory(c.now);
      var dials, need := DialRound(peers, c, maxDyn - dynPeers - dynDials, d);
      PlanConcludes(d, nRunning, peers, c, Acc(dialing, dials), Abs(), need);
      tasks := ConcludeRound(dials, need, nRunning, c.now);
    }

    method TaskDone(t: Task, result: seq<Node>, now: int)
      requires Valid()
      modifies this, hist
      ensures Valid() && Abs() == AfterTask(old(Abs()), t, result, now)
    {
      match t
      case Discover(bootstrap) =>
        if bootstrap {
          bootstrapped := true;
        }
        lookupRunning := false;
        lookupBuf := lookupBuf + result;
      case Dial(_, dest) =>
        var e := PastDial(dest.id, now + DIAL_HISTORY_EXPIRATION);
        hist.Add(dest.id, now + DIAL_HISTORY_EXPIRATION);
        assert forall x :: x in hist.h <==> x in old(multiset(hist.h)) || x == e by {
          assert forall x: PastDial :: x in hist.h <==> x in multiset(hist.h);
        }
        dialing := dialing - {dest.id};
      case WaitExpire(_) =>
    }
  }
}
