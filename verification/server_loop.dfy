/** The run loop of server.go as a state machine: one turn is a round of scheduling followed by the
    one event the select statement picks. Goroutines appear as the events they send. */
module ServerLoop {
  import opened NodeTypes
  import opened DialState

  const MAX_ACTIVE_TASKS := 16

  /** A dial task for `id` was made in the round that began at `time`. */
  datatype Emission = Emission(id: NodeId, time: int)

  /** `log` and `everStatic` are history variables: all dial tasks ever made, and all static nodes
      ever configured or added. `now` is the clock reading at the top of the latest round. */
  datatype Server = Server(dialer: Dialer, peers: map<NodeId, Flag>, tasks: seq<Task>, pending: seq<Task>,
                           now: int, log: seq<Emission>, everStatic: set<NodeId>)

  /** A dial task's connection reaches addpeer while the task is still running, because Do sends on
      addpeer before it returns; accepted connections carry the inbound flag. */
  datatype Event =
    | AddStatic(node: Node)
    | RemoveStatic(id: NodeId)
    | Connected(dial: Task)
    | Accepted(id: NodeId)
    | Finished(task: Task, result: seq<Node>)
    | PeerGone(id: NodeId)

  datatype Turn = Turn(choice: Choice, event: Event)

  function Outstanding(s: Server): seq<Task> {
    s.tasks + s.pending
  }

  function Init(nodes: seq<Node>, maxDyn: nat, now: int): Server {
    Server(Dialer(StaticMap(nodes), maxDyn, map[], [], false, false, {}), map[], [], [], now, [],
           set n | n in nodes :: n.id)
  }

  /** scheduleTasks: fills the free slots; the list of waiting tasks is stored only if some slot
      was free. */
  function Schedule(s: Server, added: seq<Task>): Server
    requires |s.tasks| <= MAX_ACTIVE_TASKS
  {
    var pt := s.pending + added;
    var start := Min(MAX_ACTIVE_TASKS - |s.tasks|, |pt|);
    if start > 0 then s.(tasks := s.tasks + pt[..start], pending := pt[start..]) else s
  }

  function Emissions(ts: seq<Task>, now: int): seq<Emission> {
    if ts == [] then []
    else
      var es, last := Emissions(ts[..|ts| - 1], now), ts[|ts| - 1];
      if last.Dial? then es + [Emission(last.dest.id, now)] else es
  }

  ghost function RoundPlan(s: Server, c: Choice): Plan
    requires ChoiceOk(s.dialer, c)
  {
    PlanTasks(s.dialer, |s.pending| + |s.tasks|, s.peers, c)
  }

  /** The state at the select statement. */
  ghost function Round(s: Server, c: Choice): Server
    requires ChoiceOk(s.dialer, c) && |s.tasks| <= MAX_ACTIVE_TASKS
  {
    var p := RoundPlan(s, c);
    Schedule(s.(dialer := p.dialer, now := c.now, log := s.log + Emissions(p.tasks, c.now)), p.tasks)
  }

  /** delTask: removes the first occurrence of `t`. */
  function Without(ts: seq<Task>, t: Task): seq<Task> {
    if ts == [] then [] else if ts[0] == t then ts[1..] else [ts[0]] + Without(ts[1..], t)
  }

  predicate EventOk(s: Server, e: Event) {
    match e
    case Connected(t) => t in s.tasks && t.Dial?
    case Finished(t, result) => t in s.tasks && (t.Discover? && t.bootstrap ==> result == [])
    case _ => true
  }

  function Apply(s: Server, e: Event): Server
    requires EventOk(s, e)
  {
    match e
    case AddStatic(n) =>
      s.(dialer := s.dialer.(statics := s.dialer.statics[n.id := n]), everStatic := s.everStatic + {n.id})
    case RemoveStatic(id) =>
      s.(dialer := s.dialer.(statics := s.dialer.statics - {id}), peers := s.peers - {id})
    case Connected(t) => s.(peers := s.peers[t.dest.id := t.flag])
    case Accepted(id) => s.(peers := s.peers[id := FLAG_INBOUND])
    case Finished(t, result) => s.(dialer := AfterTask(s.dialer, t, result, s.now), tasks := Without(s.tasks, t))
    case PeerGone(id) => s.(peers := s.peers - {id})
  }

  ghost predicate Enabled(s: Server, x: Turn) {
    ChoiceOk(s.dialer, x.choice) && |s.tasks| <= MAX_ACTIVE_TASKS && EventOk(Round(s, x.choice), x.event)
  }

  ghost function Next(s: Server, x: Turn): Server
    requires Enabled(s, x)
  {
    Apply(Round(s, x.choice), x.event)
  }

  ghost predicate IsRun(s: Server, xs: seq<Turn>)
    decreases |xs|, 0
  {
    xs == [] || (IsRun(s, xs[..|xs| - 1]) && Enabled(Exec(s, xs[..|xs| - 1]), xs[|xs| - 1]))
  }

  ghost function Exec(s: Server, xs: seq<Turn>): Server
    requires IsRun(s, xs)
    decreases |xs|, 1
  {
    if xs == [] then s else Next(Exec(s, xs[..|xs| - 1]), xs[|xs| - 1])
  }

  // ---------- Outstanding tasks ----------

  ghost predicate AtMostOneEach(ts: seq<Task>) {
    forall i, j :: 0 <= i < j < |ts| ==> !(ts[i].Discover? && ts[j].Discover?) && !(ts[i].WaitExpire? && ts[j].WaitExpire?)
  }

  /** Outstanding dials are of distinct nodes and recorded in `dialing` with their flag; at most one
      lookup and one wait are outstanding, a lookup only while lookupRunning is set. */
  ghost predicate TasksOk(d: Dialer, ts: seq<Task>) {
    && DistinctDials(ts) && AtMostOneEach(ts)
    && (forall i :: 0 <= i < |ts| && ts[i].Dial? ==> ts[i].dest.id in d.dialing && d.dialing[ts[i].dest.id] == ts[i].flag)
    && (forall i :: 0 <= i < |ts| && ts[i].Discover? ==> d.lookupRunning)
  }

  /** Fresh tasks keep the outstanding ones in order: new dials are of nodes not being dialed, a
      lookup appears only if none runs, a wait only if nothing is outstanding. */
  lemma AppendTasksOk(d: Dialer, e: Dialer, ts: seq<Task>, added: seq<Task>)
    requires TasksOk(d, ts) && TasksOk(e, added)
    requires forall id :: id in d.dialing ==> id in e.dialing && e.dialing[id] == d.dialing[id]
    requires d.lookupRunning ==> e.lookupRunning
    requires forall i :: 0 <= i < |added| && added[i].Dial? ==> added[i].dest.id !in d.dialing
    requires forall i :: 0 <= i < |added| && added[i].Discover? ==> !d.lookupRunning
    requires forall i :: 0 <= i < |added| && added[i].WaitExpire? ==> ts == []
    ensures TasksOk(e, ts + added)
  {
  }

  /** A batch of dials with at most one other task behind it is in order. */
  lemma BatchTasksOk(base: map<NodeId, Flag>, busy: set<NodeId>, a: Acc, e: Dialer, ts: seq<Task>)
    requires IsBatch(base, busy, a) && e.dialing == a.dialing
    requires a.tasks <= ts && |ts| <= |a.tasks| + 1
    requires |ts| > |a.tasks| ==> !ts[|a.tasks|].Dial? && (ts[|a.tasks|].Discover? ==> e.lookupRunning)
    ensures TasksOk(e, ts)
  {
  }

  lemma PlanTasksOk(d: Dialer, nRunning: nat, peers: map<NodeId, Flag>, c: Choice)
    requires ChoiceOk(d, c)
    ensures TasksOk(PlanTasks(d, nRunning, peers, c).dialer, PlanTasks(d, nRunning, peers, c).tasks)
  {
    var p, a := PlanTasks(d, nRunning, peers, c), BufferPhase(d, peers, c).0;
    RoundDialsFresh(d, peers, c);
    assert p.dialer.dialing == a.dialing && a.tasks == Dials(d, peers, c);
    assert a.tasks <= p.tasks && |p.tasks| <= |a.tasks| + 1 && (|p.tasks| > |a.tasks| ==> !p.tasks[|a.tasks|].Dial?) by {
      RoundExtraTask(d, nRunning, peers, c);
    }
    if |p.tasks| > |a.tasks| && p.tasks[|a.tasks|].Discover? {
      RoundExtraTask(d, nRunning, peers, c);
      assert p.tasks[|a.tasks|] in p.tasks;
    }
    hide PlanTasks, BufferPhase, TasksOk, IsBatch;
    BatchTasksOk(d.dialing, Busy(d, peers, c.now), a, p.dialer, p.tasks);
  }

  /** The tasks of a round against the state before it: new dials are of nodes not being dialed, a lookup
      means none was running, a wait means nothing was. */
  lemma PlanTasksFresh(d: Dialer, nRunning: nat, peers: map<NodeId, Flag>, c: Choice, i: nat)
    requires ChoiceOk(d, c) && i < |PlanTasks(d, nRunning, peers, c).tasks|
    ensures var t := PlanTasks(d, nRunning, peers, c).tasks[i];
            && (t.Dial? ==> t.dest.id !in d.dialing)
            && (t.Discover? ==> !d.lookupRunning)
            && (t.WaitExpire? ==> nRunning == 0)
  {
    var ts := PlanTasks(d, nRunning, peers, c).tasks;
    assert ts[i] in ts;
    RoundExtraTask(d, nRunning, peers, c);
    if ts[i].Dial? {
      assert i < |Dials(d, peers, c)| && ts[i] == Dials(d, peers, c)[i];
      RoundDialsFresh(d, peers, c);
    }
  }

  /** A round never forgets a node being dialed, nor that a lookup is running. */
  lemma PlanKeeps(d: Dialer, nRunning: nat, peers: map<NodeId, Flag>, c: Choice)
    requires ChoiceOk(d, c)
    ensures var e := PlanTasks(d, nRunning, peers, c).dialer;
            && (forall id :: id in d.dialing ==> id in e.dialing && e.dialing[id] == d.dialing[id])
            && (d.lookupRunning ==> e.lookupRunning)
  {
    RoundDialsFresh(d, peers, c);
  }

  lemma RoundTasksOk(s: Server, c: Choice)
    requires ChoiceOk(s.dialer, c) && TasksOk(s.dialer, Outstanding(s))
    ensures TasksOk(RoundPlan(s, c).dialer, Outstanding(s) + RoundPlan(s, c).tasks)
  {
    var d, p, n := s.dialer, RoundPlan(s, c), |s.pending| + |s.tasks|;
    PlanTasksOk(d, n, s.peers, c);
    PlanKeeps(d, n, s.peers, c);
    forall i | 0 <= i < |p.tasks|
      ensures p.tasks[i].Dial? ==> p.tasks[i].dest.id !in d.dialing
      ensures p.tasks[i].Discover? ==> !d.lookupRunning
      ensures p.tasks[i].WaitExpire? ==> Outstanding(s) == []
    {
      PlanTasksFresh(d, n, s.peers, c, i);
    }
    AppendTasksOk(d, p.dialer, Outstanding(s), p.tasks);
  }

  lemma {:induction false} WithoutIsRemoval(ts: seq<Task>, t: Task) returns (k: nat)
    requires t in ts
    ensures k < |ts| && ts[k] == t && Without(ts, t) == ts[..k] + ts[k + 1..]
  {
    if ts[0] == t {
      k := 0;
    } else {
      k := WithoutIsRemoval(ts[1..], t);
      k := k + 1;
    }
  }

  lemma FinishedTasksOk(d: Dialer, ts: seq<Task>, k: nat, result: seq<Node>, now: int)
    requires TasksOk(d, ts) && k < |ts|
    ensures TasksOk(AfterTask(d, ts[k], result, now), ts[..k] + ts[k + 1..])
  {
  }

  // ---------- The quota of dynamic peers ----------

  /** The nodes that are dynamic peers or being dialed as such. */
  ghost function DynIds(s: Server): set<NodeId> {
    DynKeys(s.peers) + DynKeys(s.dialer.dialing)
  }

  lemma CardMono<T>(a: set<T>, b: set<T>)
    requires a <= b
    ensures |a| <= |b| && (|a| == |b| ==> a == b)
  {
    assert b == a + (b - a);
  }

  lemma RoundQuotaKept(s: Server, c: Choice)
    requires ChoiceOk(s.dialer, c) && |DynIds(s)| <= s.dialer.maxDyn
    ensures |DynKeys(s.peers) + DynKeys(RoundPlan(s, c).dialer.dialing)| <= s.dialer.maxDyn
  {
    var before, after := DynKeys(s.dialer.dialing), DynKeys(RoundPlan(s, c).dialer.dialing);
    RoundDialsFresh(s.dialer, s.peers, c);
    RoundQuota(s.dialer, s.peers, c);
    assert before <= after;
    CardMono(before, after);
    if after != before {
      assert |DynKeys(s.peers) + after| <= |DynKeys(s.peers)| + |after|;
    }
  }

  // ---------- The invariant of every run ----------

  /** Holds at the top of the loop and at the select statement. */
  ghost predicate Inv(s: Server) {
    && |s.tasks| <= MAX_ACTIVE_TASKS
    && (s.pending != [] ==> |s.tasks| >= MAX_ACTIVE_TASKS - 1)
    && DialerOk(s.dialer)
    && TasksOk(s.dialer, Outstanding(s))
    && |DynIds(s)| <= s.dialer.maxDyn
    && s.dialer.statics.Keys <= s.everStatic
    && (forall id :: id in s.dialer.dialing && !IsDynamic(s.dialer.dialing[id]) ==> id in s.everStatic)
  }

  /** At the select statement tasks wait only while all slots are taken. */
  ghost predicate AtSelect(s: Server) {
    Inv(s) && (s.pending != [] ==> |s.tasks| == MAX_ACTIVE_TASKS)
  }

  /** What scheduleTasks does to the outstanding tasks: it appends the new ones, or, exactly when all
      slots are taken and there are new ones, drops them. */
  lemma ScheduleKeepsOrDrops(s: Server, added: seq<Task>)
    requires |s.tasks| <= MAX_ACTIVE_TASKS
    ensures var r, full := Schedule(s, added), |s.tasks| == MAX_ACTIVE_TASKS;
            && |r.tasks| <= MAX_ACTIVE_TASKS
            && (!full ==> Outstanding(r) == Outstanding(s) + added)
            && (full ==> Outstanding(r) == Outstanding(s))
            && (Outstanding(r) == Outstanding(s) + added <==> !full || added == [])
            && (r.pending != [] && (s.pending != [] ==> |s.tasks| >= MAX_ACTIVE_TASKS - 1) ==> |r.tasks| == MAX_ACTIVE_TASKS)
  {
  }

  lemma RoundStaticsRecorded(s: Server, c: Choice)
    requires ChoiceOk(s.dialer, c) && Inv(s)
    ensures var dialing := RoundPlan(s, c).dialer.dialing;
            forall id :: id in dialing && !IsDynamic(dialing[id]) ==> id in s.everStatic
  {
    RoundDialsFresh(s.dialer, s.peers, c);
    RoundDialsSources(s.dialer, s.peers, c);
    var ds, k := Dials(s.dialer, s.peers, c), NStatic(s.dialer, s.peers, c);
    var dialing := RoundPlan(s, c).dialer.dialing;
    forall id | id in dialing && !IsDynamic(dialing[id])
      ensures id in s.everStatic
    {
      if id !in s.dialer.dialing {
        assert id in DialIds(ds);
        var i :| 0 <= i < |ds| && ds[i].dest.id == id;
        assert i < k by {
          assert IsDynamic(DYNAMIC_DIAL);
        }
        var key :| key in s.dialer.statics && s.dialer.statics[key] == ds[i].dest;
      }
    }
  }

  lemma TasksOkPrefix(d: Dialer, ts: seq<Task>, us: seq<Task>)
    requires TasksOk(d, ts + us)
    ensures TasksOk(d, ts)
  {
    assert forall i :: 0 <= i < |ts| ==> ts[i] == (ts + us)[i];
  }

  /** What a round does to the outstanding tasks. */
  lemma RoundOutstanding(s: Server, c: Choice)
    requires ChoiceOk(s.dialer, c) && |s.tasks| <= MAX_ACTIVE_TASKS
    ensures var r, made := Round(s, c), RoundPlan(s, c).tasks;
            && r.dialer == RoundPlan(s, c).dialer && |r.tasks| <= MAX_ACTIVE_TASKS
            && Outstanding(r) == (if |s.tasks| == MAX_ACTIVE_TASKS then Outstanding(s) else Outstanding(s) + made)
            && (r.pending != [] && (s.pending != [] ==> |s.tasks| >= MAX_ACTIVE_TASKS - 1) ==> |r.tasks| == MAX_ACTIVE_TASKS)
  {
    var p := RoundPlan(s, c);
    ScheduleKeepsOrDrops(s.(dialer := p.dialer, now := c.now, log := s.log + Emissions(p.tasks, c.now)), p.tasks);
  }

  lemma RoundInv(s: Server, c: Choice)
    requires ChoiceOk(s.dialer, c) && Inv(s)
    ensures AtSelect(Round(s, c))
  {
    RoundOutstanding(s, c);
    RoundFrame(s, c);
    assert TasksOk(RoundPlan(s, c).dialer, Outstanding(Round(s, c))) by {
      RoundTasksOk(s, c);
      TasksOkPrefix(RoundPlan(s, c).dialer, Outstanding(s), RoundPlan(s, c).tasks);
    }
    RoundQuotaKept(s, c);
    RoundStaticsRecorded(s, c);
  }

  /** Events other than a finished task leave the outstanding tasks and `dialing` alone. */
  lemma OtherEventInv(s: Server, e: Event)
    requires AtSelect(s) && EventOk(s, e) && !e.Finished?
    ensures var r := Apply(s, e);
            && Outstanding(r) == Outstanding(s) && |r.tasks| == |s.tasks| && r.pending == s.pending
            && r.dialer.dialing == s.dialer.dialing && r.dialer.lookupRunning == s.dialer.lookupRunning
            && r.dialer.maxDyn == s.dialer.maxDyn
            && DialerOk(r.dialer) && r.dialer.statics.Keys <= r.everStatic && s.everStatic <= r.everStatic
  {
  }

  /** Connecting a dialed node only moves it from one side of the quota to the other, and every other
      event only shrinks the set of dynamic nodes. */
  lemma EventQuota(s: Server, e: Event)
    requires AtSelect(s) && EventOk(s, e)
    ensures DynIds(Apply(s, e)) <= DynIds(s)
  {
    match e
    case Connected(t) =>
      var i :| 0 <= i < |s.tasks| && s.tasks[i] == t;
      assert Outstanding(s)[i] == t;
    case Accepted(id) =>
      assert !IsDynamic(FLAG_INBOUND);
    case _ =>
  }

  lemma RemoveFromFront(ts: seq<Task>, us: seq<Task>, k: nat)
    requires k < |ts|
    ensures ts[..k] + ts[k + 1..] + us == (ts + us)[..k] + (ts + us)[k + 1..]
  {
  }

  lemma FinishedInv(s: Server, e: Event)
    requires AtSelect(s) && EventOk(s, e) && e.Finished?
    ensures TasksOk(Apply(s, e).dialer, Outstanding(Apply(s, e)))
    ensures |Apply(s, e).tasks| == |s.tasks| - 1
  {
    var k := WithoutIsRemoval(s.tasks, e.task);
    var out := Outstanding(s);
    RemoveFromFront(s.tasks, s.pending, k);
    assert out[k] == e.task && Outstanding(Apply(s, e)) == out[..k] + out[k + 1..] by {
      hide TasksOk, AtSelect, AfterTask;
    }
    FinishedTasksOk(s.dialer, out, k, e.result, s.now);
  }

  lemma ApplyInv(s: Server, e: Event)
    requires AtSelect(s) && EventOk(s, e)
    ensures Inv(Apply(s, e))
  {
    EventQuota(s, e);
    CardMono(DynIds(Apply(s, e)), DynIds(s));
    if e.Finished? {
      FinishedInv(s, e);
    } else {
      OtherEventInv(s, e);
      SameTasksOk(s.dialer, Apply(s, e).dialer, Outstanding(s));
    }
  }

  lemma SameTasksOk(d: Dialer, e: Dialer, ts: seq<Task>)
    requires TasksOk(d, ts) && e.dialing == d.dialing && e.lookupRunning == d.lookupRunning
    ensures TasksOk(e, ts)
  {
  }

  lemma {:induction false} StaticMapKeys(ns: seq<Node>)
    ensures forall k :: k in StaticMap(ns) ==> StaticMap(ns)[k].id == k && exists i :: 0 <= i < |ns| && ns[i].id == k
  {
    if ns != [] {
      StaticMapKeys(ns[..|ns| - 1]);
    }
  }

  lemma InitInv(nodes: seq<Node>, maxDyn: nat, now: int)
    ensures Inv(Init(nodes, maxDyn, now))
  {
    StaticMapKeys(nodes);
    assert DynIds(Init(nodes, maxDyn, now)) == {};
  }

  lemma {:induction false} RunInv(s: Server, xs: seq<Turn>)
    requires Inv(s) && IsRun(s, xs)
    ensures Inv(Exec(s, xs))
    decreases |xs|
  {
    if xs != [] {
      var prev, x := Exec(s, xs[..|xs| - 1]), xs[|xs| - 1];
      RunInv(s, xs[..|xs| - 1]);
      RoundInv(prev, x.choice);
      ApplyInv(Round(prev, x.choice), x.event);
    }
  }

  /** What a round leaves alone. */
  lemma RoundFrame(s: Server, c: Choice)
    requires ChoiceOk(s.dialer, c) && |s.tasks| <= MAX_ACTIVE_TASKS
    ensures var r := Round(s, c);
            && r.dialer == RoundPlan(s, c).dialer && r.peers == s.peers && r.everStatic == s.everStatic
            && r.now == c.now && r.log == s.log + Emissions(RoundPlan(s, c).tasks, c.now)
            && r.dialer.maxDyn == s.dialer.maxDyn && r.dialer.statics == s.dialer.statics
            && r.dialer.hist == Live(s.dialer.hist, c.now)
  {
  }

  lemma {:induction false} RunMaxDyn(s: Server, xs: seq<Turn>)
    requires IsRun(s, xs)
    ensures Exec(s, xs).dialer.maxDyn == s.dialer.maxDyn
    decreases |xs|
  {
    if xs != [] {
      var prev, x := Exec(s, xs[..|xs| - 1]), xs[|xs| - 1];
      RunMaxDyn(s, xs[..|xs| - 1]);
      RoundFrame(prev, x.choice);
      assert Apply(Round(prev, x.choice), x.event).dialer.maxDyn == Round(prev, x.choice).dialer.maxDyn;
    }
  }
}
