/** What holds over every run of the server loop. */
module ServerRuns {
  import opened NodeTypes
  import opened DialState
  import opened ServerLoop

  /** A run of the loop from its start, up to the select statement of one more round. */
  ghost predicate RunsTo(nodes: seq<Node>, maxDyn: nat, now: int, xs: seq<Turn>, c: Choice) {
    && IsRun(Init(nodes, maxDyn, now), xs)
    && ChoiceOk(Exec(Init(nodes, maxDyn, now), xs).dialer, c)
    && |Exec(Init(nodes, maxDyn, now), xs).tasks| <= MAX_ACTIVE_TASKS
  }

  ghost function SelectState(nodes: seq<Node>, maxDyn: nat, now: int, xs: seq<Turn>, c: Choice): Server
    requires RunsTo(nodes, maxDyn, now, xs, c)
  {
    Round(Exec(Init(nodes, maxDyn, now), xs), c)
  }

  lemma SelectInv(nodes: seq<Node>, maxDyn: nat, now: int, xs: seq<Turn>, c: Choice)
    requires RunsTo(nodes, maxDyn, now, xs, c)
    ensures AtSelect(SelectState(nodes, maxDyn, now, xs, c))
    ensures Inv(Exec(Init(nodes, maxDyn, now), xs))
    ensures SelectState(nodes, maxDyn, now, xs, c).dialer.maxDyn == maxDyn
  {
    InitInv(nodes, maxDyn, now);
    RunInv(Init(nodes, maxDyn, now), xs);
    RunMaxDyn(Init(nodes, maxDyn, now), xs);
    RoundInv(Exec(Init(nodes, maxDyn, now), xs), c);
    RoundFrame(Exec(Init(nodes, maxDyn, now), xs), c);
  }

  /** At every select of every run, whatever the interleaving of connections, disconnections,
      removals and finished tasks: the nodes that are dynamic peers or being dialed as such number
      at most maxDynDials. */
  lemma DynamicQuotaHolds(nodes: seq<Node>, maxDyn: nat, now: int, xs: seq<Turn>, c: Choice)
    requires RunsTo(nodes, maxDyn, now, xs, c)
    ensures |DynIds(SelectState(nodes, maxDyn, now, xs, c))| <= maxDyn
  {
    SelectInv(nodes, maxDyn, now, xs, c);
  }

  /** At every select of every run: at most 16 tasks run, tasks wait only while 16 run, outstanding
      dials are of distinct nodes and carry the flag recorded for them, and at most one lookup and
      one wait are outstanding. */
  lemma OutstandingTasksHold(nodes: seq<Node>, maxDyn: nat, now: int, xs: seq<Turn>, c: Choice)
    requires RunsTo(nodes, maxDyn, now, xs, c)
    ensures var s := SelectState(nodes, maxDyn, now, xs, c);
            && |s.tasks| <= 16 && (s.pending != [] ==> |s.tasks| == 16)
            && DistinctDials(Outstanding(s)) && AtMostOneEach(Outstanding(s))
            && (forall t :: t in Outstanding(s) && t.Dial? ==> t.dest.id in s.dialer.dialing && s.dialer.dialing[t.dest.id] == t.flag)
            && (forall t :: t in Outstanding(s) && t.Discover? ==> s.dialer.lookupRunning)
  {
    SelectInv(nodes, maxDyn, now, xs, c);
  }

  // ---------- No task is lost when the slots suffice ----------

  /** `dialing` is exactly the nodes of outstanding dials, and lookupRunning is set exactly while a
      lookup is outstanding. */
  ghost predicate NothingLost(s: Server) {
    && s.dialer.dialing.Keys == DialIds(Outstanding(s))
    && (s.dialer.lookupRunning <==> exists t :: t in Outstanding(s) && t.Discover?)
  }

  ghost predicate SlotsSuffice(s: Server) {
    |s.everStatic| + s.dialer.maxDyn + 1 <= MAX_ACTIVE_TASKS
  }

  /** While a lookup is recorded as running the buffer is empty and the dynamic quota is not met, so a
      lookup never takes a slot beside a full quota. */
  ghost predicate LookupHasRoom(s: Server) {
    s.dialer.lookupRunning ==> s.dialer.lookupBuf == [] && |DynIds(s)| < s.dialer.maxDyn
  }

  lemma RoundHasRoom(s: Server, c: Choice)
    requires Inv(s) && ChoiceOk(s.dialer, c) && LookupHasRoom(s)
    ensures LookupHasRoom(Round(s, c))
  {
    var d, n, r := s.dialer, |s.pending| + |s.tasks|, Round(s, c);
    RoundFrame(s, c);
    PlanKeeps(d, n, s.peers, c);
    var before, after := DynKeys(d.dialing), DynKeys(r.dialer.dialing);
    assert |DynIds(r)| <= |DynKeys(s.peers)| + |after|;
    if d.lookupRunning {
      EmptyBufferUnmet(d, n, s.peers, c);
      assert before <= after;
      CardMono(before, after);
    } else {
      LookupStartsUnmet(d, n, s.peers, c);
    }
  }

  lemma EventHasRoom(s: Server, e: Event)
    requires AtSelect(s) && EventOk(s, e) && LookupHasRoom(s)
    ensures LookupHasRoom(Apply(s, e))
  {
    EventQuota(s, e);
    CardMono(DynIds(Apply(s, e)), DynIds(s));
  }

  predicate HasLookup(ts: seq<Task>) {
    exists i :: 0 <= i < |ts| && ts[i].Discover?
  }

  predicate HasWait(ts: seq<Task>) {
    exists i :: 0 <= i < |ts| && ts[i].WaitExpire?
  }

  function One(b: bool): nat {
    if b then 1 else 0
  }

  lemma DialIdsStep(init: seq<Task>, last: Task)
    requires DistinctDials(init + [last])
    ensures |DialIds(init + [last])| == |DialIds(init)| + One(last.Dial?)
  {
    var ts := init + [last];
    assert forall i :: 0 <= i < |init| ==> ts[i] == init[i];
    assert ts[|init|] == last;
    DialIdsConcat(init, [last]);
    if last.Dial? {
      assert DialIds([last]) == {last.dest.id};
      assert last.dest.id !in DialIds(init);
    } else {
      assert DialIds([last]) == {};
    }
  }

  lemma OthersStep(init: seq<Task>, last: Task)
    requires AtMostOneEach(init + [last])
    ensures One(HasLookup(init + [last])) == One(HasLookup(init)) + One(last.Discover?)
    ensures One(HasWait(init + [last])) == One(HasWait(init)) + One(last.WaitExpire?)
  {
    var ts := init + [last];
    assert forall i :: 0 <= i < |init| ==> ts[i] == init[i];
    assert ts[|init|] == last;
  }

  /** Outstanding tasks are dials of distinct nodes, at most one lookup and at most one wait. */
  lemma {:induction false} LengthBound(ts: seq<Task>)
    requires DistinctDials(ts) && AtMostOneEach(ts)
    ensures |ts| == |DialIds(ts)| + One(HasLookup(ts)) + One(HasWait(ts))
  {
    if ts != [] {
      var n := |ts| - 1;
      assert ts == ts[..n] + [ts[n]];
      LengthBound(ts[..n]);
      DialIdsStep(ts[..n], ts[n]);
      OthersStep(ts[..n], ts[n]);
    }
  }

  /** The tasks outstanding after a round would fit the slots. */
  lemma RoundFits(s: Server, c: Choice)
    requires Inv(s) && LookupHasRoom(s) && SlotsSuffice(s) && ChoiceOk(s.dialer, c)
    ensures |Outstanding(s) + RoundPlan(s, c).tasks| <= MAX_ACTIVE_TASKS
  {
    var p, all := RoundPlan(s, c), Outstanding(s) + RoundPlan(s, c).tasks;
    RoundTasksOk(s, c);
    LengthBound(all);
    RoundStaticsRecorded(s, c);
    RoundQuotaKept(s, c);
    RoundHasRoom(s, c);
    RoundFrame(s, c);
    assert HasLookup(all) ==> p.dialer.lookupRunning;
    CardMono(DynKeys(p.dialer.dialing), DynKeys(s.peers) + DynKeys(p.dialer.dialing));
    assert DialIds(all) <= s.everStatic + DynKeys(p.dialer.dialing);
    CardMono(DialIds(all), s.everStatic + DynKeys(p.dialer.dialing));
  }

  lemma DialIdsConcat(ts: seq<Task>, us: seq<Task>)
    ensures DialIds(ts + us) == DialIds(ts) + DialIds(us)
  {
  }

  lemma PlanDialIds(d: Dialer, nRunning: nat, peers: map<NodeId, Flag>, c: Choice)
    requires ChoiceOk(d, c)
    ensures DialIds(PlanTasks(d, nRunning, peers, c).tasks) == DialIds(Dials(d, peers, c))
  {
  }

  /** A round's tasks account for every change it makes to `dialing` and lookupRunning. */
  lemma PlanAccounts(d: Dialer, nRunning: nat, peers: map<NodeId, Flag>, c: Choice)
    requires ChoiceOk(d, c)
    ensures var p := PlanTasks(d, nRunning, peers, c);
            && p.dialer.dialing.Keys == d.dialing.Keys + DialIds(p.tasks)
            && (p.dialer.lookupRunning <==> d.lookupRunning || exists t :: t in p.tasks && t.Discover?)
  {
    var p := PlanTasks(d, nRunning, peers, c);
    assert p.dialer.dialing.Keys == d.dialing.Keys + DialIds(p.tasks) by {
      RoundDialsFresh(d, peers, c);
      PlanDialIds(d, nRunning, peers, c);
    }
    assert p.dialer.lookupRunning <==> d.lookupRunning || exists t :: t in p.tasks && t.Discover? by {
      RoundExtraTask(d, nRunning, peers, c);
      assert d.lookupRunning ==> p.dialer.lookupRunning;
    }
  }

  lemma NothingLostAppend(s: Server, r: Server, added: seq<Task>)
    requires NothingLost(s) && Outstanding(r) == Outstanding(s) + added
    requires r.dialer.dialing.Keys == s.dialer.dialing.Keys + DialIds(added)
    requires r.dialer.lookupRunning <==> s.dialer.lookupRunning || exists t :: t in added && t.Discover?
    ensures NothingLost(r)
  {
  }

  lemma RoundLosesNothing(s: Server, c: Choice)
    requires Inv(s) && LookupHasRoom(s) && SlotsSuffice(s) && ChoiceOk(s.dialer, c) && NothingLost(s)
    ensures NothingLost(Round(s, c)) && Outstanding(Round(s, c)) == Outstanding(s) + RoundPlan(s, c).tasks
  {
    RoundFits(s, c);
    RoundOutstanding(s, c);
    if |s.tasks| == MAX_ACTIVE_TASKS {
      assert RoundPlan(s, c).tasks == [];
      assert Outstanding(s) + [] == Outstanding(s);
    }
    PlanAccounts(s.dialer, |s.pending| + |s.tasks|, s.peers, c);
    NothingLostAppend(s, Round(s, c), RoundPlan(s, c).tasks);
  }

  lemma RemovalAccounts(d: Dialer, ts: seq<Task>, k: nat)
    requires TasksOk(d, ts) && k < |ts|
    ensures var rest := ts[..k] + ts[k + 1..];
            && DialIds(rest) == DialIds(ts) - (if ts[k].Dial? then {ts[k].dest.id} else {})
            && (ts[k].Discover? ==> forall t :: t in rest ==> !t.Discover?)
            && (!ts[k].Discover? ==> ((exists t :: t in rest && t.Discover?) <==> exists t :: t in ts && t.Discover?))
  {
  }

  /** Finishing a running task removes it, at some position, from the outstanding ones. */
  lemma FinishedRemoves(s: Server, e: Event) returns (k: nat)
    requires EventOk(s, e) && e.Finished?
    ensures var out := Outstanding(s);
            k < |out| && out[k] == e.task && Outstanding(Apply(s, e)) == out[..k] + out[k + 1..]
  {
    k := WithoutIsRemoval(s.tasks, e.task);
  }

  lemma EventLosesNothing(s: Server, e: Event)
    requires AtSelect(s) && NothingLost(s) && EventOk(s, e)
    ensures NothingLost(Apply(s, e))
  {
    if e.Finished? {
      var k := FinishedRemoves(s, e);
      RemovalAccounts(s.dialer, Outstanding(s), k);
    } else {
      OtherEventInv(s, e);
    }
  }

  lemma StaticsOnlyGrow(s: Server, x: Turn)
    requires Enabled(s, x)
    ensures s.everStatic <= Next(s, x).everStatic && Next(s, x).dialer.maxDyn == s.dialer.maxDyn
  {
    hide Round, RoundPlan;
    RoundFrame(s, x.choice);
  }

  lemma {:induction false} RunLosesNothing(s: Server, xs: seq<Turn>)
    requires Inv(s) && LookupHasRoom(s) && NothingLost(s) && IsRun(s, xs) && SlotsSuffice(Exec(s, xs))
    ensures Inv(Exec(s, xs)) && LookupHasRoom(Exec(s, xs)) && NothingLost(Exec(s, xs))
    decreases |xs|
  {
    if xs != [] {
      var prev, x := Exec(s, xs[..|xs| - 1]), xs[|xs| - 1];
      StaticsOnlyGrow(prev, x);
      CardMono(prev.everStatic, Exec(s, xs).everStatic);
      RunLosesNothing(s, xs[..|xs| - 1]);
      RoundLosesNothing(prev, x.choice);
      RoundInv(prev, x.choice);
      RoundHasRoom(prev, x.choice);
      EventHasRoom(Round(prev, x.choice), x.event);
      EventLosesNothing(Round(prev, x.choice), x.event);
      ApplyInv(Round(prev, x.choice), x.event);
    }
  }

  /** If the static nodes ever added, the dynamic quota and one more task fit the 16 slots, no run
      ever loses a task: at every select `dialing` is exactly the outstanding dials with their flags,
      and lookupRunning is set exactly while a lookup is outstanding. */
  lemma NoTaskLost(nodes: seq<Node>, maxDyn: nat, now: int, xs: seq<Turn>, c: Choice)
    requires RunsTo(nodes, maxDyn, now, xs, c)
    requires |Exec(Init(nodes, maxDyn, now), xs).everStatic| + maxDyn + 1 <= 16
    ensures var s, prev := SelectState(nodes, maxDyn, now, xs, c), Exec(Init(nodes, maxDyn, now), xs);
            && NothingLost(s) && s.pending == []
            && Outstanding(s) == Outstanding(prev) + RoundPlan(prev, c).tasks
            && (forall t :: t in Outstanding(s) && t.Dial? ==> s.dialer.dialing[t.dest.id] == t.flag)
  {
    var s0 := Init(nodes, maxDyn, now);
    InitInv(nodes, maxDyn, now);
    RunMaxDyn(s0, xs);
    RunLosesNothing(s0, xs);
    RoundLosesNothing(Exec(s0, xs), c);
    SelectInv(nodes, maxDyn, now, xs, c);
    RoundFits(Exec(s0, xs), c);
  }

  // ---------- A lost task is never replaced ----------

  /** A node recorded as being dialed although no dial of it is outstanding. */
  ghost predicate Stranded(s: Server, id: NodeId) {
    id in s.dialer.dialing && id !in DialIds(Outstanding(s))
  }

  /** A lookup recorded as running although none is outstanding. */
  ghost predicate LookupStranded(s: Server) {
    s.dialer.lookupRunning && forall t :: t in Outstanding(s) ==> !t.Discover?
  }

  /** Tasks that a later round could add are not among the outstanding ones. */
  lemma AddedAreNew(d: Dialer, ts: seq<Task>, added: seq<Task>)
    requires TasksOk(d, ts + added)
    ensures DialIds(ts) !! DialIds(added)
    ensures (exists t :: t in added && t.Discover?) ==> forall t :: t in ts ==> !t.Discover?
  {
    var all := ts + added;
    assert forall i :: 0 <= i < |ts| ==> ts[i] == all[i];
    assert forall j :: 0 <= j < |added| ==> added[j] == all[|ts| + j];
  }

  /** Exactly when a round loses tasks: all slots are taken and the round makes some. Every dial it
      makes then strands its node, and a lookup it makes strands the lookup flag. */
  lemma LossExactlyWhenFull(s: Server, c: Choice)
    requires Inv(s) && ChoiceOk(s.dialer, c)
    ensures var r, made := Round(s, c), RoundPlan(s, c).tasks;
            && (Outstanding(r) != Outstanding(s) + made <==> |s.tasks| == MAX_ACTIVE_TASKS && made != [])
            && (|s.tasks| == MAX_ACTIVE_TASKS ==>
                  && (forall id :: id in DialIds(made) ==> Stranded(r, id))
                  && ((exists t :: t in made && t.Discover?) ==> LookupStranded(r)))
  {
    var made := RoundPlan(s, c).tasks;
    RoundOutstanding(s, c);
    assert |Outstanding(s) + made| == |Outstanding(s)| + |made|;
    assert made == [] ==> Outstanding(s) + made == Outstanding(s);
    RoundTasksOk(s, c);
    AddedAreNew(RoundPlan(s, c).dialer, Outstanding(s), made);
    PlanAccounts(s.dialer, |s.pending| + |s.tasks|, s.peers, c);
  }

  /** No round dials a node recorded as being dialed. */
  lemma DialingNotRedialed(s: Server, c: Choice, id: NodeId)
    requires ChoiceOk(s.dialer, c) && id in s.dialer.dialing
    ensures id !in DialIds(RoundPlan(s, c).tasks)
  {
    var ts := RoundPlan(s, c).tasks;
    if t :| t in ts && t.Dial? && t.dest.id == id {
      var i :| 0 <= i < |ts| && ts[i] == t;
      PlanTasksFresh(s.dialer, |s.pending| + |s.tasks|, s.peers, c, i);
      assert false;
    }
  }

  lemma StrandedRound(s: Server, c: Choice, id: NodeId)
    requires Inv(s) && ChoiceOk(s.dialer, c) && Stranded(s, id)
    ensures Stranded(Round(s, c), id)
  {
    DialingNotRedialed(s, c, id);
    PlanAccounts(s.dialer, |s.pending| + |s.tasks|, s.peers, c);
    RoundOutstanding(s, c);
    DialIdsConcat(Outstanding(s), RoundPlan(s, c).tasks);
  }

  lemma StrandedEvent(s: Server, e: Event, id: NodeId)
    requires AtSelect(s) && EventOk(s, e) && Stranded(s, id)
    ensures Stranded(Apply(s, e), id)
  {
    if e.Finished? {
      var k := FinishedRemoves(s, e);
      RemovalAccounts(s.dialer, Outstanding(s), k);
      assert Outstanding(s)[k] in Outstanding(s);
    } else {
      OtherEventInv(s, e);
    }
  }

  /** A stranded node is never dialed again, in any continuation of the run. */
  lemma {:induction false} StrandedForever(s: Server, xs: seq<Turn>, id: NodeId)
    requires Inv(s) && IsRun(s, xs) && Stranded(s, id)
    ensures Inv(Exec(s, xs)) && Stranded(Exec(s, xs), id)
    ensures s.log <= Exec(s, xs).log
    ensures forall e :: e in Exec(s, xs).log[|s.log|..] ==> e.id != id
    decreases |xs|
  {
    if xs != [] {
      var prev, x := Exec(s, xs[..|xs| - 1]), xs[|xs| - 1];
      StrandedForever(s, xs[..|xs| - 1], id);
      DialingNotRedialed(prev, x.choice, id);
      StrandedRound(prev, x.choice, id);
      RoundInv(prev, x.choice);
      StrandedEvent(Round(prev, x.choice), x.event, id);
      ApplyInv(Round(prev, x.choice), x.event);
      LogAvoids(s.log, prev, x, id);
    }
  }

  lemma LogAvoids(log: seq<Emission>, s: Server, x: Turn, id: NodeId)
    requires Enabled(s, x) && log <= s.log && id !in DialIds(RoundPlan(s, x.choice).tasks)
    requires forall e :: e in s.log[|log|..] ==> e.id != id
    ensures log <= Next(s, x).log && forall e :: e in Next(s, x).log[|log|..] ==> e.id != id
  {
    var added := NextLog(s, x);
    assert (s.log + added)[|log|..] == s.log[|log|..] + added;
  }

  /** One turn extends the log by one emission for each dial of its round. */
  lemma NextLog(s: Server, x: Turn) returns (added: seq<Emission>)
    requires Enabled(s, x)
    ensures added == Emissions(RoundPlan(s, x.choice).tasks, x.choice.now)
    ensures Next(s, x).log == s.log + added
    ensures forall e :: e in added ==> e.time == x.choice.now && e.id in DialIds(RoundPlan(s, x.choice).tasks)
  {
    added := Emissions(RoundPlan(s, x.choice).tasks, x.choice.now);
    RoundFrame(s, x.choice);
    EmissionsSources(RoundPlan(s, x.choice).tasks, x.choice.now);
  }

  lemma {:induction false} EmissionsSources(ts: seq<Task>, now: int)
    ensures forall e :: e in Emissions(ts, now) ==> e.time == now && e.id in DialIds(ts)
    ensures forall id :: id in DialIds(ts) ==> Emission(id, now) in Emissions(ts, now)
  {
    if ts != [] {
      var n := |ts| - 1;
      EmissionsSources(ts[..n], now);
      assert ts == ts[..n] + [ts[n]];
      DialIdsConcat(ts[..n], [ts[n]]);
      assert ts[n].Dial? ==> DialIds([ts[n]]) == {ts[n].dest.id};
      assert !ts[n].Dial? ==> DialIds([ts[n]]) == {};
    }
  }

  /** No round starts a lookup while one is recorded as running. */
  lemma RunningNotRestarted(s: Server, c: Choice)
    requires ChoiceOk(s.dialer, c) && s.dialer.lookupRunning
    ensures forall t :: t in RoundPlan(s, c).tasks ==> !t.Discover?
  {
    var ts := RoundPlan(s, c).tasks;
    forall t | t in ts
      ensures !t.Discover?
    {
      var i :| 0 <= i < |ts| && ts[i] == t;
      PlanTasksFresh(s.dialer, |s.pending| + |s.tasks|, s.peers, c, i);
    }
  }

  lemma LookupStrandedRound(s: Server, c: Choice)
    requires Inv(s) && ChoiceOk(s.dialer, c) && LookupStranded(s)
    ensures LookupStranded(Round(s, c))
  {
    RunningNotRestarted(s, c);
    RoundOutstanding(s, c);
    PlanKeeps(s.dialer, |s.pending| + |s.tasks|, s.peers, c);
  }

  lemma LookupStrandedEvent(s: Server, e: Event)
    requires AtSelect(s) && EventOk(s, e) && LookupStranded(s)
    ensures LookupStranded(Apply(s, e))
  {
    if e.Finished? {
      var k := FinishedRemoves(s, e);
      assert Outstanding(s)[k] in Outstanding(s);
    } else {
      OtherEventInv(s, e);
    }
  }

  /** A stranded lookup is never restarted: no later round makes a lookup task. */
  lemma {:induction false} LookupStrandedForever(s: Server, xs: seq<Turn>, c: Choice)
    requires Inv(s) && IsRun(s, xs) && LookupStranded(s)
    requires ChoiceOk(Exec(s, xs).dialer, c)
    ensures Inv(Exec(s, xs)) && LookupStranded(Exec(s, xs))
    ensures forall t :: t in RoundPlan(Exec(s, xs), c).tasks ==> !t.Discover?
    decreases |xs|
  {
    var last := Exec(s, xs);
    if xs != [] {
      var prev, x := Exec(s, xs[..|xs| - 1]), xs[|xs| - 1];
      LookupStrandedForever(s, xs[..|xs| - 1], x.choice);
      LookupStrandedRound(prev, x.choice);
      RoundInv(prev, x.choice);
      LookupStrandedEvent(Round(prev, x.choice), x.event);
      ApplyInv(Round(prev, x.choice), x.event);
    }
    RunningNotRestarted(last, c);
  }

  // ---------- Redials are more than thirty seconds apart ----------

  /** The loop's clock never goes back. */
  ghost predicate ClockOk(s: Server, xs: seq<Turn>)
    requires IsRun(s, xs)
  {
    xs == [] || (ClockOk(s, xs[..|xs| - 1]) && xs[|xs| - 1].choice.now >= Exec(s, xs[..|xs| - 1]).now)
  }

  /** Why a node dialed at `e.time` cannot be dialed again yet, or that it can. */
  ghost predicate Remembered(s: Server, e: Emission) {
    || e.id in s.dialer.dialing
    || (exists p :: p in s.dialer.hist && p.id == e.id && p.exp >= e.time + DIAL_HISTORY_EXPIRATION)
    || s.now > e.time + DIAL_HISTORY_EXPIRATION
  }

  ghost predicate Spaced(log: seq<Emission>) {
    forall i, j :: 0 <= i < j < |log| && log[i].id == log[j].id ==> log[j].time > log[i].time + DIAL_HISTORY_EXPIRATION
  }

  ghost predicate LogOk(s: Server) {
    Spaced(s.log) && forall i :: 0 <= i < |s.log| ==> s.log[i].time <= s.now && Remembered(s, s.log[i])
  }

  ghost predicate DistinctEmissions(es: seq<Emission>) {
    forall i, j :: 0 <= i < j < |es| ==> es[i].id != es[j].id
  }

  lemma {:induction false} EmissionsDistinct(ts: seq<Task>, now: int)
    requires DistinctDials(ts)
    ensures DistinctEmissions(Emissions(ts, now))
  {
    if ts != [] {
      var n := |ts| - 1;
      var es, last := Emissions(ts[..n], now), ts[n];
      EmissionsDistinct(ts[..n], now);
      EmissionsSources(ts[..n], now);
      if last.Dial? {
        assert last.dest.id !in DialIds(ts[..n]);
        forall i | 0 <= i < |es|
          ensures es[i].id != last.dest.id
        {
          assert es[i] in es;
        }
        assert Emissions(ts, now) == es + [Emission(last.dest.id, now)];
      } else {
        assert Emissions(ts, now) == es;
      }
    }
  }

  /** A round redials a node only when every earlier dial of it is long past. */
  lemma RoundRedials(s: Server, c: Choice, e: Emission)
    requires Inv(s) && ChoiceOk(s.dialer, c) && c.now >= s.now && Remembered(s, e)
    ensures e.id in DialIds(RoundPlan(s, c).tasks) ==> c.now > e.time + DIAL_HISTORY_EXPIRATION
  {
    if e.id in DialIds(RoundPlan(s, c).tasks) {
      PlanDialIds(s.dialer, |s.pending| + |s.tasks|, s.peers, c);
      RoundDialsFresh(s.dialer, s.peers, c);
      assert e.id !in s.dialer.dialing && e.id !in HistIds(Live(s.dialer.hist, c.now));
      if p :| p in s.dialer.hist && p.id == e.id && p.exp >= e.time + DIAL_HISTORY_EXPIRATION {
        assert p !in Live(s.dialer.hist, c.now);
      }
    }
  }

  lemma RoundRemembers(s: Server, c: Choice, e: Emission)
    requires Inv(s) && ChoiceOk(s.dialer, c) && c.now >= s.now && Remembered(s, e)
    ensures Remembered(Round(s, c), e)
  {
    RoundFrame(s, c);
    PlanAccounts(s.dialer, |s.pending| + |s.tasks|, s.peers, c);
    if e.id !in s.dialer.dialing && s.now <= e.time + DIAL_HISTORY_EXPIRATION {
      var p :| p in s.dialer.hist && p.id == e.id && p.exp >= e.time + DIAL_HISTORY_EXPIRATION;
      assert p.exp >= c.now ==> p in Round(s, c).dialer.hist;
    }
  }

  lemma SpacedAppend(log: seq<Emission>, added: seq<Emission>)
    requires Spaced(log) && DistinctEmissions(added)
    requires forall i, j :: 0 <= i < |log| && 0 <= j < |added| && log[i].id == added[j].id ==>
               added[j].time > log[i].time + DIAL_HISTORY_EXPIRATION
    ensures Spaced(log + added)
  {
  }

  lemma RoundSpaced(s: Server, c: Choice)
    requires Inv(s) && ChoiceOk(s.dialer, c) && c.now >= s.now && LogOk(s)
    ensures Spaced(s.log + Emissions(RoundPlan(s, c).tasks, c.now))
  {
    hide Emissions, PlanTasks, DialIds, Remembered, Inv;
    var ts := RoundPlan(s, c).tasks;
    var added := Emissions(ts, c.now);
    PlanTasksOk(s.dialer, |s.pending| + |s.tasks|, s.peers, c);
    EmissionsDistinct(ts, c.now);
    EmissionsSources(ts, c.now);
    forall i, j | 0 <= i < |s.log| && 0 <= j < |added| && s.log[i].id == added[j].id
      ensures added[j].time > s.log[i].time + DIAL_HISTORY_EXPIRATION
    {
      assert added[j] in added;
      RoundRedials(s, c, s.log[i]);
    }
    SpacedAppend(s.log, added);
  }

  lemma RoundLogOk(s: Server, c: Choice)
    requires Inv(s) && ChoiceOk(s.dialer, c) && c.now >= s.now && LogOk(s)
    ensures LogOk(Round(s, c))
  {
    hide PlanTasks, Emissions, DialIds, TasksOk, DynIds, Round;
    var ts := RoundPlan(s, c).tasks;
    var added, r := Emissions(ts, c.now), Round(s, c);
    RoundSpaced(s, c);
    RoundFrame(s, c);
    EmissionsSources(ts, c.now);
    PlanAccounts(s.dialer, |s.pending| + |s.tasks|, s.peers, c);
    forall i | 0 <= i < |r.log|
      ensures r.log[i].time <= r.now && Remembered(r, r.log[i])
    {
      if i < |s.log| {
        RoundRemembers(s, c, s.log[i]);
      } else {
        assert r.log[i] in added;
      }
    }
  }

  lemma EventLogOk(s: Server, e: Event)
    requires LogOk(s) && EventOk(s, e)
    ensures LogOk(Apply(s, e))
  {
  }

  lemma {:induction false} RunLogOk(s: Server, xs: seq<Turn>)
    requires Inv(s) && LogOk(s) && IsRun(s, xs) && ClockOk(s, xs)
    ensures Inv(Exec(s, xs)) && LogOk(Exec(s, xs))
    decreases |xs|
  {
    if xs != [] {
      var prev, x := Exec(s, xs[..|xs| - 1]), xs[|xs| - 1];
      RunLogOk(s, xs[..|xs| - 1]);
      RoundLogOk(prev, x.choice);
      EventLogOk(Round(prev, x.choice), x.event);
      RoundInv(prev, x.choice);
      ApplyInv(Round(prev, x.choice), x.event);
    }
  }

  /** With a clock that never goes back, any two dial tasks made for one node in one run are more
      than thirty seconds apart. */
  lemma RedialsSpaced(nodes: seq<Node>, maxDyn: nat, now: int, xs: seq<Turn>, c: Choice)
    requires RunsTo(nodes, maxDyn, now, xs, c)
    requires ClockOk(Init(nodes, maxDyn, now), xs) && c.now >= Exec(Init(nodes, maxDyn, now), xs).now
    ensures var log := SelectState(nodes, maxDyn, now, xs, c).log;
            forall i, j :: 0 <= i < j < |log| && log[i].id == log[j].id ==> log[j].time > log[i].time + 30_000_000_000
  {
    InitInv(nodes, maxDyn, now);
    RunLogOk(Init(nodes, maxDyn, now), xs);
    RoundLogOk(Exec(Init(nodes, maxDyn, now), xs), c);
  }

  // ---------- Losing a task is reachable ----------

  lemma {:induction false} StaticMapCovers(ns: seq<Node>)
    ensures forall i :: 0 <= i < |ns| ==> ns[i].id in StaticMap(ns)
  {
    if ns != [] {
      StaticMapCovers(ns[..|ns| - 1]);
    }
  }

  lemma {:induction false} DialIdsFewer(ts: seq<Task>)
    ensures |DialIds(ts)| <= |ts|
  {
    if ts != [] {
      var n := |ts| - 1;
      DialIdsFewer(ts[..n]);
      assert ts == ts[..n] + [ts[n]];
      DialIdsConcat(ts[..n], [ts[n]]);
      assert DialIds([ts[n]]) == if ts[n].Dial? then {ts[n].dest.id} else {};
    }
  }

  /** In the first round only static nodes are dialed, since no other node is known yet. */
  lemma FirstRoundOnlyStatics(nodes: seq<Node>, maxDyn: nat, now: int, c: Choice)
    requires ChoiceOk(Init(nodes, maxDyn, now).dialer, c)
    ensures var s := Init(nodes, maxDyn, now); DialIds(Dials(s.dialer, s.peers, c)) <= s.everStatic
  {
    var s := Init(nodes, maxDyn, now);
    StaticMapKeys(nodes);
    RoundDialsSources(s.dialer, s.peers, c);
    var ds := Dials(s.dialer, s.peers, c);
    assert Tried(s.dialer, s.peers, c) == [];
    forall id | id in DialIds(ds)
      ensures id in s.everStatic
    {
      var i :| 0 <= i < |ds| && ds[i].dest.id == id;
      var k :| k in s.dialer.statics && s.dialer.statics[k] == ds[i].dest;
    }
  }

  /** The first round dials exactly the static nodes; 16 or more of them take all slots. */
  lemma FirstRound(nodes: seq<Node>, maxDyn: nat, now: int, c: Choice)
    requires ChoiceOk(Init(nodes, maxDyn, now).dialer, c)
    ensures var s := Init(nodes, maxDyn, now);
            && RoundPlan(s, c).dialer.dialing.Keys == s.everStatic
            && (|s.everStatic| >= MAX_ACTIVE_TASKS ==> |Round(s, c).tasks| == MAX_ACTIVE_TASKS)
  {
    var s := Init(nodes, maxDyn, now);
    var p := RoundPlan(s, c);
    assert p.dialer.dialing.Keys == DialIds(p.tasks) by {
      PlanAccounts(s.dialer, 0, s.peers, c);
    }
    assert DialIds(p.tasks) <= s.everStatic by {
      PlanDialIds(s.dialer, 0, s.peers, c);
      FirstRoundOnlyStatics(nodes, maxDyn, now, c);
    }
    assert s.everStatic <= p.dialer.dialing.Keys by {
      StaticMapKeys(nodes);
      StaticMapCovers(nodes);
      StaticsCovered(s.dialer, 0, s.peers, c);
    }
    DialIdsFewer(p.tasks);
  }

  /** With 16 or more static nodes configured, a static node added before any dial has finished is
      recorded as being dialed, but its task is dropped. */
  lemma LateStaticNodeStranded(nodes: seq<Node>, maxDyn: nat, now: int, first: Choice, extra: Node, second: Choice)
    requires ChoiceOk(Init(nodes, maxDyn, now).dialer, first)
    requires |Init(nodes, maxDyn, now).everStatic| >= 16 && extra.id !in Init(nodes, maxDyn, now).everStatic
    requires ChoiceOk(Next(Init(nodes, maxDyn, now), Turn(first, AddStatic(extra))).dialer, second)
    ensures RunsTo(nodes, maxDyn, now, [Turn(first, AddStatic(extra))], second)
    ensures Stranded(SelectState(nodes, maxDyn, now, [Turn(first, AddStatic(extra))], second), extra.id)
  {
    var s0, xs := Init(nodes, maxDyn, now), [Turn(first, AddStatic(extra))];
    var s := Next(s0, xs[0]);
    OneTurn(s0, xs[0]);
    FirstRound(nodes, maxDyn, now, first);
    RoundFrame(s0, first);
    SelectInv(nodes, maxDyn, now, xs, second);
    FullRoundStrands(s, second, extra.id);
  }

  /** A static node that is to be dialed while all slots are taken is stranded by the next round. */
  lemma FullRoundStrands(s: Server, c: Choice, id: NodeId)
    requires Inv(s) && ChoiceOk(s.dialer, c) && |s.tasks| == MAX_ACTIVE_TASKS
    requires id in s.dialer.statics && id !in s.dialer.dialing && id !in s.peers && id !in HistIds(Live(s.dialer.hist, c.now))
    ensures Stranded(Round(s, c), id)
  {
    assert id in DialIds(RoundPlan(s, c).tasks) by {
      StaticsCovered(s.dialer, |s.pending| + |s.tasks|, s.peers, c);
      PlanAccounts(s.dialer, |s.pending| + |s.tasks|, s.peers, c);
    }
    LossExactlyWhenFull(s, c);
  }

  lemma OneTurn(s: Server, x: Turn)
    requires Enabled(s, x)
    ensures IsRun(s, [x]) && Exec(s, [x]) == Next(s, x)
  {
  }
}
