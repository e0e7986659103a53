/** The mutable run loop of server.go: its methods are proved to compute the state machine of
    ServerLoop, so everything proved about runs there holds of it. */
module RunLoop {
  import opened NodeTypes
  import opened DialState
  import opened ServerLoop

  class Loop {
    const dialer: Scheduler
    var peers: map<NodeId, Flag>
    var tasks: seq<Task>
    var pending: seq<Task>
    var now: int
    ghost var log: seq<Emission>
    ghost var everStatic: set<NodeId>

    ghost function Abs(): Server
      reads this, dialer, dialer.hist
    {
      Server(dialer.Abs(), peers, tasks, pending, now, log, everStatic)
    }

    ghost predicate Valid()
      reads this, dialer, dialer.hist
    {
      dialer.Valid() && |tasks| <= MAX_ACTIVE_TASKS
    }

    constructor (nodes: seq<Node>, maxDyn: nat, now: int)
      ensures Valid() && fresh(dialer) && fresh(dialer.hist)
      ensures Abs() == Init(nodes, maxDyn, now)
    {
      dialer := new Scheduler(nodes, maxDyn);
      peers, tasks, pending := map[], [], [];
      this.now, log := now, [];
      everStatic := set n | n in nodes :: n.id;
    }

    /** scheduleTasks: moves waiting and new tasks into free slots, and stores what still waits only
        if some slot was free. */
    method ScheduleTasks(added: seq<Task>)
      requires |tasks| <= MAX_ACTIVE_TASKS
      modifies this`tasks, this`pending
      ensures Abs() == Schedule(old(Abs()), added) && |tasks| <= MAX_ACTIVE_TASKS
    {
      var pt := pending + added;
      var start := MAX_ACTIVE_TASKS - |tasks|;
      if |pt| < start {
        start := |pt|;
      }
      if start > 0 {
        tasks := tasks + pt[..start];
        pending := pt[start..];
      }
    }

    /** delTask: removes the first occurrence of `t`. */
    method DelTask(t: Task)
      modifies this`tasks
      ensures tasks == Without(old(tasks), t)
    {
      for i := 0 to |tasks|
        invariant tasks == old(tasks)
        invariant t !in tasks[..i]
      {
        if tasks[i] == t {
          WithoutFirst(tasks, t, i);
          tasks := tasks[..i] + tasks[i + 1..];
          return;
        }
      }
      WithoutFirst(tasks, t, |tasks|);
    }

    /** The top of the loop: one round of scheduling. */
    method StartRound(c: Choice)
      requires Valid() && ChoiceOk(dialer.Abs(), c)
      modifies this, dialer, dialer.hist
      ensures Valid() && Abs() == Round(old(Abs()), c)
    {
      ghost var s, p := Abs(), RoundPlan(Abs(), c);
      now := c.now;
      var added := dialer.NewTasks(|pending| + |tasks|, peers, c);
      assert dialer.Abs() == p.dialer && added == p.tasks;
      log := log + Emissions(added, c.now);
      assert Abs() == s.(dialer := p.dialer, now := c.now, log := s.log + Emissions(p.tasks, c.now));
      ScheduleTasks(added);
    }

    /** The select statement: handles the event it received. */
    method Handle(e: Event)
      requires Valid() && EventOk(Abs(), e)
      modifies this, dialer, dialer.hist
      ensures Valid() && Abs() == Apply(old(Abs()), e)
    {
      match e
      case AddStatic(n) =>
        dialer.AddStatic(n);
        everStatic := everStatic + {n.id};
      case RemoveStatic(id) =>
        dialer.RemoveStatic(id);
        peers := peers - {id};
      case Connected(t) =>
        peers := peers[t.dest.id := t.flag];
      case Accepted(id) =>
        peers := peers[id := FLAG_INBOUND];
      case Finished(t, result) =>
        dialer.TaskDone(t, result, now);
        DelTask(t);
        ghost var k := WithoutIsRemoval(old(tasks), t);
      case PeerGone(id) =>
        peers := peers - {id};
    }

    /** The loop itself, over the choices and events it meets. */
    method Run(xs: seq<Turn>)
      requires Valid() && IsRun(Abs(), xs)
      modifies this, dialer, dialer.hist
      ensures Valid() && Abs() == Exec(old(Abs()), xs)
    {
      for i := 0 to |xs|
        invariant Valid()
        invariant IsRun(old(Abs()), xs[..i]) && Abs() == Exec(old(Abs()), xs[..i])
      {
        RunNext(old(Abs()), xs, i);
        StartRound(xs[i].choice);
        Handle(xs[i].event);
      }
      assert xs[..|xs|] == xs;
    }
  }

  lemma {:induction false} RunPrefix(s: Server, xs: seq<Turn>, n: nat)
    requires IsRun(s, xs) && n <= |xs|
    ensures IsRun(s, xs[..n])
    decreases |xs|
  {
    hide *;
    if n < |xs| {
      var init := xs[..|xs| - 1];
      assert xs == init + [xs[|xs| - 1]];
      RunLast(s, xs, init, xs[|xs| - 1]);
      RunPrefix(s, init, n);
      assert init[..n] == xs[..n];
    } else {
      assert xs[..n] == xs;
    }
  }

  /** The last turn of a run. */
  lemma RunLast(s: Server, ys: seq<Turn>, init: seq<Turn>, x: Turn)
    requires ys == init + [x] && IsRun(s, ys)
    ensures IsRun(s, init) && Enabled(Exec(s, init), x) && Exec(s, ys) == Next(Exec(s, init), x)
  {
    assert ys[..|ys| - 1] == init && ys[|ys| - 1] == x;
  }

  lemma RunNext(s: Server, xs: seq<Turn>, i: nat)
    requires IsRun(s, xs) && i < |xs|
    ensures IsRun(s, xs[..i]) && Enabled(Exec(s, xs[..i]), xs[i])
    ensures IsRun(s, xs[..i + 1]) && Exec(s, xs[..i + 1]) == Next(Exec(s, xs[..i]), xs[i])
  {
    hide *;
    RunPrefix(s, xs, i + 1);
    assert xs[..i + 1] == xs[..i] + [xs[i]];
    RunLast(s, xs[..i + 1], xs[..i], xs[i]);
  }

  /** Removing the first occurrence, found at `i`, or nothing if there is none. */
  lemma {:induction false} WithoutFirst(ts: seq<Task>, t: Task, i: nat)
    requires i <= |ts| && t !in ts[..i] && (i < |ts| ==> ts[i] == t)
    ensures Without(ts, t) == if i < |ts| then ts[..i] + ts[i + 1..] else ts
  {
    if i > 0 {
      assert ts[0] == ts[..i][0];
      assert ts[1..][..i - 1] == ts[..i][1..];
      WithoutFirst(ts[1..], t, i - 1);
      assert ts == [ts[0]] + ts[1..];
    }
  }
}
