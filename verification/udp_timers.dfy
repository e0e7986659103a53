/** With a clock that never goes back: the pending list stays sorted by deadline, the timer always
    covers its head, and expired requests are all timed out after a bounded number of ticks. */
module UdpTimers {
  import opened NodeTypes
  import opened UdpLoop
  import opened UdpVerdicts

  ghost predicate Sorted(ps: seq<Pending>) {
    forall i, j :: 0 <= i < j < |ps| ==> ps[i].deadline <= ps[j].deadline
  }

  /** The timer is armed for the head of the list, or a tick is already waiting. */
  predicate Covered(u: Udp)
    requires u.plist != []
  {
    u.armed == Some(u.plist[0].deadline) || u.tick.Some?
  }

  ghost predicate TimerInv(u: Udp) {
    && ListOk(u.plist, u.requests) && Sorted(u.plist)
    && (forall i :: 0 <= i < |u.plist| ==> u.plist[i].deadline <= u.now + RESP_TIMEOUT)
    && (u.nextTimeout.Some? ==> u.nextTimeout.value < |u.requests|)
    && (u.nextTimeout.Some? && u.plist != [] ==> u.nextTimeout.value <= u.plist[0].req)
    && (u.plist != [] && u.nextTimeout == Some(u.plist[0].req) ==> Covered(u))
    && (u.plist != [] && !u.top && !u.done ==> u.nextTimeout == Some(u.plist[0].req))
    && (u.tick.Some? ==> u.tick.value <= u.now)
  }

  ghost predicate Monotone(u: Udp, x: Step) {
    x.Clock? ==> x.now >= u.now
  }

  lemma RemovesSorted(before: seq<Pending>, after: seq<Pending>, k: nat)
    requires Sorted(before) && Removes(before, after, k)
    ensures Sorted(after)
    ensures forall i :: 0 <= i < |after| ==> exists j :: 0 <= j < |before| && after[i].deadline == before[j].deadline
    ensures after != [] ==> before != [] && (after[0].req == before[0].req ==> after[0].deadline == before[0].deadline || k == 0)
  {
    forall i, j | 0 <= i < j < |after|
      ensures after[i].deadline <= after[j].deadline
    {
      assert SameRequest(after[i], before[if i < k then i else i + 1]);
      assert SameRequest(after[j], before[if j < k then j else j + 1]);
    }
    forall i | 0 <= i < |after|
      ensures exists j :: 0 <= j < |before| && after[i].deadline == before[j].deadline
    {
      assert SameRequest(after[i], before[if i < k then i else i + 1]);
    }
    if after != [] {
      assert SameRequest(after[0], before[if 0 < k then 0 else 1]);
    }
  }

  /** A pass that removes at most one request keeps the list covered: a new head was never the one
      the timer was set for, so it will be armed at the top of the loop. */
  lemma RemovalTimerInv(u: Udp, r: Udp, k: nat)
    requires TimerInv(u) && Removes(u.plist, r.plist, k) && r.top
    requires r.requests == u.requests && r.now == u.now
    requires r.nextTimeout == None || (r.nextTimeout == u.nextTimeout && r.armed == u.armed && r.tick == u.tick)
    requires r.tick.Some? ==> r.tick == u.tick
    ensures TimerInv(r)
  {
    RemovesListOk(u.plist, r.plist, k, u.requests);
    RemovesSorted(u.plist, r.plist, k);
    if r.plist != [] {
      assert SameRequest(r.plist[0], u.plist[if 0 < k then 0 else 1]);
    }
  }

  /** A new request expires no earlier than any pending one. */
  lemma AddTimerInv(u: Udp, q: Request)
    requires TimerInv(u) && Enabled(u, Add(q))
    ensures TimerInv(Next(u, Add(q)))
  {
    var r := Next(u, Add(q));
    forall i, j | 0 <= i < j < |r.plist|
      ensures r.plist[i].deadline <= r.plist[j].deadline && r.plist[i].req < r.plist[j].req
    {
      assert i < |u.plist| && r.plist[i] == u.plist[i];
    }
  }

  /** No deadline is ever more than one response time ahead, so re-arming drops nothing. */
  lemma RearmTimerInv(u: Udp)
    requires TimerInv(u) && Enabled(u, Rearm)
    ensures TimerInv(Next(u, Rearm))
    ensures ResetTimeout(u).plist == u.plist && ResetTimeout(u).log == u.log
  {
  }

  lemma GotTimerInv(u: Udp, reply: Reply)
    requires TimerInv(u) && Enabled(u, Got(reply))
    ensures TimerInv(Next(u, Got(reply)))
  {
    var k := SweepReplyRemoves(u.plist, reply);
    hide SweepReply, TimerInv;
    RemovalTimerInv(u, Next(u, Got(reply)), k);
  }

  lemma TickTimerInv(u: Udp)
    requires TimerInv(u) && Enabled(u, Tick)
    ensures TimerInv(Next(u, Tick))
  {
    var k := SweepExpiredRemoves(u.plist, u.tick.value);
    hide SweepExpired, TimerInv;
    RemovalTimerInv(u, Next(u, Tick), k);
  }

  lemma StepTimerInv(u: Udp, x: Step)
    requires TimerInv(u) && Enabled(u, x) && Monotone(u, x)
    ensures TimerInv(Next(u, x))
  {
    match x
    case Got(reply) => GotTimerInv(u, reply);
    case Tick => TickTimerInv(u);
    case Add(q) => AddTimerInv(u, q);
    case Rearm => RearmTimerInv(u);
    case _ =>
  }

  ghost predicate MonotoneRun(u: Udp, xs: seq<Step>)
    requires IsRun(u, xs)
  {
    xs == [] || (MonotoneRun(u, xs[..|xs| - 1]) && Monotone(Exec(u, xs[..|xs| - 1]), xs[|xs| - 1]))
  }

  lemma {:induction false} RunTimerInv(u: Udp, xs: seq<Step>)
    requires TimerInv(u) && IsRun(u, xs) && MonotoneRun(u, xs)
    ensures TimerInv(Exec(u, xs))
    decreases |xs|
  {
    if xs != [] {
      RunTimerInv(u, xs[..|xs| - 1]);
      StepTimerInv(Exec(u, xs[..|xs| - 1]), xs[|xs| - 1]);
    }
  }

  /** In every run with a clock that never goes back: deadlines are in order; at every select a
      non-empty list has its head as nextTimeout, with the timer armed for exactly its deadline or a
      tick waiting; and re-arming never takes the clock-warp branch. */
  lemma TimerCoversHead(now: int, xs: seq<Step>)
    requires IsRun(Init(now), xs) && MonotoneRun(Init(now), xs)
    ensures var u := Exec(Init(now), xs);
            && Sorted(u.plist)
            && (!u.top && !u.done && u.plist != [] ==>
                  && u.nextTimeout == Some(u.plist[0].req)
                  && (u.armed == Some(u.plist[0].deadline) || u.tick.Some?))
            && (u.top && !u.done ==> ResetTimeout(u).plist == u.plist && ResetTimeout(u).log == u.log)
  {
    RunTimerInv(Init(now), xs);
    var u := Exec(Init(now), xs);
    if u.top && !u.done {
      RearmTimerInv(u);
    }
  }

  // ---------- Expired requests are timed out ----------

  /** The pending requests whose deadline is at most `t`. */
  function Expired(ps: seq<Pending>, t: int): nat {
    if ps == [] then 0 else (if ps[0].deadline <= t then 1 else 0) + Expired(ps[1..], t)
  }

  /** A waiting tick from before `t` may find nothing to remove. */
  function StaleTick(u: Udp, t: int): nat {
    if u.tick.Some? && u.tick.value < t then 1 else 0
  }

  function Backlog(u: Udp, t: int): nat {
    Expired(u.plist, t) + StaleTick(u, t)
  }

  lemma {:induction false} ExpiredConcat(ps: seq<Pending>, qs: seq<Pending>, t: int)
    ensures Expired(ps + qs, t) == Expired(ps, t) + Expired(qs, t)
  {
    if ps == [] {
      assert ps + qs == qs;
    } else {
      assert (ps + qs)[1..] == ps[1..] + qs;
      ExpiredConcat(ps[1..], qs, t);
    }
  }

  lemma {:induction false} ExpiredSame(ps: seq<Pending>, qs: seq<Pending>, t: int)
    requires |ps| == |qs| && forall i :: 0 <= i < |ps| ==> SameRequest(ps[i], qs[i])
    ensures Expired(ps, t) == Expired(qs, t)
  {
    if ps != [] {
      assert forall i :: 0 <= i < |ps[1..]| ==> SameRequest(ps[1..][i], qs[1..][i]);
      ExpiredSame(ps[1..], qs[1..], t);
    }
  }

  lemma {:induction false} RemovesExpired(before: seq<Pending>, after: seq<Pending>, k: nat, t: int)
    requires Removes(before, after, k)
    ensures Expired(after, t) == Expired(before, t) - (if k < |before| && before[k].deadline <= t then 1 else 0)
    decreases |before|
  {
    if before != [] {
      if k == 0 {
        assert forall i :: 0 <= i < |after| ==> SameRequest(after[i], before[1..][i]);
        ExpiredSame(after, before[1..], t);
      } else {
        assert SameRequest(after[0], before[0]);
        RemovesTail(before, after, k);
        RemovesExpired(before[1..], after[1..], k - 1, t);
      }
    }
  }

  lemma RemovesTail(before: seq<Pending>, after: seq<Pending>, k: nat)
    requires Removes(before, after, k) && before != [] && k > 0
    ensures Removes(before[1..], after[1..], k - 1)
  {
  }

  lemma {:induction false} NoneExpired(ps: seq<Pending>, t: int)
    requires forall i :: 0 <= i < |ps| ==> ps[i].deadline > t
    ensures Expired(ps, t) == 0
  {
    if ps != [] {
      NoneExpired(ps[1..], t);
    }
  }

  /** A tick times out one request, if any has expired; so it leaves none exactly if at most one had. */
  lemma TickTakesOne(ps: seq<Pending>, v: int)
    ensures Expired(SweepExpired(ps, v).plist, v) == if Expired(ps, v) == 0 then 0 else Expired(ps, v) - 1
  {
    var k := SweepExpiredRemoves(ps, v);
    RemovesExpired(ps, SweepExpired(ps, v).plist, k, v);
    hide SweepExpired;
    if k == |ps| {
      NoneExpired(ps, v);
    } else {
      ExpiredCounts(ps, v, k);
    }
  }

  lemma TickBacklog(u: Udp, t: int)
    requires TimerInv(u) && Enabled(u, Tick) && t <= u.now
    ensures Backlog(Next(u, Tick), t) <= Backlog(u, t)
    ensures Backlog(u, t) > 0 ==> Backlog(Next(u, Tick), t) < Backlog(u, t)
  {
    var k := SweepExpiredRemoves(u.plist, u.tick.value);
    RemovesExpired(u.plist, Next(u, Tick).plist, k, t);
    if u.tick.value >= t && Expired(u.plist, t) > 0 && u.plist[0].deadline > t {
      NoneExpired(u.plist, t);
    }
  }

  lemma AddBacklog(u: Udp, q: Request, t: int)
    requires TimerInv(u) && Enabled(u, Add(q)) && t <= u.now
    ensures Backlog(Next(u, Add(q)), t) == Backlog(u, t)
  {
    var p := Next(u, Add(q)).plist[|u.plist|];
    ExpiredConcat(u.plist, [p], t);
    assert Expired([p], t) == 0;
  }

  /** Once the clock has reached `t`, no step adds to the backlog at `t`, and every tick reduces it
      while there is any, although a tick times out at most one request. */
  lemma StepBacklog(u: Udp, x: Step, t: int)
    requires TimerInv(u) && Enabled(u, x) && Monotone(u, x) && t <= u.now
    ensures Backlog(Next(u, x), t) <= Backlog(u, t)
    ensures x.Tick? && Backlog(u, t) > 0 ==> Backlog(Next(u, x), t) < Backlog(u, t)
    ensures t <= Next(u, x).now
  {
    match x
    case Got(reply) =>
      var k := SweepReplyRemoves(u.plist, reply);
      hide SweepReply, TimerInv;
      RemovesExpired(u.plist, Next(u, x).plist, k, t);
    case Tick => TickBacklog(u, t);
    case Add(q) => AddBacklog(u, q, t);
    case Rearm => RearmTimerInv(u);
    case _ =>
  }

  function Ticks(xs: seq<Step>): nat {
    if xs == [] then 0 else Ticks(xs[..|xs| - 1]) + if xs[|xs| - 1].Tick? then 1 else 0
  }

  lemma {:induction false} RunBacklog(u: Udp, xs: seq<Step>, t: int)
    requires TimerInv(u) && IsRun(u, xs) && MonotoneRun(u, xs) && t <= u.now
    ensures t <= Exec(u, xs).now
    ensures Backlog(Exec(u, xs), t) <= (if Ticks(xs) < Backlog(u, t) then Backlog(u, t) - Ticks(xs) else 0)
    decreases |xs|
  {
    if xs != [] {
      RunBacklog(u, xs[..|xs| - 1], t);
      RunTimerInv(u, xs[..|xs| - 1]);
      StepBacklog(Exec(u, xs[..|xs| - 1]), xs[|xs| - 1], t);
    }
  }

  lemma {:induction false} ExpiredCounts(ps: seq<Pending>, t: int, i: nat)
    requires i < |ps| && ps[i].deadline <= t
    ensures Expired(ps, t) > 0
  {
    if i > 0 {
      ExpiredCounts(ps[1..], t, i - 1);
    }
  }

  /** If `k` requests have expired by now, then after any continuation in which the loop takes `k + 1`
      ticks, however these interleave with requests, replies and clock moves, none of them is
      pending any more. */
  lemma ExpiredTimedOut(now: int, xs: seq<Step>, ys: seq<Step>)
    requires IsRun(Init(now), xs) && MonotoneRun(Init(now), xs)
    requires IsRun(Exec(Init(now), xs), ys) && MonotoneRun(Exec(Init(now), xs), ys)
    requires Ticks(ys) > Expired(Exec(Init(now), xs).plist, Exec(Init(now), xs).now)
    ensures var u, v := Exec(Init(now), xs), Exec(Exec(Init(now), xs), ys);
            forall i :: 0 <= i < |v.plist| ==> v.plist[i].deadline > u.now
  {
    var u, v := Exec(Init(now), xs), Exec(Exec(Init(now), xs), ys);
    RunTimerInv(Init(now), xs);
    RunBacklog(u, ys, u.now);
    forall i | 0 <= i < |v.plist|
      ensures v.plist[i].deadline > u.now
    {
      if v.plist[i].deadline <= u.now {
        ExpiredCounts(v.plist, u.now, i);
      }
    }
  }

  /** The loop never waits in vain: at a select with an expired request, a tick is waiting or the
      timer is due. */
  lemma TickAvailable(now: int, xs: seq<Step>)
    requires IsRun(Init(now), xs) && MonotoneRun(Init(now), xs)
    ensures var u := Exec(Init(now), xs);
            !u.top && !u.done && Expired(u.plist, u.now) > 0 ==> Enabled(u, Tick) || Enabled(u, Fire)
  {
    var u := Exec(Init(now), xs);
    RunTimerInv(Init(now), xs);
    if u.plist != [] && u.plist[0].deadline > u.now {
      NoneExpired(u.plist, u.now);
    }
  }
}
