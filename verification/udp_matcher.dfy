/** The mutable matcher of discover/udp.go: the loops over the pending list are proved to compute the
    steps of the UdpLoop machine. A sweep leaves its loop at the first removal, because removing an
    element from a container/list clears the link the loop would follow. */
module UdpMatcher {
  import opened NodeTypes
  import opened UdpLoop

  class Matcher {
    var plist: seq<Pending>
    var nextTimeout: Option<nat>
    var armed: Option<int>
    var tick: Option<int>
    var now: int
    var top: bool
    var closing: bool
    var done: bool
    ghost var requests: seq<Request>
    var made: nat
    ghost var log: seq<LogEntry>

    ghost function Abs(): Udp
      reads this
    {
      Udp(plist, nextTimeout, armed, tick, now, top, closing, done, requests, log)
    }

    ghost predicate Valid()
      reads this
    {
      made == |requests|
    }

    constructor (now: int)
      ensures Valid() && Abs() == Init(now)
    {
      plist, nextTimeout, armed, tick := [], None, None, None;
      this.now, top, closing, done := now, true, false, false;
      requests, made, log := [], 0, [];
    }

    /** resetTimeout. */
    method Rearm()
      requires Valid() && Enabled(Abs(), Step.Rearm)
      modifies this
      ensures Valid() && Abs() == Next(old(Abs()), Step.Rearm)
    {
      top := false;
      if |plist| == 0 || nextTimeout == Some(plist[0].req) {
        return;
      }
      nextTimeout := Some(plist[0].req);
      var dist := plist[0].deadline - now;
      if dist < 2 * RESP_TIMEOUT {
        armed := Some(now + dist);
        return;
      }
      log := log + [Sent(plist[0].req, ClockWarp)];
      plist := plist[1..];
      nextTimeout, armed := None, None;
    }

    /** The addpending case. */
    method AddPending(q: Request) returns (req: nat)
      requires Valid() && Enabled(Abs(), Add(q))
      modifies this
      ensures Valid() && Abs() == Next(old(Abs()), Add(q)) && req == old(made)
    {
      req := made;
      plist := plist + [Pending(req, q.from, q.ptype, now + RESP_TIMEOUT, 0, [])];
      requests, made, log, top := requests + [q], made + 1, log + [Submitted(req)], true;
    }

    /** The gotreply case: the callbacks run in list order, then the verdict of the one request that is
        done, and the reader is told whether any request matched. */
    method GotReply(r: Reply) returns (matched: bool)
      requires Valid() && Enabled(Abs(), Got(r))
      modifies this
      ensures Valid() && Abs() == Next(old(Abs()), Got(r))
      ensures matched <==> exists p :: p in old(plist) && p.from == r.from && p.ptype == r.ptype
    {
      var w;
      w, matched := ReplySweep(plist, r);
      log := log + [Arrived(r, AnyMatch(plist, r))] + CallEntries(w.called) + SentEntries(w, Ok);
      plist, top := w.plist, true;
    }

    /** The timer case. */
    method OnTick()
      requires Valid() && Enabled(Abs(), Tick)
      modifies this
      ensures Valid() && Abs() == Next(old(Abs()), Tick)
    {
      nextTimeout := None;
      var w := TimeoutSweep(plist, tick.value);
      log := log + SentEntries(w, Timeout);
      plist, tick, top := w.plist, None, true;
    }

    /** The closing case: every pending request is told, none is removed. */
    method OnClose()
      requires Valid() && Enabled(Abs(), LoopClose)
      modifies this
      ensures Valid() && Abs() == Next(old(Abs()), LoopClose)
    {
      var i := 0;
      while i < |plist|
        invariant i <= |plist| && log == old(log) + CloseEntries(plist[..i])
        invariant unchanged(`plist, `nextTimeout, `armed, `tick, `now, `top, `closing, `done, `requests, `made)
      {
        log := log + [Sent(plist[i].req, Closed)];
        i := i + 1;
        assert CloseEntries(plist[..i]) == CloseEntries(plist[..i - 1]) + [Sent(plist[i - 1].req, Closed)];
      }
      assert plist[..|plist|] == plist;
      done := true;
    }
  }

  /** What a sweep has done when it reaches position `i` of `ps`: `front` is what it kept so far. */
  ghost predicate ReplyProgress(ps: seq<Pending>, r: Reply, i: nat, front: seq<Pending>, called: seq<nat>)
    requires i <= |ps|
  {
    var w := SweepReply(ps[i..], r);
    SweepReply(ps, r) == Sweep(front + w.plist, w.removed, called + w.called)
  }

  lemma SweepReplyUnfolds(ps: seq<Pending>, r: Reply, i: nat)
    requires i < |ps|
    ensures var w, rest := SweepReply(ps[i..], r), SweepReply(ps[i + 1..], r);
            var (q, finished) := Callback(ps[i], r);
            w == if Matches(ps[i], r) && finished then Sweep(ps[i + 1..], Some(q), [ps[i].req])
                 else if Matches(ps[i], r) then Sweep([q] + rest.plist, rest.removed, [ps[i].req] + rest.called)
                 else Sweep([ps[i]] + rest.plist, rest.removed, rest.called)
  {
  }

  /** A request the reply does not match, or that is not done yet, stays; here as `p`. */
  lemma ReplyKeeps(ps: seq<Pending>, r: Reply, i: nat, front: seq<Pending>, called: seq<nat>, p: Pending, ran: seq<nat>)
    requires i < |ps| && ReplyProgress(ps, r, i, front, called)
    requires if Matches(ps[i], r) then Callback(ps[i], r) == (p, false) && ran == [ps[i].req] else p == ps[i] && ran == []
    ensures ReplyProgress(ps, r, i + 1, front + [p], called + ran)
  {
    SweepReplyUnfolds(ps, r, i);
    var rest := SweepReply(ps[i + 1..], r);
    assert front + ([p] + rest.plist) == front + [p] + rest.plist;
    assert called + (ran + rest.called) == called + ran + rest.called;
    assert [] + rest.called == rest.called;
  }

  /** The first matching request that is done ends the sweep. */
  lemma ReplyEnds(ps: seq<Pending>, r: Reply, i: nat, front: seq<Pending>, called: seq<nat>, p: Pending)
    requires i < |ps| && ReplyProgress(ps, r, i, front, called)
    requires Matches(ps[i], r) && Callback(ps[i], r) == (p, true)
    ensures SweepReply(ps, r) == Sweep(front + ps[i + 1..], Some(p), called + [ps[i].req])
  {
  }

  lemma ReplyStarts(ps: seq<Pending>, r: Reply)
    ensures ReplyProgress(ps, r, 0, [], []) && !AnyMatch(ps[..0], r)
  {
  }

  lemma ReplyFinishes(ps: seq<Pending>, r: Reply, front: seq<Pending>, called: seq<nat>)
    requires ReplyProgress(ps, r, |ps|, front, called)
    ensures SweepReply(ps, r) == Sweep(front, None, called)
  {
  }

  lemma AnyMatchStep(ps: seq<Pending>, r: Reply, i: nat)
    requires i < |ps|
    ensures AnyMatch(ps[..i + 1], r) <==> AnyMatch(ps[..i], r) || Matches(ps[i], r)
    ensures Matches(ps[i], r) ==> AnyMatch(ps, r)
  {
    assert ps[..i + 1] == ps[..i] + [ps[i]];
    if k :| 0 <= k < i && Matches(ps[..i][k], r) {
      assert Matches(ps[..i + 1][k], r);
    }
    assert ps[..i + 1][i] == ps[i];
  }

  /** The loop over the pending list in the gotreply case. */
  method ReplySweep(ps: seq<Pending>, r: Reply) returns (w: Sweep, matched: bool)
    ensures w == SweepReply(ps, r)
    ensures matched <==> AnyMatch(ps, r)
  {
    hide SweepReply, Callback, ReplyProgress, AnyMatch;
    matched := false;
    var front: seq<Pending>, called: seq<nat> := [], [];
    ReplyStarts(ps, r);
    for i := 0 to |ps|
      invariant ReplyProgress(ps, r, i, front, called)
      invariant matched <==> AnyMatch(ps[..i], r)
    {
      var p := ps[i];
      AnyMatchStep(ps, r, i);
      if p.from == r.from && p.ptype == r.ptype {
        matched := true;
        var (q, finished) := Callback(p, r);
        if finished {
          ReplyEnds(ps, r, i, front, called, q);
          return Sweep(front + ps[i + 1..], Some(q), called + [p.req]), true;
        }
        ReplyKeeps(ps, r, i, front, called, q, [p.req]);
        front, called := front + [q], called + [p.req];
      } else {
        ReplyKeeps(ps, r, i, front, called, p, []);
        assert called + [] == called;
        front := front + [p];
      }
    }
    ReplyFinishes(ps, r, front, called);
    assert ps[..|ps|] == ps;
    w := Sweep(front, None, called);
  }

  /** The loop over the pending list in the timer case. */
  method TimeoutSweep(ps: seq<Pending>, v: int) returns (w: Sweep)
    ensures w == SweepExpired(ps, v)
  {
    for i := 0 to |ps|
      invariant forall k :: 0 <= k < i ==> ps[k].deadline > v
    {
      if v > ps[i].deadline || v == ps[i].deadline {
        TimeoutSweepAt(ps, v, i);
        return Sweep(ps[..i] + ps[i + 1..], Some(ps[i]), []);
      }
    }
    TimeoutSweepAt(ps, v, |ps|);
    w := Sweep(ps, None, []);
  }
}
