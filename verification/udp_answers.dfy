/** Which verdict a request gets and when, told from the log alone: over every run of the UDP loop, a ping or
    waitping succeeds exactly at a reply that finds it the first one waiting, a request times out no sooner
    than half a second after it was made, and closing ends all that are left. */
module UdpAnswers {
  import opened NodeTypes
  import opened UdpLoop
  import opened UdpVerdicts

  /** Request `q` asks for a packet of type `ptype` from `from` and has no verdict yet. */
  ghost predicate Waits(u: Udp, q: nat, from: NodeId, ptype: int) {
    q < |u.requests| && u.requests[q] == Request(from, ptype) && q !in Settled(u.log)
  }

  ghost predicate FirstWaiting(u: Udp, q: nat, from: NodeId, ptype: int) {
    Waits(u, q, from, ptype) && forall p: nat :: p < q ==> !Waits(u, p, from, ptype)
  }

  /** What the step adds to the log. */
  ghost function Added(u: Udp, x: Step): seq<LogEntry>
    requires Enabled(u, x)
  {
    StepGrows(u, x);
    Next(u, x).log[|u.log|..]
  }

  lemma WaitsListed(u: Udp, q: nat, from: NodeId, ptype: int)
    requires Inv(u) && !u.done
    ensures Waits(u, q, from, ptype) <==>
            exists i :: 0 <= i < |u.plist| && u.plist[i].req == q && u.plist[i].from == from && u.plist[i].ptype == ptype
  {
    if Waits(u, q, from, ptype) {
      assert q in Reqs(u.plist);
      var i :| 0 <= i < |u.plist| && u.plist[i].req == q;
    }
    if i :| 0 <= i < |u.plist| && u.plist[i].req == q && u.plist[i].from == from && u.plist[i].ptype == ptype {
      assert u.plist[i] in u.plist;
      assert q in Reqs(u.plist);
    }
  }

  /** The first request in the list that a reply matches is the first one waiting for it. */
  lemma FirstListed(u: Udp, r: Reply, k: nat)
    requires Inv(u) && !u.done && k < |u.plist| && Matches(u.plist[k], r)
    requires forall i :: 0 <= i < k ==> !Matches(u.plist[i], r)
    ensures FirstWaiting(u, u.plist[k].req, r.from, r.ptype)
  {
    WaitsListed(u, u.plist[k].req, r.from, r.ptype);
    forall p: nat | p < u.plist[k].req
      ensures !Waits(u, p, r.from, r.ptype)
    {
      WaitsListed(u, p, r.from, r.ptype);
    }
  }

  lemma FirstUnique(u: Udp, p: nat, q: nat, from: NodeId, ptype: int)
    requires FirstWaiting(u, p, from, ptype) && FirstWaiting(u, q, from, ptype)
    ensures p == q
  {
  }

  /** What a reply adds: it is matched exactly if some request waits for it; a verdict is a success, of a
      request it matches; and unless it is a neighbors packet, exactly the first one waiting gets it. */
  lemma GotAdds(u: Udp, r: Reply, q: nat, v: Verdict)
    requires Inv(u) && Enabled(u, Got(r))
    ensures Added(u, Got(r)) != [] && Added(u, Got(r))[0].Arrived? && Added(u, Got(r))[0].reply == r
    ensures Added(u, Got(r))[0].matched <==> exists p: nat :: Waits(u, p, r.from, r.ptype)
    ensures Sent(q, v) in Added(u, Got(r)) ==> v == Ok && Waits(u, q, r.from, r.ptype)
    ensures r.ptype != 4 ==> (Sent(q, v) in Added(u, Got(r)) <==> v == Ok && FirstWaiting(u, q, r.from, r.ptype))
  {
    var ps, w, k := u.plist, SweepReply(u.plist, r), StopAt(u.plist, r);
    var es := Added(u, Got(r));
    assert es == ReplyEntries(ps, r) by {
      GotLog(u, r);
    }
    MatchedWaits(u, r);
    GotSent(ps, r, q, v);
    if k < |ps| {
      WaitsListed(u, ps[k].req, r.from, r.ptype);
    }
    if r.ptype != 4 {
      if k < |ps| {
        FirstListed(u, r, k);
        if FirstWaiting(u, q, r.from, r.ptype) {
          FirstUnique(u, q, ps[k].req, r.from, r.ptype);
        }
      } else {
        WaitsListed(u, q, r.from, r.ptype);
        assert forall i :: 0 <= i < |ps| ==> !Matches(ps[i], r);
      }
    }
  }

  lemma GotLog(u: Udp, r: Reply)
    requires Enabled(u, Got(r))
    ensures Next(u, Got(r)).log == u.log + ReplyEntries(u.plist, r)
  {
    hide SweepReply, SentEntries, CallEntries, AnyMatch;
    var w := SweepReply(u.plist, r);
    assert u.log + [Arrived(r, AnyMatch(u.plist, r))] + CallEntries(w.called) + SentEntries(w, Ok) == u.log + ReplyEntries(u.plist, r);
  }

  lemma MatchedWaits(u: Udp, r: Reply)
    requires Inv(u) && !u.done
    ensures AnyMatch(u.plist, r) <==> exists p: nat :: Waits(u, p, r.from, r.ptype)
  {
    if AnyMatch(u.plist, r) {
      var i :| 0 <= i < |u.plist| && Matches(u.plist[i], r);
      WaitsListed(u, u.plist[i].req, r.from, r.ptype);
    }
    if p: nat :| Waits(u, p, r.from, r.ptype) {
      WaitsListed(u, p, r.from, r.ptype);
      var i :| 0 <= i < |u.plist| && u.plist[i].req == p && u.plist[i].from == r.from && u.plist[i].ptype == r.ptype;
      assert Matches(u.plist[i], r);
    }
  }

  lemma GotSent(ps: seq<Pending>, r: Reply, q: nat, v: Verdict)
    ensures var k := StopAt(ps, r);
            Sent(q, v) in ReplyEntries(ps, r) <==> k < |ps| && v == Ok && q == ps[k].req
  {
    hide SweepReply, StopAt, AnyMatch;
    var w, k := SweepReply(ps, r), StopAt(ps, r);
    SweepReplyShape(ps, r);
    var es, sent := [Arrived(r, AnyMatch(ps, r))] + CallEntries(w.called), SentEntries(w, Ok);
    assert ReplyEntries(ps, r) == es + sent;
    assert forall e :: e in es ==> !e.Sent?;
    assert Sent(q, v) in es + sent <==> Sent(q, v) in sent;
    assert k < |ps| ==> sent == [Sent(ps[k].req, Ok)];
  }

  // ---------- Success over every run ----------

  lemma {:induction false} RunPrefix(u: Udp, xs: seq<Step>, n: nat)
    requires IsRun(u, xs) && n <= |xs|
    ensures IsRun(u, xs[..n])
    decreases |xs|
  {
    var m := |xs| - 1;
    if n <= m {
      LastStep(u, xs);
      hide IsRun;
      RunPrefix(u, xs[..m], n);
      assert xs[..m][..n] == xs[..n];
    } else {
      assert xs[..n] == xs;
    }
  }

  lemma LastStep(u: Udp, xs: seq<Step>)
    requires IsRun(u, xs) && xs != []
    ensures var m := |xs| - 1;
            && IsRun(u, xs[..m]) && Enabled(Exec(u, xs[..m]), xs[m]) && Exec(u, xs) == Next(Exec(u, xs[..m]), xs[m])
  {
  }

  /** Step `i` of the run is a reply that finds `q` the first request waiting for it. */
  ghost predicate AnsweredAt(u: Udp, xs: seq<Step>, i: nat, q: nat)
    requires IsRun(u, xs)
  {
    && i < |xs| && xs[i].Got?
    && (RunPrefix(u, xs, i); FirstWaiting(Exec(u, xs[..i]), q, xs[i].reply.from, xs[i].reply.ptype))
  }

  lemma AnsweredStep(u: Udp, xs: seq<Step>, q: nat)
    requires IsRun(u, xs) && xs != [] && IsRun(u, xs[..|xs| - 1])
    ensures var m := |xs| - 1;
            (exists i: nat :: AnsweredAt(u, xs, i, q)) <==>
            || (exists i: nat :: AnsweredAt(u, xs[..m], i, q))
            || (xs[m].Got? && FirstWaiting(Exec(u, xs[..m]), q, xs[m].reply.from, xs[m].reply.ptype))
  {
    hide IsRun, Exec, FirstWaiting;
    var m := |xs| - 1;
    forall i: nat | i < m
      ensures AnsweredAt(u, xs, i, q) <==> AnsweredAt(u, xs[..m], i, q)
    {
      assert xs[..m][..i] == xs[..i] && xs[..m][i] == xs[i];
    }
    assert forall i: nat :: AnsweredAt(u, xs, i, q) ==> i <= m;
    assert forall i: nat :: AnsweredAt(u, xs[..m], i, q) ==> i < m;
    assert AnsweredAt(u, xs, m, q) <==> xs[m].Got? && FirstWaiting(Exec(u, xs[..m]), q, xs[m].reply.from, xs[m].reply.ptype);
  }

  /** A success is added by a step exactly if it is such a reply. */
  lemma OkStep(u: Udp, x: Step, q: nat)
    requires Inv(u) && Enabled(u, x) && q < |Next(u, x).requests| && Next(u, x).requests[q].ptype != 4
    ensures Sent(q, Ok) in Next(u, x).log <==>
            Sent(q, Ok) in u.log || (x.Got? && FirstWaiting(u, q, x.reply.from, x.reply.ptype))
  {
    StepGrows(u, x);
    assert Next(u, x).log == u.log + Added(u, x);
    if x.Got? {
      GotAdds(u, x.reply, q, Ok);
      assert Next(u, x).requests == u.requests;
    } else {
      hide Inv;
      assert forall i :: 0 <= i < |Added(u, x)| ==> Added(u, x)[i] == Next(u, x).log[|u.log| + i];
    }
  }

  /** Over every run: a request other than a findnode succeeds exactly if, at some step, a reply of its type
      from its node arrives while it is the first one waiting for such a reply. */
  lemma {:induction false} OkExactly(now: int, xs: seq<Step>, q: nat)
    requires IsRun(Init(now), xs) && q < |Exec(Init(now), xs).requests| && Exec(Init(now), xs).requests[q].ptype != 4
    ensures Sent(q, Ok) in Exec(Init(now), xs).log <==> exists i: nat :: AnsweredAt(Init(now), xs, i, q)
    decreases |xs|
  {
    hide AnsweredAt, FirstWaiting, Inv;
    var m := |xs| - 1;
    LastStep(Init(now), xs);
    var u := Exec(Init(now), xs[..m]);
    RunStartsOk(now, xs[..m]);
    hide IsRun, Exec, Next, Enabled, Init;
    AnsweredStep(Init(now), xs, q);
    OkStep(u, xs[m], q);
    StepGrows(u, xs[m]);
    if q < |u.requests| {
      OkExactly(now, xs[..m], q);
    } else {
      NotYetMade(u, q);
      NotYetAnswered(now, xs[..m], q);
    }
  }

  lemma RunStartsOk(now: int, xs: seq<Step>)
    requires IsRun(Init(now), xs)
    ensures Inv(Exec(Init(now), xs))
  {
    RunInv(Init(now), xs);
  }

  lemma NotYetMade(u: Udp, q: nat)
    requires Inv(u) && q >= |u.requests|
    ensures Sent(q, Ok) !in u.log
  {
    assert Sent(q, Ok) in u.log ==> q in Settled(u.log);
  }

  lemma {:induction false} RequestsGrow(u: Udp, xs: seq<Step>, i: nat)
    requires IsRun(u, xs) && i <= |xs| && IsRun(u, xs[..i])
    ensures |Exec(u, xs[..i]).requests| <= |Exec(u, xs).requests|
    decreases |xs|
  {
    var m := |xs| - 1;
    if i <= m {
      LastStep(u, xs);
      hide IsRun, Exec, Next, Enabled;
      assert xs[..m][..i] == xs[..i];
      RequestsGrow(u, xs[..m], i);
      StepGrows(Exec(u, xs[..m]), xs[m]);
    } else {
      assert xs[..i] == xs;
    }
  }

  lemma NotYetAnswered(now: int, xs: seq<Step>, q: nat)
    requires IsRun(Init(now), xs) && q >= |Exec(Init(now), xs).requests|
    ensures forall i: nat :: !AnsweredAt(Init(now), xs, i, q)
  {
    hide IsRun, Exec, Init;
    forall i: nat | i < |xs|
      ensures !AnsweredAt(Init(now), xs, i, q)
    {
      RunPrefix(Init(now), xs, i);
      RequestsGrow(Init(now), xs, i);
    }
  }

  // ---------- Failures over every run ----------

  /** When each request was made. */
  ghost function MadeTimes(u: Udp, xs: seq<Step>): seq<int>
    requires IsRun(u, xs)
  {
    if xs == [] then []
    else
      var m := |xs| - 1;
      LastStep(u, xs);
      if xs[m].Add? || xs[m].SubmitClosed? then MadeTimes(u, xs[..m]) + [Exec(u, xs[..m]).now] else MadeTimes(u, xs[..m])
  }

  ghost predicate Unsettled(u: Udp, q: nat) {
    q < |u.requests| && q !in Settled(u.log)
  }

  /** A pending request is due half a second after it was made. */
  ghost predicate DueAfterHalf(u: Udp, times: seq<int>) {
    |times| == |u.requests| &&
    forall i :: 0 <= i < |u.plist| ==> u.plist[i].req < |times| && u.plist[i].deadline == times[u.plist[i].req] + 500_000_000
  }

  lemma StepDue(u: Udp, x: Step, times: seq<int>)
    requires Enabled(u, x) && DueAfterHalf(u, times)
    ensures DueAfterHalf(Next(u, x), if x.Add? || x.SubmitClosed? then times + [u.now] else times)
  {
    if x.Got? {
      var k := SweepReplyRemoves(u.plist, x.reply);
      hide SweepReply, AnyMatch;
      RemovedDue(u.plist, Next(u, x).plist, k, times);
    } else if x.Tick? {
      var k := SweepExpiredRemoves(u.plist, u.tick.value);
      hide SweepExpired;
      RemovedDue(u.plist, Next(u, x).plist, k, times);
    }
  }

  lemma RemovedDue(before: seq<Pending>, after: seq<Pending>, k: nat, times: seq<int>)
    requires Removes(before, after, k)
    requires forall i :: 0 <= i < |before| ==> before[i].req < |times| && before[i].deadline == times[before[i].req] + 500_000_000
    ensures forall i :: 0 <= i < |after| ==> after[i].req < |times| && after[i].deadline == times[after[i].req] + 500_000_000
  {
    forall i | 0 <= i < |after|
      ensures after[i].req < |times| && after[i].deadline == times[after[i].req] + 500_000_000
    {
      assert SameRequest(after[i], before[if i < k then i else i + 1]);
    }
  }

  lemma {:induction false} RunDue(now: int, xs: seq<Step>)
    requires IsRun(Init(now), xs)
    ensures DueAfterHalf(Exec(Init(now), xs), MadeTimes(Init(now), xs))
    decreases |xs|
  {
    if xs != [] {
      var m := |xs| - 1;
      LastStep(Init(now), xs);
      RunDue(now, xs[..m]);
      hide IsRun, Exec, Next, Enabled, Init, DueAfterHalf;
      StepDue(Exec(Init(now), xs[..m]), xs[m], MadeTimes(Init(now), xs[..m]));
    }
  }

  lemma UnsettledListed(u: Udp, q: nat)
    requires Inv(u) && !u.done
    ensures Unsettled(u, q) <==> exists i :: 0 <= i < |u.plist| && u.plist[i].req == q
  {
    if Unsettled(u, q) {
      assert q in Reqs(u.plist);
    }
    if i :| 0 <= i < |u.plist| && u.plist[i].req == q {
      assert u.plist[i] in u.plist;
      assert q in Reqs(u.plist);
    }
  }

  /** The request at position `k` is the first unsettled one of those that meet a condition on positions. */
  lemma EarlierListed(u: Udp, k: nat, p: nat) returns (i: nat)
    requires Inv(u) && !u.done && k < |u.plist| && p < u.plist[k].req && Unsettled(u, p)
    ensures i < k && u.plist[i].req == p
  {
    UnsettledListed(u, p);
    i :| 0 <= i < |u.plist| && u.plist[i].req == p;
  }

  /** Request `q` was made at least half a second before `v`. */
  predicate Overdue(times: seq<int>, q: nat, v: int) {
    q < |times| && times[q] + 500_000_000 <= v
  }

  /** A tick times out exactly the first unsettled request that was made at least half a second before it. */
  lemma TickAdds(u: Udp, times: seq<int>, q: nat, v: Verdict)
    requires Inv(u) && Enabled(u, Tick) && DueAfterHalf(u, times)
    ensures Sent(q, v) in Added(u, Tick) <==>
            && v == Timeout && Unsettled(u, q) && Overdue(times, q, u.tick.value)
            && forall p: nat :: p < q && Unsettled(u, p) ==> !Overdue(times, p, u.tick.value)
  {
    var w := SweepExpired(u.plist, u.tick.value);
    var k := SweepExpiredShape(u.plist, u.tick.value);
    assert Added(u, Tick) == SentEntries(w, Timeout);
    hide SweepExpired, Inv;
    if k < |u.plist| {
      UnsettledListed(u, u.plist[k].req);
      forall p: nat | p < u.plist[k].req && Unsettled(u, p)
        ensures !Overdue(times, p, u.tick.value)
      {
        var i := EarlierListed(u, k, p);
      }
      if Unsettled(u, q) && Overdue(times, q, u.tick.value) && q != u.plist[k].req {
        UnsettledListed(u, q);
        assert q > u.plist[k].req && Unsettled(u, u.plist[k].req) && Overdue(times, u.plist[k].req, u.tick.value);
      }
    } else {
      UnsettledListed(u, q);
    }
  }

  /** Re-arming gives up the first unsettled request exactly if the timer is not set for it and the clock was
      set back half a second or more behind the time it was made. */
  lemma RearmAdds(u: Udp, times: seq<int>, q: nat, v: Verdict)
    requires Inv(u) && Enabled(u, Rearm) && DueAfterHalf(u, times)
    ensures Sent(q, v) in Added(u, Rearm) <==>
            && v == ClockWarp && Unsettled(u, q) && (forall p: nat :: p < q ==> !Unsettled(u, p))
            && u.nextTimeout != Some(q) && u.now + 500_000_000 <= times[q]
  {
    if u.plist != [] {
      UnsettledListed(u, u.plist[0].req);
      forall p: nat | p < u.plist[0].req
        ensures !Unsettled(u, p)
      {
        UnsettledListed(u, p);
      }
      if Unsettled(u, q) && (forall p: nat :: p < q ==> !Unsettled(u, p)) {
        UnsettledListed(u, q);
        assert q == u.plist[0].req;
      }
      assert Added(u, Rearm) == [] || Added(u, Rearm) == [Sent(u.plist[0].req, ClockWarp)];
    } else {
      UnsettledListed(u, q);
    }
  }

  /** Closing ends every unsettled request, and only then is one told that it was closed. */
  lemma CloseAdds(u: Udp, q: nat, v: Verdict)
    requires Inv(u) && Enabled(u, LoopClose)
    ensures Sent(q, v) in Added(u, LoopClose) <==> v == Closed && Unsettled(u, q)
  {
    UnsettledListed(u, q);
    var es := CloseEntries(u.plist);
    assert Added(u, LoopClose) == es;
    if i :| 0 <= i < |u.plist| && u.plist[i].req == q {
      assert es[i] in es;
    }
  }

  /** No other step adds a verdict, but a request made after closing is told so at once. */
  lemma OthersAdd(u: Udp, x: Step, q: nat, v: Verdict)
    requires Enabled(u, x) && !x.Got? && !x.Tick? && !x.Rearm? && !x.LoopClose?
    ensures Sent(q, v) in Added(u, x) <==> x.SubmitClosed? && v == Closed && q == |u.requests|
  {
  }

  /** Over every run, each step adds exactly the verdicts that its kind calls for: who succeeds, who times
      out, who is given up because the clock went back, and who is told that the loop has closed. */
  lemma VerdictsExactly(now: int, xs: seq<Step>, x: Step, q: nat, v: Verdict)
    requires IsRun(Init(now), xs) && Enabled(Exec(Init(now), xs), x)
    requires x.Got? ==> x.reply.ptype != 4
    ensures var u, times := Exec(Init(now), xs), MadeTimes(Init(now), xs);
            Sent(q, v) in Added(u, x) <==>
            match x
            case Got(r) => v == Ok && FirstWaiting(u, q, r.from, r.ptype)
            case Tick => v == Timeout && Unsettled(u, q) && Overdue(times, q, u.tick.value) &&
                         forall p: nat :: p < q && Unsettled(u, p) ==> !Overdue(times, p, u.tick.value)
            case Rearm => v == ClockWarp && Unsettled(u, q) && (forall p: nat :: p < q ==> !Unsettled(u, p)) &&
                          u.nextTimeout != Some(q) && q < |times| && u.now + 500_000_000 <= times[q]
            case LoopClose => v == Closed && Unsettled(u, q)
            case SubmitClosed(_) => v == Closed && q == |u.requests|
            case _ => false
  {
    hide IsRun, Exec, Init, Enabled, Inv, Added, Unsettled, FirstWaiting, Overdue;
    var u, times := Exec(Init(now), xs), MadeTimes(Init(now), xs);
    RunStartsOk(now, xs);
    RunDue(now, xs);
    match x
    case Got(r) => GotAdds(u, r, q, v);
    case Tick => TickAdds(u, times, q, v);
    case Rearm =>
      RearmAdds(u, times, q, v);
      UnsettledMade(u, times, q);
    case LoopClose => CloseAdds(u, q, v);
    case _ => OthersAdd(u, x, q, v);
  }

  lemma UnsettledMade(u: Udp, times: seq<int>, q: nat)
    requires DueAfterHalf(u, times)
    ensures Unsettled(u, q) ==> q < |times|
  {
  }
}
