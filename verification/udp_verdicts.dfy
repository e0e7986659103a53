/** Every request gets exactly one verdict, over every run of the UDP loop including its closing. */
module UdpVerdicts {
  import opened UdpLoop

  ghost function Reqs(ps: seq<Pending>): set<nat> {
    set p | p in ps :: p.req
  }

  ghost function Settled(log: seq<LogEntry>): set<nat> {
    set e | e in log && e.Sent? :: e.req
  }

  /** No request has two verdicts, and none of its callbacks runs after its verdict. */
  ghost predicate OnceOnly(log: seq<LogEntry>) {
    forall i, j :: 0 <= i < j < |log| && log[i].Sent? && (log[j].Sent? || log[j].Called?) ==> log[i].req != log[j].req
  }

  /** The list holds requests in the order they were made. */
  ghost predicate ListOk(ps: seq<Pending>, requests: seq<Request>) {
    && (forall i :: 0 <= i < |ps| ==> ps[i].req < |requests| && requests[ps[i].req] == Request(ps[i].from, ps[i].ptype))
    && (forall i, j :: 0 <= i < j < |ps| ==> ps[i].req < ps[j].req)
  }

  /** Unsettled requests are exactly the pending ones; once the loop has closed none is left. */
  ghost predicate Accounted(u: Udp) {
    forall q: nat :: q < |u.requests| ==> (q in Settled(u.log) <==> u.done || q !in Reqs(u.plist))
  }

  ghost predicate Inv(u: Udp) {
    && ListOk(u.plist, u.requests) && OnceOnly(u.log) && Accounted(u)
    && forall q :: q in Settled(u.log) ==> q < |u.requests|
  }

  lemma SettledConcat(a: seq<LogEntry>, b: seq<LogEntry>)
    ensures Settled(a + b) == Settled(a) + Settled(b)
  {
  }

  lemma OnceOnlyAppend(log: seq<LogEntry>, es: seq<LogEntry>)
    requires OnceOnly(log) && OnceOnly(es)
    requires forall e :: e in es && (e.Sent? || e.Called?) ==> e.req !in Settled(log)
    ensures OnceOnly(log + es)
  {
  }

  lemma RemovesListOk(before: seq<Pending>, after: seq<Pending>, k: nat, requests: seq<Request>)
    requires ListOk(before, requests) && Removes(before, after, k)
    ensures ListOk(after, requests)
  {
  }

  /** Removing one element of the list settles one request. */
  lemma RemovesReqs(before: seq<Pending>, after: seq<Pending>, k: nat, requests: seq<Request>)
    requires ListOk(before, requests) && Removes(before, after, k)
    ensures Reqs(after) == Reqs(before) - (if k < |before| then {before[k].req} else {})
  {
    forall q | q in Reqs(before) && (k < |before| ==> q != before[k].req)
      ensures q in Reqs(after)
    {
      var i :| 0 <= i < |before| && before[i].req == q;
      var j := if i < k then i else i - 1;
      assert SameRequest(after[j], before[i]) && after[j] in after;
    }
    forall q | q in Reqs(after)
      ensures q in Reqs(before) && (k < |before| ==> q != before[k].req)
    {
      var j :| 0 <= j < |after| && after[j].req == q;
      var i := if j < k then j else j + 1;
      assert SameRequest(after[j], before[i]) && before[i] in before;
    }
  }

  lemma {:induction false} StepInv(u: Udp, x: Step)
    requires Inv(u) && Enabled(u, x)
    ensures Inv(Next(u, x))
  {
    match x
    case Clock(_) =>
    case Fire =>
    case CloseCalled =>
    case Refresh =>
    case SubmitClosed(q) => SubmitClosedInv(u, q);
    case Rearm => RearmInv(u);
    case Add(q) => AddInv(u, q);
    case Got(r) => GotInv(u, r);
    case Tick => TickInv(u);
    case LoopClose => LoopCloseInv(u);
  }

  lemma SubmitClosedInv(u: Udp, q: Request)
    requires Inv(u) && u.closing
    ensures Inv(Next(u, SubmitClosed(q)))
  {
    var n := |u.requests|;
    var es := [Submitted(n), Sent(n, Closed)];
    assert Settled(es) == {n} by {
      assert es[1] in es;
    }
    SettledConcat(u.log, es);
    OnceOnlyAppend(u.log, es);
    assert n !in Reqs(u.plist);
  }

  /** A pass that removes at most one request, sends that request its verdict and otherwise only
      runs callbacks of pending requests keeps everything accounted for. */
  lemma RemovalInv(u: Udp, r: Udp, es: seq<LogEntry>, k: nat)
    requires Inv(u) && !u.done && !r.done
    requires r.requests == u.requests && r.log == u.log + es && Removes(u.plist, r.plist, k)
    requires Settled(es) == (if k < |u.plist| then {u.plist[k].req} else {}) && OnceOnly(es)
    requires forall e :: e in es && (e.Sent? || e.Called?) ==> e.req in Reqs(u.plist)
    ensures Inv(r)
  {
    RemovesListOk(u.plist, r.plist, k, u.requests);
    RemovesReqs(u.plist, r.plist, k, u.requests);
    SettledConcat(u.log, es);
    OnceOnlyAppend(u.log, es);
  }

  lemma RearmInv(u: Udp)
    requires Inv(u) && u.top && !u.done
    ensures Inv(Next(u, Rearm))
  {
    var r := ResetTimeout(u);
    if r.plist != u.plist {
      var e := Sent(u.plist[0].req, ClockWarp);
      assert u.plist[0] in u.plist;
      assert Settled([e]) == {e.req};
      hide Inv;
      RemovalInv(u, r.(top := false), [e], 0);
    }
  }

  lemma AddInv(u: Udp, q: Request)
    requires Inv(u) && !u.done
    requires Enabled(u, Add(q))
    ensures Inv(Next(u, Add(q)))
  {
    var n, r := |u.requests|, Next(u, Add(q));
    assert Settled([Submitted(n)]) == {};
    SettledConcat(u.log, [Submitted(n)]);
    OnceOnlyAppend(u.log, [Submitted(n)]);
    assert r.plist[|u.plist|].req == n && r.plist[|u.plist|] in r.plist;
    assert forall p :: p in r.plist <==> p in u.plist || p == r.plist[|u.plist|];
  }

  /** What one reply adds to the log: callbacks of pending requests, then at most one verdict. */
  ghost function ReplyEntries(ps: seq<Pending>, r: Reply): seq<LogEntry> {
    var w := SweepReply(ps, r);
    [Arrived(r, AnyMatch(ps, r))] + CallEntries(w.called) + SentEntries(w, Ok)
  }

  lemma ReplyEntriesOk(ps: seq<Pending>, r: Reply) returns (k: nat)
    ensures Removes(ps, SweepReply(ps, r).plist, k)
    ensures Settled(ReplyEntries(ps, r)) == (if k < |ps| then {ps[k].req} else {}) && OnceOnly(ReplyEntries(ps, r))
    ensures forall e :: e in ReplyEntries(ps, r) && (e.Sent? || e.Called?) ==> e.req in Reqs(ps)
  {
    var w := SweepReply(ps, r);
    k := SweepReplyRemoves(ps, r);
    hide SweepReply;
    var calls, sent := [Arrived(r, AnyMatch(ps, r))] + CallEntries(w.called), SentEntries(w, Ok);
    assert forall e :: e in calls ==> !e.Sent?;
    assert forall e :: e in calls && e.Called? ==> e.req in w.called;
    assert Settled(calls) == {};
    assert Settled(sent) == if k < |ps| then {ps[k].req} else {};
    SettledConcat(calls, sent);
    OnceOnlyAppend(calls, sent);
    forall e | e in calls + sent && (e.Sent? || e.Called?)
      ensures e.req in Reqs(ps)
    {
      if e.Called? {
        var i :| 0 <= i < |ps| && ps[i].req == e.req;
        assert ps[i] in ps;
      } else {
        assert ps[k] in ps;
      }
    }
  }

  lemma GotInv(u: Udp, r: Reply)
    requires Inv(u) && Enabled(u, Got(r))
    ensures Inv(Next(u, Got(r)))
  {
    var k := ReplyEntriesOk(u.plist, r);
    var w, es := SweepReply(u.plist, r), ReplyEntries(u.plist, r);
    assert Next(u, Got(r)).log == u.log + es by {
      hide SweepReply, SentEntries, CallEntries, AnyMatch, Inv;
      assert u.log + [Arrived(r, AnyMatch(u.plist, r))] + CallEntries(w.called) + SentEntries(w, Ok) == u.log + es;
    }
    hide SweepReply, Inv, Settled, OnceOnly, ReplyEntries, Removes;
    RemovalInv(u, Next(u, Got(r)), es, k);
  }

  lemma TickInv(u: Udp)
    requires Inv(u) && Enabled(u, Tick)
    ensures Inv(Next(u, Tick))
  {
    var w := SweepExpired(u.plist, u.tick.value);
    var k := SweepExpiredRemoves(u.plist, u.tick.value);
    var sent := SentEntries(w, Timeout);
    assert Settled(sent) == if k < |u.plist| then {u.plist[k].req} else {};
    assert k < |u.plist| ==> u.plist[k] in u.plist;
    RemovalInv(u, Next(u, Tick), sent, k);
  }

  lemma LoopCloseInv(u: Udp)
    requires Inv(u) && Enabled(u, LoopClose)
    ensures Inv(Next(u, LoopClose))
  {
    var es := CloseEntries(u.plist);
    forall e | e in es
      ensures e.Sent? && e.req in Reqs(u.plist)
    {
      var i :| 0 <= i < |es| && es[i] == e;
      assert u.plist[i] in u.plist;
    }
    forall q | q in Reqs(u.plist)
      ensures q in Settled(es)
    {
      var i :| 0 <= i < |u.plist| && u.plist[i].req == q;
      assert es[i] in es;
    }
    SettledConcat(u.log, es);
    OnceOnlyAppend(u.log, es);
  }

  lemma {:induction false} RunInv(u: Udp, xs: seq<Step>)
    requires Inv(u) && IsRun(u, xs)
    ensures Inv(Exec(u, xs))
    decreases |xs|
  {
    if xs != [] {
      RunInv(u, xs[..|xs| - 1]);
      StepInv(Exec(u, xs[..|xs| - 1]), xs[|xs| - 1]);
    }
  }

  /** The number of verdicts sent to a request. */
  ghost function Verdicts(log: seq<LogEntry>, q: nat): nat {
    if log == [] then 0
    else Verdicts(log[..|log| - 1], q) + if log[|log| - 1].Sent? && log[|log| - 1].req == q then 1 else 0
  }

  lemma {:induction false} VerdictsAreSettled(log: seq<LogEntry>, q: nat)
    requires OnceOnly(log)
    ensures Verdicts(log, q) == if q in Settled(log) then 1 else 0
  {
    if log != [] {
      var n := |log| - 1;
      VerdictsAreSettled(log[..n], q);
      assert log == log[..n] + [log[n]];
      SettledConcat(log[..n], [log[n]]);
      assert Settled([log[n]]) == if log[n].Sent? then {log[n].req} else {};
      assert q in Settled(log[..n]) && log[n].Sent? ==> log[n].req != q;
    }
  }

  /** Over every run of the loop, closing included, and whatever the clock does: a request either
      waits in the list of a loop that still runs and has no verdict, or has exactly one verdict, so
      the one-place channel it waits on never blocks the loop; and no callback runs after it. */
  lemma ExactlyOneVerdict(now: int, xs: seq<Step>, q: nat)
    requires IsRun(Init(now), xs) && q < |Exec(Init(now), xs).requests|
    ensures var u := Exec(Init(now), xs);
            && Verdicts(u.log, q) == (if !u.done && q in Reqs(u.plist) then 0 else 1)
            && (forall i, j :: 0 <= i < j < |u.log| && u.log[i].Sent? && u.log[j].Called? ==> u.log[i].req != u.log[j].req)
  {
    var u := Exec(Init(now), xs);
    RunInv(Init(now), xs);
    VerdictsAreSettled(u.log, q);
  }

  /** The sender and packet type of a settled request, for every verdict that a reply brought. */
  ghost predicate Justified(u: Udp) {
    forall k :: 0 <= k < |u.log| && u.log[k].Sent? && u.log[k].verdict.Ok? ==>
      && u.log[k].req < |u.requests|
      && exists i, j :: 0 <= i < j < k && Causes(u, i, j, k)
  }

  /** Entry `i` makes the request that entry `k` settles, and entry `j` is a reply that matches it. */
  ghost predicate Causes(u: Udp, i: nat, j: nat, k: nat) {
    && i < |u.log| && j < |u.log| && k < |u.log|
    && u.log[k].Sent? && u.log[k].req < |u.requests|
    && u.log[i] == Submitted(u.log[k].req)
    && u.log[j].Arrived? && u.log[j].matched
    && u.requests[u.log[k].req] == Request(u.log[j].reply.from, u.log[j].reply.ptype)
  }

  /** Every pending request was submitted. */
  ghost predicate AllSubmitted(u: Udp) {
    forall i :: 0 <= i < |u.plist| ==> Submitted(u.plist[i].req) in u.log
  }

  /** The log and the list of requests only grow, and a list entry is an old one or a new request. */
  lemma StepGrows(u: Udp, x: Step)
    requires Enabled(u, x)
    ensures var r := Next(u, x);
            && u.log <= r.log && u.requests <= r.requests
            && (forall p :: p in r.plist ==> (exists o :: o in u.plist && o.req == p.req) || Submitted(p.req) in r.log)
            && (forall i :: |u.log| <= i < |r.log| && r.log[i].Sent? && r.log[i].verdict.Ok? ==> x.Got?)
  {
    var r := Next(u, x);
    if x.Got? {
      var k := SweepReplyRemoves(u.plist, x.reply);
      RemovedStayed(u.plist, r.plist, k);
    } else if x.Tick? {
      var k := SweepExpiredRemoves(u.plist, u.tick.value);
      RemovedStayed(u.plist, r.plist, k);
    } else if x.Add? {
      assert r.log[|u.log|] == Submitted(|u.requests|);
    }
  }

  lemma RemovedStayed(before: seq<Pending>, after: seq<Pending>, k: nat)
    requires Removes(before, after, k)
    ensures forall p :: p in after ==> exists o :: o in before && o.req == p.req
  {
  }

  lemma GotJustified(u: Udp, r: Reply, k: nat)
    requires Inv(u) && AllSubmitted(u) && Enabled(u, Got(r))
    requires |u.log| <= k < |Next(u, Got(r)).log| && Next(u, Got(r)).log[k].Sent?
    ensures exists i, j :: 0 <= i < j < k && Causes(Next(u, Got(r)), i, j, k)
  {
    var n, w := Next(u, Got(r)), SweepReply(u.plist, r);
    var m := SweepReplyRemoves(u.plist, r);
    var j := |u.log|;
    assert n.log[j] == Arrived(r, AnyMatch(u.plist, r));
    assert k == |n.log| - 1 && m < |u.plist| && n.log[k] == Sent(u.plist[m].req, Ok);
    var i :| 0 <= i < |u.log| && u.log[i] == Submitted(u.plist[m].req);
    assert n.log[i] == u.log[i];
    assert Causes(n, i, j, k);
  }

  lemma StepSubmitted(u: Udp, x: Step)
    requires AllSubmitted(u) && Enabled(u, x)
    ensures AllSubmitted(Next(u, x))
  {
    var n := Next(u, x);
    StepGrows(u, x);
    forall i | 0 <= i < |n.plist|
      ensures Submitted(n.plist[i].req) in n.log
    {
      assert n.plist[i] in n.plist;
      if o :| o in u.plist && o.req == n.plist[i].req {
        var j :| 0 <= j < |u.plist| && u.plist[j] == o;
        assert Submitted(u.plist[j].req) in u.log;
      }
    }
  }

  lemma CausesGrows(u: Udp, n: Udp, i: nat, j: nat, k: nat)
    requires u.log <= n.log && u.requests <= n.requests && Causes(u, i, j, k)
    ensures Causes(n, i, j, k)
  {
  }

  lemma StepJustified(u: Udp, x: Step)
    requires Inv(u) && AllSubmitted(u) && Justified(u) && Enabled(u, x)
    ensures Justified(Next(u, x))
  {
    var n := Next(u, x);
    assert u.log <= n.log && u.requests <= n.requests by {
      StepGrows(u, x);
    }
    forall k | 0 <= k < |n.log| && n.log[k].Sent? && n.log[k].verdict.Ok?
      ensures n.log[k].req < |n.requests| && exists i, j :: 0 <= i < j < k && Causes(n, i, j, k)
    {
      if k < |u.log| {
        assert n.log[k] == u.log[k];
        var i, j :| 0 <= i < j < k && Causes(u, i, j, k);
        CausesGrows(u, n, i, j, k);
      } else {
        assert x.Got? by {
          StepGrows(u, x);
        }
        GotJustified(u, x.reply, k);
      }
    }
  }

  /** In every run, a request that succeeded was made earlier and then answered by a matching reply
      from the node it was addressed to. */
  lemma {:induction false} RunJustified(now: int, xs: seq<Step>)
    requires IsRun(Init(now), xs)
    ensures var u := Exec(Init(now), xs); Inv(u) && AllSubmitted(u) && Justified(u)
    decreases |xs|
  {
    if xs != [] {
      RunJustified(now, xs[..|xs| - 1]);
      StepInv(Exec(Init(now), xs[..|xs| - 1]), xs[|xs| - 1]);
      StepSubmitted(Exec(Init(now), xs[..|xs| - 1]), xs[|xs| - 1]);
      StepJustified(Exec(Init(now), xs[..|xs| - 1]), xs[|xs| - 1]);
    }
  }
}
