/** The request/reply matcher of discover/udp.go as a state machine. The loop goroutine alternates
    between re-arming its timer (`top`) and handling one event; the clock, the runtime timer and
    the closing flag move on their own at any moment. */
module UdpLoop {
  import opened NodeTypes

  const PONG_PACKET := 2
  const NEIGHBORS_PACKET := 4

  /** Half a second, in nanoseconds. */
  const RESP_TIMEOUT := 500_000_000

  datatype Verdict = Ok | Timeout | ClockWarp | Closed

  /** A pending reply. `req` numbers the request, `received` and `nodes` are what the findnode
      callback has accumulated. */
  datatype Pending = Pending(req: nat, from: NodeId, ptype: int, deadline: int, received: nat, nodes: seq<Node>)

  /** An incoming reply; a neighbors packet lists nodes, None where nodeFromRPC rejects one. */
  datatype Reply = Reply(from: NodeId, ptype: int, nodes: seq<Option<Node>>)

  datatype Request = Request(from: NodeId, ptype: int)

  /** Everything observable, in order: requests made, replies arrived, callbacks run, verdicts sent. */
  datatype LogEntry =
    | Submitted(req: nat)
    | Arrived(reply: Reply, matched: bool)
    | Called(req: nat)
    | Sent(req: nat, verdict: Verdict)

  /** `requests` and `log` are history variables. `armed` is when the timer fires, `tick` a firing
      time waiting in the timer's one-place channel. */
  datatype Udp = Udp(plist: seq<Pending>, nextTimeout: Option<nat>, armed: Option<int>, tick: Option<int>,
                     now: int, top: bool, closing: bool, done: bool,
                     requests: seq<Request>, log: seq<LogEntry>)

  function Init(now: int): Udp {
    Udp([], None, None, None, now, true, false, false, [], [])
  }

  function Accept(ns: seq<Option<Node>>): seq<Node> {
    if ns == [] then [] else (if ns[0].Some? then [ns[0].value] else []) + Accept(ns[1..])
  }

  predicate Matches(p: Pending, r: Reply) {
    p.from == r.from && p.ptype == r.ptype
  }

  /** The callback: a findnode request counts the nodes it is sent, the others take any reply. */
  function Callback(p: Pending, r: Reply): (Pending, bool) {
    if p.ptype == NEIGHBORS_PACKET then
      var q := p.(received := p.received + |r.nodes|, nodes := p.nodes + Accept(r.nodes));
      (q, q.received >= BUCKET_SIZE)
    else (p, true)
  }

  /** The result of one pass over the list: what stays, what was removed, whose callbacks ran. */
  datatype Sweep = Sweep(plist: seq<Pending>, removed: Option<Pending>, called: seq<nat>)

  /** The reply sweep. Removing an element clears its links, so the pass ends at the first removal. */
  function SweepReply(ps: seq<Pending>, r: Reply): Sweep {
    if ps == [] then Sweep([], None, [])
    else if Matches(ps[0], r) then
      var (q, done) := Callback(ps[0], r);
      if done then Sweep(ps[1..], Some(q), [ps[0].req])
      else
        var w := SweepReply(ps[1..], r);
        Sweep([q] + w.plist, w.removed, [ps[0].req] + w.called)
    else
      var w := SweepReply(ps[1..], r);
      Sweep([ps[0]] + w.plist, w.removed, w.called)
  }

  /** The timeout sweep at the time `v` the timer reported; it too ends at the first removal. */
  function SweepExpired(ps: seq<Pending>, v: int): Sweep {
    if ps == [] then Sweep([], None, [])
    else if ps[0].deadline <= v then Sweep(ps[1..], Some(ps[0]), [])
    else
      var w := SweepExpired(ps[1..], v);
      Sweep([ps[0]] + w.plist, w.removed, w.called)
  }

  function CallEntries(rs: seq<nat>): (es: seq<LogEntry>)
    ensures |es| == |rs| && forall i :: 0 <= i < |rs| ==> es[i] == Called(rs[i])
  {
    seq(|rs|, i requires 0 <= i < |rs| => Called(rs[i]))
  }

  function SentEntries(w: Sweep, v: Verdict): seq<LogEntry> {
    if w.removed.Some? then [Sent(w.removed.value.req, v)] else []
  }

  function CloseEntries(ps: seq<Pending>): (es: seq<LogEntry>)
    ensures |es| == |ps| && forall i :: 0 <= i < |ps| ==> es[i] == Sent(ps[i].req, Closed)
  {
    seq(|ps|, i requires 0 <= i < |ps| => Sent(ps[i].req, Closed))
  }

  predicate AnyMatch(ps: seq<Pending>, r: Reply) {
    exists i :: 0 <= i < |ps| && Matches(ps[i], r)
  }

  /** resetTimeout: arms the timer for the head of the list unless it already is. A head whose
      deadline is too far ahead is dropped; that ends the pass and stops the timer. */
  function ResetTimeout(u: Udp): Udp {
    if u.plist == [] || u.nextTimeout == Some(u.plist[0].req) then u
    else if u.plist[0].deadline - u.now < 2 * RESP_TIMEOUT then
      u.(nextTimeout := Some(u.plist[0].req), armed := Some(u.plist[0].deadline))
    else
      u.(plist := u.plist[1..], nextTimeout := None, armed := None, log := u.log + [Sent(u.plist[0].req, ClockWarp)])
  }

  datatype Step =
    | Clock(now: int)
    | Fire
    | CloseCalled
    | SubmitClosed(request: Request)
    | Rearm
    | Add(request: Request)
    | Got(reply: Reply)
    | Tick
    | Refresh
    | LoopClose

  predicate Enabled(u: Udp, x: Step) {
    match x
    case Clock(_) => true
    case Fire => u.armed.Some? && u.armed.value <= u.now
    case CloseCalled => !u.closing
    case SubmitClosed(_) => u.closing
    case Rearm => u.top && !u.done
    case Add(_) => !u.top && !u.done
    case Got(_) => !u.top && !u.done
    case Tick => !u.top && !u.done && u.tick.Some?
    case Refresh => !u.top && !u.done
    case LoopClose => !u.top && !u.done && u.closing
  }

  function Next(u: Udp, x: Step): Udp
    requires Enabled(u, x)
  {
    match x
    case Clock(t) => u.(now := t)
    case Fire => u.(armed := None, tick := if u.tick.None? then Some(u.now) else u.tick)
    case CloseCalled => u.(closing := true)
    case SubmitClosed(q) =>
      u.(requests := u.requests + [q], log := u.log + [Submitted(|u.requests|), Sent(|u.requests|, Closed)])
    case Rearm => ResetTimeout(u).(top := false)
    case Add(q) =>
      u.(plist := u.plist + [Pending(|u.requests|, q.from, q.ptype, u.now + RESP_TIMEOUT, 0, [])],
         requests := u.requests + [q], log := u.log + [Submitted(|u.requests|)], top := true)
    case Got(r) =>
      var w := SweepReply(u.plist, r);
      u.(plist := w.plist, log := u.log + [Arrived(r, AnyMatch(u.plist, r))] + CallEntries(w.called) + SentEntries(w, Ok), top := true)
    case Tick =>
      var w := SweepExpired(u.plist, u.tick.value);
      u.(plist := w.plist, nextTimeout := None, tick := None, log := u.log + SentEntries(w, Timeout), top := true)
    case Refresh => u.(top := true)
    case LoopClose => u.(log := u.log + CloseEntries(u.plist), done := true)
  }

  ghost predicate IsRun(u: Udp, xs: seq<Step>)
    decreases |xs|, 0
  {
    xs == [] || (IsRun(u, xs[..|xs| - 1]) && Enabled(Exec(u, xs[..|xs| - 1]), xs[|xs| - 1]))
  }

  ghost function Exec(u: Udp, xs: seq<Step>): Udp
    requires IsRun(u, xs)
    decreases |xs|, 1
  {
    if xs == [] then u else Next(Exec(u, xs[..|xs| - 1]), xs[|xs| - 1])
  }

  // ---------- The sweeps ----------

  /** The position at which a reply sweep stops: the first request that matches and is done, or the end. */
  function StopAt(ps: seq<Pending>, r: Reply): (k: nat)
    ensures k <= |ps| && (k < |ps| ==> Matches(ps[k], r) && Callback(ps[k], r).1)
    ensures forall i :: 0 <= i < k && Matches(ps[i], r) ==> !Callback(ps[i], r).1
  {
    if ps == [] || (Matches(ps[0], r) && Callback(ps[0], r).1) then 0 else 1 + StopAt(ps[1..], r)
  }

  /** A reply sweep removes the request it stops at, updates the matching ones before it, and does not
      touch what is behind. */
  lemma {:induction false} SweepReplyShape(ps: seq<Pending>, r: Reply)
    ensures var w, k := SweepReply(ps, r), StopAt(ps, r);
            && w.removed == (if k < |ps| then Some(Callback(ps[k], r).0) else None)
            && |w.plist| == |ps| - (if k < |ps| then 1 else 0)
            && (forall i :: 0 <= i < k ==> w.plist[i] == if Matches(ps[i], r) then Callback(ps[i], r).0 else ps[i])
            && (forall i :: k <= i < |w.plist| ==> w.plist[i] == ps[i + 1])
  {
    hide Callback, Matches;
    if ps != [] && !(Matches(ps[0], r) && Callback(ps[0], r).1) {
      SweepReplyShape(ps[1..], r);
    }
  }

  /** The callbacks that run are those of the matching requests up to where the sweep stops. */
  lemma {:induction false} SweepReplyCalls(ps: seq<Pending>, r: Reply, q: nat)
    ensures q in SweepReply(ps, r).called <==>
            exists i :: 0 <= i <= StopAt(ps, r) && i < |ps| && Matches(ps[i], r) && ps[i].req == q
  {
    if ps != [] && !(Matches(ps[0], r) && Callback(ps[0], r).1) {
      SweepReplyCalls(ps[1..], r, q);
      if i :| 0 <= i <= StopAt(ps, r) && i < |ps| && Matches(ps[i], r) && ps[i].req == q {
        assert i > 0 ==> ps[1..][i - 1] == ps[i];
      }
      if i :| 0 <= i <= StopAt(ps[1..], r) && i < |ps| - 1 && Matches(ps[1..][i], r) && ps[1..][i].req == q {
        assert ps[i + 1] == ps[1..][i];
      }
    }
  }

  /** The callbacks of all matching requests run exactly if none of them is behind the one that the reply
      completes. */
  lemma ReachesAllExactly(ps: seq<Pending>, r: Reply)
    requires forall i, j :: 0 <= i < j < |ps| ==> ps[i].req != ps[j].req
    ensures (forall i :: 0 <= i < |ps| && Matches(ps[i], r) ==> ps[i].req in SweepReply(ps, r).called)
       <==> forall i :: StopAt(ps, r) < i < |ps| ==> !Matches(ps[i], r)
  {
    forall i | 0 <= i < |ps| && Matches(ps[i], r)
      ensures ps[i].req in SweepReply(ps, r).called <==> i <= StopAt(ps, r)
    {
      SweepReplyCalls(ps, r, ps[i].req);
    }
  }

  /** Of two pings to one node a pong completes the first and leaves the second alone. */
  lemma TwoPingsOnePong(p: Pending, q: Pending, r: Reply)
    requires Matches(p, r) && Matches(q, r) && r.ptype == PONG_PACKET
    ensures SweepReply([p, q], r) == Sweep([q], Some(p), [p.req])
  {
  }

  /** The timeout sweep keeps everything before the first expired request. */
  lemma {:induction false} TimeoutSweepAt(ps: seq<Pending>, v: int, i: nat)
    requires i <= |ps| && forall k :: 0 <= k < i ==> ps[k].deadline > v
    ensures i == |ps| ==> SweepExpired(ps, v) == Sweep(ps, None, [])
    ensures i < |ps| && ps[i].deadline <= v ==> SweepExpired(ps, v) == Sweep(ps[..i] + ps[i + 1..], Some(ps[i]), [])
  {
    if i > 0 {
      TimeoutSweepAt(ps[1..], v, i - 1);
      assert ps == [ps[0]] + ps[1..];
    }
  }

  /** The position of the first expired request, or the end. */
  function FirstExpired(ps: seq<Pending>, v: int): (k: nat)
    ensures k <= |ps| && (k < |ps| ==> ps[k].deadline <= v)
    ensures forall i :: 0 <= i < k ==> ps[i].deadline > v
  {
    if ps == [] || ps[0].deadline <= v then 0 else 1 + FirstExpired(ps[1..], v)
  }

  lemma SweepExpiredShape(ps: seq<Pending>, v: int) returns (k: nat)
    ensures k <= |ps|
    ensures var w := SweepExpired(ps, v);
            && (w.removed.Some? <==> k < |ps|)
            && (k < |ps| ==> w.removed == Some(ps[k]) && ps[k].deadline <= v && w.plist == ps[..k] + ps[k + 1..])
            && (k == |ps| ==> w.plist == ps)
            && (forall i :: 0 <= i < k ==> ps[i].deadline > v)
  {
    k := FirstExpired(ps, v);
    TimeoutSweepAt(ps, v, k);
  }

  /** How a step changes the list: in place, by appending, or by removing one element; request
      number, addressee, packet type and deadline of what stays never change. */
  predicate SameRequest(p: Pending, q: Pending) {
    p.req == q.req && p.from == q.from && p.ptype == q.ptype && p.deadline == q.deadline
  }

  /** `after` is `before` without the element at `k`, or all of it if `k` is the length. */
  ghost predicate Removes(before: seq<Pending>, after: seq<Pending>, k: nat) {
    && k <= |before| && |after| == |before| - (if k < |before| then 1 else 0)
    && forall i :: 0 <= i < |after| ==> SameRequest(after[i], before[if i < k then i else i + 1])
  }

  lemma SweepReplyRemoves(ps: seq<Pending>, r: Reply) returns (k: nat)
    ensures var w := SweepReply(ps, r);
            && Removes(ps, w.plist, k)
            && w.removed == (if k < |ps| then Some(Callback(ps[k], r).0) else None)
            && (k < |ps| ==> Matches(ps[k], r) && Callback(ps[k], r).1)
            && (forall q :: q in w.called ==> exists i :: 0 <= i < |ps| && ps[i].req == q)
  {
    k := StopAt(ps, r);
    SweepReplyShape(ps, r);
    forall q | q in SweepReply(ps, r).called
      ensures exists i :: 0 <= i < |ps| && ps[i].req == q
    {
      SweepReplyCalls(ps, r, q);
    }
  }

  lemma SweepExpiredRemoves(ps: seq<Pending>, v: int) returns (k: nat)
    ensures var w := SweepExpired(ps, v);
            && Removes(ps, w.plist, k)
            && w.removed == (if k < |ps| then Some(ps[k]) else None)
            && (k < |ps| ==> ps[k].deadline <= v)
            && (forall i :: 0 <= i < k ==> ps[i].deadline > v)
  {
    k := SweepExpiredShape(ps, v);
  }
}
