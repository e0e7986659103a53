/** Bonding in discover/table.go as a protocol between any number of concurrent callers of bond: one
    ping/pong per identifier at a time, shared by everyone who asks, and 16 slots for all of them. */
module Bonding {
  import opened NodeTypes

  const MAX_BONDING := 16

  /** What a finished ping/pong left in its record: an error, or the node. */
  datatype Outcome = Failed | BondedWith(node: Node)

  /** A bondproc: `closes` counts how often its `done` channel was closed. */
  datatype Proc = Proc(id: NodeId, owner: nat, closes: nat, outcome: Option<Outcome>)

  /** Where a caller of bond is. The owner of a process registers it, takes a slot, runs the ping/pong,
      closes `done`, gives the slot back, and unregisters; everyone else waits for `done`. */
  datatype Phase =
    | Started(id: NodeId)
    | Waiting(id: NodeId, w: nat)
    | Registered(id: NodeId, w: nat)
    | Running(id: NodeId, w: nat)
    | Closed(id: NodeId, w: nat)
    | Released(id: NodeId, w: nat)
    | Returned(id: NodeId, w: nat, outcome: Outcome)

  datatype State = State(callers: map<nat, Phase>, bonding: map<NodeId, nat>, procs: seq<Proc>, slots: nat)

  const INIT := State(map[], map[], [], MAX_BONDING)

  datatype Step =
    | Call(c: nat, id: NodeId)
    | Join(c: nat)
    | Register(c: nat)
    | Acquire(c: nat)
    | Finish(c: nat, outcome: Outcome)
    | Release(c: nat)
    | Unregister(c: nat)
    | Wake(c: nat)

  predicate Enabled(s: State, x: Step) {
    match x
    case Call(c, _) => c !in s.callers
    case Join(c) => c in s.callers && s.callers[c].Started? && s.callers[c].id in s.bonding
    case Register(c) => c in s.callers && s.callers[c].Started? && s.callers[c].id !in s.bonding
    case Acquire(c) => c in s.callers && s.callers[c].Registered? && s.slots > 0
    case Finish(c, o) =>
      c in s.callers && s.callers[c].Running? && s.callers[c].w < |s.procs| && (o.BondedWith? ==> o.node.id == s.callers[c].id)
    case Release(c) => c in s.callers && s.callers[c].Closed?
    case Unregister(c) =>
      c in s.callers && s.callers[c].Released? && s.callers[c].w < |s.procs| && s.procs[s.callers[c].w].outcome.Some?
    case Wake(c) =>
      && c in s.callers && s.callers[c].Waiting? && s.callers[c].w < |s.procs|
      && s.procs[s.callers[c].w].closes > 0 && s.procs[s.callers[c].w].outcome.Some?
  }

  function Next(s: State, x: Step): State
    requires Enabled(s, x)
  {
    match x
    case Call(c, id) => s.(callers := s.callers[c := Started(id)])
    case Join(c) =>
      var id := s.callers[c].id;
      s.(callers := s.callers[c := Waiting(id, s.bonding[id])])
    case Register(c) =>
      var id, w := s.callers[c].id, |s.procs|;
      s.(callers := s.callers[c := Registered(id, w)], bonding := s.bonding[id := w], procs := s.procs + [Proc(id, c, 0, None)])
    case Acquire(c) =>
      var p := s.callers[c];
      s.(callers := s.callers[c := Running(p.id, p.w)], slots := s.slots - 1)
    case Finish(c, o) =>
      var p := s.callers[c];
      var q := s.procs[p.w];
      s.(callers := s.callers[c := Closed(p.id, p.w)], procs := s.procs[p.w := q.(closes := q.closes + 1, outcome := Some(o))])
    case Release(c) =>
      var p := s.callers[c];
      s.(callers := s.callers[c := Released(p.id, p.w)], slots := s.slots + 1)
    case Unregister(c) =>
      var p := s.callers[c];
      s.(callers := s.callers[c := Returned(p.id, p.w, s.procs[p.w].outcome.value)], bonding := s.bonding - {p.id})
    case Wake(c) =>
      var p := s.callers[c];
      s.(callers := s.callers[c := Returned(p.id, p.w, s.procs[p.w].outcome.value)])
  }

  ghost predicate IsRun(s: State, xs: seq<Step>)
    decreases |xs|, 0
  {
    xs == [] || (IsRun(s, xs[..|xs| - 1]) && Enabled(Exec(s, xs[..|xs| - 1]), xs[|xs| - 1]))
  }

  ghost function Exec(s: State, xs: seq<Step>): State
    requires IsRun(s, xs)
    decreases |xs|, 1
  {
    if xs == [] then s else Next(Exec(s, xs[..|xs| - 1]), xs[|xs| - 1])
  }

  // ---------- The invariant ----------

  predicate Owns(p: Phase) {
    p.Registered? || p.Running? || p.Closed? || p.Released?
  }

  predicate HoldsSlot(p: Phase) {
    p.Running? || p.Closed?
  }

  ghost function Holders(s: State): set<nat> {
    set c | c in s.callers && HoldsSlot(s.callers[c])
  }

  /** A caller that has a process: which one, and what that process has done by then. */
  ghost predicate CallerOk(s: State, c: nat)
    requires c in s.callers
  {
    var p := s.callers[c];
    p.Started? ||
    (&& p.w < |s.procs| && s.procs[p.w].id == p.id
     && (Owns(p) ==> s.procs[p.w].owner == c && p.id in s.bonding && s.bonding[p.id] == p.w)
     && (p.Registered? || p.Running? ==> s.procs[p.w].closes == 0)
     && (p.Closed? || p.Released? || p.Returned? ==> s.procs[p.w].closes == 1)
     && (p.Returned? ==> s.procs[p.w].outcome == Some(p.outcome)))
  }

  /** A registered process belongs to an owner that has not unregistered it. */
  ghost predicate EntryOk(s: State, id: NodeId)
    requires id in s.bonding
  {
    var w := s.bonding[id];
    && w < |s.procs| && s.procs[w].id == id
    && s.procs[w].owner in s.callers && Owns(s.callers[s.procs[w].owner]) && s.callers[s.procs[w].owner].w == w
  }

  predicate ProcOk(p: Proc) {
    p.closes <= 1 && (p.outcome.Some? <==> p.closes == 1) && (p.outcome.Some? && p.outcome.value.BondedWith? ==> p.outcome.value.node.id == p.id)
  }

  ghost predicate Inv(s: State) {
    && (forall c :: c in s.callers ==> CallerOk(s, c))
    && (forall id :: id in s.bonding ==> EntryOk(s, id))
    && (forall w :: 0 <= w < |s.procs| ==> ProcOk(s.procs[w]))
    && s.slots + |Holders(s)| == MAX_BONDING
  }

  lemma {:induction false} StepInv(s: State, x: Step)
    requires Inv(s) && Enabled(s, x)
    ensures Inv(Next(s, x))
  {
    StepCallers(s, x);
    StepEntries(s, x);
    StepProcs(s, x);
    StepSlots(s, x);
  }

  lemma StepCallers(s: State, x: Step)
    requires Inv(s) && Enabled(s, x)
    ensures forall c :: c in Next(s, x).callers ==> CallerOk(Next(s, x), c)
  {
    hide Holders;
    var r := Next(s, x);
    assert x.c in s.callers ==> CallerOk(s, x.c);
    forall c | c in r.callers
      ensures CallerOk(r, c)
    {
      assert c in s.callers ==> CallerOk(s, c);
      if x.Join? {
        assert EntryOk(s, s.callers[x.c].id);
      }
    }
  }

  lemma StepEntries(s: State, x: Step)
    requires Inv(s) && Enabled(s, x)
    ensures forall id :: id in Next(s, x).bonding ==> EntryOk(Next(s, x), id)
  {
    var r := Next(s, x);
    assert x.c in s.callers ==> CallerOk(s, x.c);
    forall id | id in r.bonding
      ensures EntryOk(r, id)
    {
      assert id in s.bonding ==> EntryOk(s, id);
    }
  }

  lemma StepProcs(s: State, x: Step)
    requires Inv(s) && Enabled(s, x)
    ensures forall w :: 0 <= w < |Next(s, x).procs| ==> ProcOk(Next(s, x).procs[w])
  {
  }

  lemma StepSlots(s: State, x: Step)
    requires Inv(s) && Enabled(s, x)
    ensures Next(s, x).slots + |Holders(Next(s, x))| == MAX_BONDING
  {
    hide CallerOk, EntryOk, ProcOk;
    var r := Next(s, x);
    if x.Acquire? {
      assert Holders(r) == Holders(s) + {x.c};
    } else if x.Release? {
      assert Holders(r) == Holders(s) - {x.c};
    } else {
      assert Holders(r) == Holders(s);
    }
  }

  lemma {:induction false} RunInv(xs: seq<Step>)
    requires IsRun(INIT, xs)
    ensures Inv(Exec(INIT, xs))
    decreases |xs|
  {
    if xs == [] {
      assert Holders(INIT) == {};
    } else {
      RunInv(xs[..|xs| - 1]);
      StepInv(Exec(INIT, xs[..|xs| - 1]), xs[|xs| - 1]);
    }
  }

  /** Caller `c` has a process of its own in progress. */
  predicate OwnsFor(s: State, c: nat) {
    c in s.callers && Owns(s.callers[c])
  }

  /** Under every interleaving of callers: at most one ping/pong per identifier is in progress, free
      slots and slot holders always make 16, and `done` of every process is closed at most once, and
      exactly once by the time its owner gives the slot back. */
  lemma SingleFlight(xs: seq<Step>)
    requires IsRun(INIT, xs)
    ensures var s := Exec(INIT, xs);
            && (forall c, d :: OwnsFor(s, c) && OwnsFor(s, d) && s.callers[c].id == s.callers[d].id ==> c == d)
            && s.slots + |Holders(s)| == 16
            && (forall w :: 0 <= w < |s.procs| ==> s.procs[w].closes <= 1)
            && (forall c :: c in s.callers && (s.callers[c].Released? || s.callers[c].Returned?) ==>
                  s.callers[c].w < |s.procs| && s.procs[s.callers[c].w].closes == 1)
  {
    RunInv(xs);
    var s := Exec(INIT, xs);
    forall c, d | OwnsFor(s, c) && OwnsFor(s, d) && s.callers[c].id == s.callers[d].id
      ensures c == d
    {
      assert CallerOk(s, c) && CallerOk(s, d);
    }
    assert forall c :: c in s.callers ==> CallerOk(s, c);
  }

  /** Whoever shared a process returns the same outcome, the one its owner left there; a bonded node
      has the identifier asked for. */
  lemma SharedOutcome(xs: seq<Step>, c: nat, d: nat)
    requires IsRun(INIT, xs)
    requires c in Exec(INIT, xs).callers && d in Exec(INIT, xs).callers
    requires var s := Exec(INIT, xs); s.callers[c].Returned? && s.callers[d].Returned? && s.callers[c].w == s.callers[d].w
    ensures var s := Exec(INIT, xs);
            && s.callers[c].outcome == s.callers[d].outcome && s.callers[c].id == s.callers[d].id
            && (s.callers[c].outcome.BondedWith? ==> s.callers[c].outcome.node.id == s.callers[c].id)
  {
    RunInv(xs);
    var s := Exec(INIT, xs);
    assert CallerOk(s, c) && CallerOk(s, d);
    assert ProcOk(s.procs[s.callers[c].w]);
  }

  /** The owner that unregisters removes its own process, not a later one for the same identifier; and
      the registered process of any other identifier stays. */
  lemma OwnerRemovesOwnEntry(xs: seq<Step>, c: nat)
    requires IsRun(INIT, xs) && Enabled(Exec(INIT, xs), Unregister(c))
    ensures var s := Exec(INIT, xs);
            var p, r := s.callers[c], Next(s, Unregister(c));
            && p.id in s.bonding && s.bonding[p.id] == p.w && s.procs[p.w].owner == c
            && p.id !in r.bonding
            && (forall id :: id in s.bonding && id != p.id ==> id in r.bonding && r.bonding[id] == s.bonding[id])
  {
    RunInv(xs);
    assert CallerOk(Exec(INIT, xs), c);
  }

  /** Nobody waits for a process that nobody will finish: a waiter's process is closed already, or its
      owner is still on the way to closing it. */
  lemma WaitersServed(xs: seq<Step>, c: nat)
    requires IsRun(INIT, xs)
    requires c in Exec(INIT, xs).callers && Exec(INIT, xs).callers[c].Waiting?
    ensures var s := Exec(INIT, xs);
            Enabled(s, Wake(c)) ||
            (exists d :: d in s.callers && (s.callers[d].Registered? || s.callers[d].Running?) && s.callers[d].w == s.callers[c].w)
  {
    RunInv(xs);
    var s := Exec(INIT, xs);
    assert CallerOk(s, c) && ProcOk(s.procs[s.callers[c].w]);
    if s.procs[s.callers[c].w].closes == 0 {
      OpenProcOwned(xs, s.callers[c].w);
    }
  }

  /** A process whose `done` is open has an owner before the end of its ping/pong. */
  lemma {:induction false} OpenProcOwned(xs: seq<Step>, w: nat)
    requires IsRun(INIT, xs) && w < |Exec(INIT, xs).procs| && Exec(INIT, xs).procs[w].closes == 0
    ensures var s := Exec(INIT, xs);
            var d := s.procs[w].owner;
            d in s.callers && (s.callers[d].Registered? || s.callers[d].Running?) && s.callers[d].w == w
    decreases |xs|
  {
    if xs != [] {
      var prev, x := Exec(INIT, xs[..|xs| - 1]), xs[|xs| - 1];
      RunInv(xs[..|xs| - 1]);
      assert x.c in prev.callers ==> CallerOk(prev, x.c);
      if w < |prev.procs| {
        OpenProcOwned(xs[..|xs| - 1], w);
      }
    }
  }

  /** What a process left behind is what its owner's ping/pong came to. */
  ghost predicate OutcomesFinished(s: State, xs: seq<Step>) {
    && (forall w :: 0 <= w < |s.procs| && s.procs[w].outcome.Some? ==> Finish(s.procs[w].owner, s.procs[w].outcome.value) in xs)
    && (forall c, o :: Finish(c, o) in xs ==> HasFinished(s, c, o))
  }

  predicate HasFinished(s: State, c: nat, o: Outcome) {
    && c in s.callers && (s.callers[c].Closed? || s.callers[c].Released? || s.callers[c].Returned?)
    && s.callers[c].w < |s.procs| && s.procs[s.callers[c].w].outcome == Some(o)
  }

  lemma FinishedStays(s: State, x: Step, c: nat, o: Outcome)
    requires Inv(s) && Enabled(s, x) && HasFinished(s, c, o)
    ensures HasFinished(Next(s, x), c, o)
  {
    hide Holders;
    assert CallerOk(s, c) && (x.c in s.callers ==> CallerOk(s, x.c));
    assert ProcOk(s.procs[s.callers[c].w]);
  }

  lemma {:induction false} RunOutcomes(xs: seq<Step>)
    requires IsRun(INIT, xs)
    ensures OutcomesFinished(Exec(INIT, xs), xs)
    decreases |xs|
  {
    if xs != [] {
      var m := |xs| - 1;
      var s, x, r := Exec(INIT, xs[..m]), xs[m], Exec(INIT, xs);
      assert xs == xs[..m] + [x];
      RunOutcomes(xs[..m]);
      RunInv(xs[..m]);
      OutcomesStep(s, x, xs[..m]);
    }
  }

  lemma OutcomesStep(s: State, x: Step, xs: seq<Step>)
    requires Inv(s) && Enabled(s, x) && OutcomesFinished(s, xs)
    ensures OutcomesFinished(Next(s, x), xs + [x])
  {
    var r := Next(s, x);
    assert (xs + [x])[|xs|] == x;
    assert x.c in s.callers ==> CallerOk(s, x.c);
    forall w | 0 <= w < |r.procs| && r.procs[w].outcome.Some?
      ensures Finish(r.procs[w].owner, r.procs[w].outcome.value) in xs + [x]
    {
    }
    forall c, o | Finish(c, o) in xs + [x]
      ensures HasFinished(r, c, o)
    {
      if Finish(c, o) in xs {
        FinishedStays(s, x, c, o);
      }
    }
  }

  /** Every caller that waited or pinged returns exactly the outcome that the owner of its process finished
      with, and a finished ping/pong has only one. */
  lemma ReturnsWhatFinished(xs: seq<Step>, c: nat, o: Outcome)
    requires IsRun(INIT, xs) && c in Exec(INIT, xs).callers && Exec(INIT, xs).callers[c].Returned?
    ensures var s := Exec(INIT, xs);
            var p := s.callers[c];
            p.w < |s.procs| && s.procs[p.w].id == p.id && (p.outcome == o <==> Finish(s.procs[p.w].owner, o) in xs)
  {
    var s := Exec(INIT, xs);
    RunInv(xs);
    RunOutcomes(xs);
    assert CallerOk(s, c);
    var p := s.callers[c];
    var owner := s.procs[p.w].owner;
    if Finish(owner, o) in xs {
      assert HasFinished(s, owner, o);
      assert CallerOk(s, owner);
      OwnersProcess(xs, p.w);
    }
  }

  /** An owner has no other process. */
  lemma {:induction false} OwnersProcess(xs: seq<Step>, w: nat)
    requires IsRun(INIT, xs) && w < |Exec(INIT, xs).procs|
    ensures var s := Exec(INIT, xs);
            var c := s.procs[w].owner;
            c in s.callers && !s.callers[c].Started? && !s.callers[c].Waiting? && s.callers[c].w == w
    decreases |xs|
  {
    if xs != [] {
      var s, x := Exec(INIT, xs[..|xs| - 1]), xs[|xs| - 1];
      RunInv(xs[..|xs| - 1]);
      assert x.c in s.callers ==> CallerOk(s, x.c);
      if w < |s.procs| {
        OwnersProcess(xs[..|xs| - 1], w);
      }
    }
  }
}
