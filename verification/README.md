# Verified model of a Kademlia peer-to-peer stack

This project models, in Dafny, the core of a peer-to-peer library: the dial scheduler and run loop of its
server, its Kademlia table with bonding and iterative lookup, the UDP request/reply matcher, base58, the
TCP framing with its handshake, and the key space of the node store. `dafny verify dfyconfig.toml` checks
all of it.

Each component has two layers. A specification layer of datatypes and functions says what an operation
computes; concurrent components are state machines whose steps are the atomic actions of the goroutines,
with the clock, map iteration orders, randomness, network replies and store contents as arbitrary inputs.
Classes and methods with loops follow the imperative code and are proved equal to the specification. The
theorems are about the specification, mostly over every run.

| file | models |
|---|---|
| `node_types.dfy` | bytes, identifiers, digests, nodes |
| `dial_history.dfy`, `dial_state.dfy` | the history heap and one round of dial scheduling |
| `server_loop.dfy`, `server_runs.dfy`, `server_history.dfy`, `run_loop.dfy` | the run loop as a machine, the theorems over its runs, its state told from the run, the mutable loop |
| `exact_rounds.dfy`, `server_configs.dfy`, `server_bound.dfy` | rounds as sets of nodes, runs followed by them, and the runs that show the bound to be sharp |
| `peer_entries.dfy` | the peer map connection by connection |
| `udp_loop.dfy`, `udp_verdicts.dfy`, `udp_answers.dfy`, `udp_timers.dfy`, `udp_findnode.dfy`, `udp_matcher.dfy` | the UDP loop as a machine, exactly-once verdicts, who gets which and when, timer coverage, what findnode requests collect, the mutable loop |
| `findnode_gate.dfy`, `findnode_answer.dfy`, `wire_size.dfy` | who gets a neighbors reply, with which nodes, and which packets leave |
| `xor_metric.dfy`, `closest.dfy` | distances, bounded sorted insertion, the nearest nodes |
| `table.dfy`, `own_node.dfy`, `table_store.dfy` | buckets over all sequences of operations, our own and any other node in them, the mutable table, ReadRandomNodes |
| `lookup.dfy`, `lookup_repeats.dfy`, `refresh.dfy` | the iterative lookup, repeats in its result, its recursion with refresh |
| `bonding.dfy` | single-flight bonding with slots |
| `base58.dfy` | both directions of the codec |
| `framing.dfy`, `handshake.dfy` | messages on a stream, the hello exchange |
| `node_db.dfy` | keys, deletion, expiry and seeds |

## Where the code and its promises part

The model follows the code. For each natural claim below that is false of it, the project proves exactly
when the claim holds, and gives an input where that condition does not already name one.

- Every task is run. Tasks made while all 16 slots are taken are lost (`server.go:180-192`):
  `ServerRuns.LossExactlyWhenFull`, and what follows, `ServerRuns.StrandedForever`. The bound under which
  no run loses any is `ServerRuns.NoTaskLost`; the runs of `ServerBound.BoundIsSharp` exceed it by one.
- A peer is listed while it is connected. A departing connection deletes whatever entry its identifier has
  (`server.go:221-224`): `PeerEntries.DepartureExample`, `PeerEntries.DepartureExactly`.
- A tick times out all expired requests, and a reply reaches all matching callbacks. A list element that is
  removed loses its links, so each sweep ends at its first removal (`discover/udp.go:299-325`):
  `UdpTimers.TickTakesOne`, `UdpLoop.TwoPingsOnePong`, `UdpLoop.ReachesAllExactly`, and how many ticks it
  takes, `UdpTimers.ExpiredTimedOut`.
- ReadRandomNodes reports what it wrote. It reports one node too many exactly if the table holds more than
  the buffer (`discover/table.go:130`): `TableStore.ReadRandomNodes`; its one caller is safe,
  `TableStore.ReportMeetsDialer`.
- A lookup result names each node once (`discover/table.go:177-236`): `LookupRepeats.RepeatExample`,
  `LookupRepeats.LookupRepeatsExactly`.
- A lookup returns. It waits forever if a store write fails in a query (`discover/table.go:214-216`):
  `LookupRepeats.BlockExample`, `Lookup.Search`.
- Buckets are newest last, as the comment at `discover/table.go:56-58` says: they are newest first,
  `Table.BucketsNewestFirst`, `Table.NewestLastExactly`.
- Our own node is not in our table. `add` keeps it out, `bond` does not (`discover/table.go:397-405` and
  `490`): `OwnNode.OwnExample`, `OwnNode.OwnExactly`.
- A findnode request is answered with the nodes nearest to its target. The sender's identifier is used
  instead (`discover/types.go:101`): `FindnodeAnswer.WrongAnswer`, `FindnodeAnswer.RightExactlyWhenSmall`.
- The answer is sent. encodePacket refuses bodies of 256 bytes or more (`discover/udp.go:350-353`), and an
  identifier takes at least 129 of them: `FindnodeAnswer.HandleFindnode`, `WireSize.NeighborsLeaveExactly`,
  `WireSize.FindnodeLeavesExactly`.
- A handshake succeeds or fails with an error. A message of another type, or one that is too short, crashes
  it (`peerconn.go:130-132`), and so does one of 2^32 - 6 to 2^32 - 1 bytes, for which adding the header
  length wraps around in 32 bits (`message.go:117`): `Handshake.CrashExamples`, `Handshake.CrashesExactly`.
- A message survives framing: `Framing.FrameRoundTrip`, exactly if its body is under 2^32 bytes.
- splitKey inverts makeKey: `NodeDb.SplitInvertsMake`. Base58 decoding can be undone:
  `Base58.EncodeDecode`.

## Model

| member | source | states |
|---|---|---|
| `DialHistory.History.Add` | dial.go:73-75 | heap.Push keeps the heap order and adds exactly the one entry, as a multiset |
| `DialHistory.History.Up` | dial.go:73-75 | sifting up repairs the one possible violation and only permutes |
| `DialHistory.History.Down` | dial.go:84-88 | sifting down within a prefix repairs the one possible violation, leaves the rest alone and only permutes |
| `DialHistory.History.Pop` | dial.go:84-102 | removes exactly the root, keeps the heap order and every other entry |
| `DialHistory.History.Contains` | dial.go:76-83 | true exactly if some entry has the identifier |
| `DialHistory.History.Expire` | dial.go:84-88 | leaves exactly the entries that do not expire before `now`, each as often as before |
| `DialHistory.SwapUp` | dial.go:90-92 | one sift-up swap moves the only violation to the parent |
| `DialHistory.SwapDown` | dial.go:90-92 | one sift-down swap with the earlier child moves the only violation to that child |
| `DialHistory.SwapEnds` | dial.go:84-102 | swapping first and last leaves only the root out of order among the rest |
| `DialHistory.RootExpiresFirst` | dial.go:70-72 | the root of a heap expires no later than any entry |
| `DialState.Scheduler.constructor` | dial.go:131-144 | a new scheduler holds the last node configured for each identifier and nothing else |
| `DialState.Scheduler.AddStatic` | dial.go:146-148 | the new state, with one static node set and all else unchanged |
| `DialState.Scheduler.RemoveStatic` | dial.go:149-151 | the new state, with one static node removed and all else unchanged |
| `DialState.Scheduler.TryDial` | dial.go:155-167 | the addDial closure refines AddDial, and reports exactly whether a task was made |
| `DialState.Scheduler.DialEach` | dial.go:181-183 | dialing in a loop refines the pass AddDials |
| `DialState.Scheduler.DialRandom` | dial.go:184-192 | the random phase refines a pass over at most half of the need; every slot it reads was written by that call |
| `DialState.Scheduler.DialFromBuffer` | dial.go:193-199 | the buffer loop refines Drain, the used part of the buffer is dropped and the need counts down with the dials |
| `DialState.Scheduler.DialRound` | dial.go:181-199 | the three dialing phases refine BufferPhase |
| `DialState.Scheduler.ConcludeRound` | dial.go:200-208 | the end of a round refines Conclude |
| `DialState.Scheduler.MinExpiry` | dial.go:70-72 | the heap root has the least expiry of the history |
| `DialState.Scheduler.NewTasks` | dial.go:153-210 | newTasks refines PlanTasks, about which the lemmas below are proved, and keeps the history heap |
| `DialState.Scheduler.TaskDone` | dial.go:213-225 | taskDone refines AfterTask: a finished lookup fills the buffer, a finished dial enters the history for 30 seconds |
| `DialState.CountDynamic` | dial.go:168-178 | counting dynamic entries in any map order gives the number of dynamic keys |
| `DialState.TwoPasses` | dial.go:181-198 | the round is one static pass followed by one dynamic pass |
| `DialState.DrainIsPass` | dial.go:193-199 | draining the buffer is a pass over exactly the part it uses |
| `DialState.DrainQuota` | dial.go:193-198 | draining never overdraws the need and stops early only when nothing is needed |
| `DialState.RoundDialsFresh` | dial.go:155-167 | each dial of a round is of a node not connected, not in the history, not being dialed and not dialed twice; `dialing` grows by exactly these dials with their flags |
| `DialState.RoundDialsSources` | dial.go:181-198 | static dials come first, with the static flag; the others are tried dynamic nodes with the dynamic flag |
| `DialState.StaticsCovered` | dial.go:181-183 | after a round every static node is connected, being dialed or in the history |
| `DialState.RandomNodesCovered` | dial.go:184-192 | once bootstrapped, a round tries the nodes read from the table, as many as half of the dynamic dials needed: each is afterwards being dialed, connected or in the history |
| `DialState.DialsComeFrom` | dial.go:181-199 | every dial carries the static flag and is of a static node, or the dynamic flag and is of a buffered node or of one of those table nodes |
| `DialState.StaticMapLast` | dial.go:140-148 | of several nodes configured under one identifier the last one counts |
| `DialState.BufferConsumed` | dial.go:193-199 | nodes leave the lookup buffer only from the front and only when being dialed, connected or in the history; the rest stays in order |
| `DialState.RoundQuota` | dial.go:168-198 | dynamic dials of a round never exceed the positive need at its start, and use up the buffer if some need is left |
| `DialState.NeedMetOrLookup` | dial.go:168-203 | after a round the dynamic quota is reached, or the buffer is empty and a lookup is running |
| `DialState.LookupStartsUnmet` | dial.go:193-203 | a round that starts a lookup has used up the buffer and left the dynamic quota unmet |
| `DialState.EmptyBufferUnmet` | dial.go:184-192 | with an empty buffer a round dials at most half of the need, so it does not meet the quota |
| `DialState.RoundExtraTask` | dial.go:200-209 | besides dials there is at most one task: a lookup exactly when lookupRunning is newly set, or, with nothing else to do or running, a wait of exactly the least remaining time |
| `DialState.RoundWaitsExactly` | dial.go:205-208 | a round waits if and only if nothing is dialed or started, nothing runs and the history is not empty |
| `ServerLoop.ScheduleKeepsOrDrops` | server.go:174-193 | scheduleTasks appends the new tasks, or drops them exactly when all 16 slots are taken |
| `ServerLoop.RoundTasksOk` | server.go:194-198 | the tasks of a round on top of the outstanding ones: distinct dials with recorded flags, at most one lookup and one wait |
| `ServerLoop.RoundInv` | server.go:194-199 | one round takes the loop invariant to its form at the select statement |
| `ServerLoop.ApplyInv` | server.go:199-224 | every select case keeps the loop invariant |
| `ServerLoop.EventQuota` | server.go:200-223 | no event makes a node dynamic that was not already dynamic or being dialed as such |
| `ServerLoop.FinishedTasksOk` | server.go:217-219 | finishing any outstanding task keeps the others in order |
| `ServerLoop.InitInv` | server.go:160-164 | the loop invariant holds at the start |
| `ServerLoop.RunInv` | server.go:194-225 | the loop invariant holds after every run |
| `ServerRuns.DynamicQuotaHolds` | server.go:194-225 | at every select of every run, nodes that are dynamic peers or being dialed as such number at most maxDynDials, although a node is counted twice between addpeer and taskdone |
| `ServerRuns.OutstandingTasksHold` | server.go:165-199 | at every select of every run: at most 16 tasks run, tasks wait only while 16 run, outstanding dials are of distinct nodes with the recorded flag, at most one lookup and one wait are outstanding |
| `ServerRuns.NoTaskLost` | server.go:174-198 | if all static nodes ever added, the quota and one more fit 16 slots, no run loses a task: `dialing` is exactly the outstanding dials, lookupRunning exactly an outstanding lookup, nothing waits |
| `ServerRuns.RoundHasRoom` | dial.go:184-203 | a round keeps: while a lookup is recorded as running the buffer is empty and the dynamic quota is not met |
| `ServerBound.BoundIsSharp` | server.go:174-198 | for every way to split 16 into static nodes and dynamic quota, and any distinct nodes, some run loses a task: without a quota the dial of a static node, otherwise a lookup; its clock does not go back, only connected peers leave, lookups find at most 16 nodes |
| `ServerBound.QuotaLosesLookup` | server.go:174-224 | the run for a positive quota: bootstrap, two lookups, all dynamic nodes connect, all dials end, a wait starts, static nodes are dialed again, dynamic peers leave and are replaced until 16 tasks run |
| `ServerBound.StaticsLoseDial` | server.go:174-224 | the run for 16 static nodes, one of which is done dialing a moment after the others |
| `ServerConfigs.TriedRound` | server.go:194-198 | one turn's round as a step between sets of nodes: who is dialed, how many tasks it makes, and the next configuration if they fit the slots |
| `ExactRounds.AddDialsExact` | dial.go:155-167 | a pass over candidates dials exactly those that are not busy and not yet being dialed |
| `ExactRounds.RoundMakes` | dial.go:153-210 | a round whose dynamic candidates are fresh dials exactly them and the static nodes that are due; it makes one further task exactly if it starts a lookup, or if nothing is dialed or running and the history is not empty |
| `ExactRounds.FirstTried` | dial.go:193-199 | with one dynamic dial needed, a round takes exactly the first node of the buffer if that is fresh |
| `ExactRounds.AllTried` | dial.go:184-199 | a buffer of fresh nodes that cannot meet the need is used up, whatever part of it the table lists |
| `ServerRuns.RoundLosesNothing` | server.go:174-198 | one round under that bound appends all its tasks |
| `ServerRuns.LossExactlyWhenFull` | server.go:180-192 | the exact condition for losing tasks: all slots are taken and the round makes some; each lost dial leaves its node recorded as being dialed, a lost lookup leaves lookupRunning set |
| `ServerRuns.LateStaticNodeStranded` | server.go:180-201 | for all configurations of 16 or more static nodes, a static node added before any dial has finished is recorded as being dialed and its task dropped |
| `ServerRuns.StrandedForever` | dial.go:155-160 | a node whose dial was lost is never dialed again, in any continuation |
| `ServerRuns.LookupStrandedForever` | dial.go:200-203 | a lost lookup is never restarted, in any continuation |
| `ServerRuns.RedialsSpaced` | dial.go:213-224 | with a clock that never goes back, any two dial tasks for one node in one run are more than 30 seconds apart |
| `ServerRuns.FirstRound` | dial.go:181-183 | the first round dials exactly the configured static nodes |
| `ServerHistory.StaticExactly` | server.go:200-203 | in every run a node is static if and only if it was configured or added and its identifier was neither removed nor added again since |
| `ServerHistory.PeerExactly` | server.go:202-224 | in every run a peer is listed, with a given flag, if and only if a connection entered it so and none replaced or removed it since |
| `ServerHistory.DialingExactly` | dial.go:155-167 | in every run a node is recorded as being dialed if and only if a round made a dial task for it that has not ended since |
| `ServerHistory.HistoryExactly` | dial.go:213-224 | in every run the history holds exactly the dials that ended, each for thirty seconds from the round before its end |
| `ServerHistory.StaticRound` | dial.go:155-183 | a round dials a static node as such if and only if it is not being dialed, connected or in the live history |
| `ServerHistory.StaticDialsExactly` | server.go:194-224 | in every round of every run whose clock does not go back, a node is dialed as static if and only if it was configured or added and not removed since, no dial of it is open, it is not connected and no dial of it ended within the last thirty seconds |
| `ServerHistory.RemovedStaysRemoved` | server.go:202-210 | after a removal no round dials the node as static until it is added again, and every other static node stays static |
| `RunLoop.Loop.constructor` | server.go:160-164 | the loop starts in the initial state of the machine |
| `RunLoop.Loop.ScheduleTasks` | server.go:174-193 | scheduleTasks on the mutable lists refines Schedule |
| `RunLoop.Loop.DelTask` | server.go:165-172 | delTask removes the first occurrence and nothing else |
| `RunLoop.Loop.StartRound` | server.go:194-198 | the top of the loop refines Round |
| `RunLoop.Loop.Handle` | server.go:199-224 | the select cases refine Apply |
| `PeerEntries.SameKeys` | server.go:202-224 | the peer map followed connection by connection has the keys of the server's map after every event |
| `PeerEntries.ListedExactly` | server.go:202-224 | over every run: the entry of an identifier is connection j if and only if j was added for it and nothing since has touched that identifier |
| `PeerEntries.DepartureExactly` | server.go:221-230 | a departing connection deletes the entry of another one if and only if the node was added again since and nothing has touched it after that |
| `PeerEntries.DepartureExample` | server.go:211-230 | a node that connects twice is not listed once its first connection ends, although the second is still up |
| `RunLoop.Loop.Run` | server.go:194-225 | the whole mutable loop ends in the state of the machine's run, so every run theorem is about it |
| `UdpLoop.SweepReplyShape` | discover/udp.go:298-312 | a reply sweep removes the first request that is done, updates matching ones before it and does not touch what is behind |
| `UdpLoop.SweepReplyCalls` | discover/udp.go:299-312 | the callbacks that run are exactly those of matching requests up to where the sweep stops |
| `UdpLoop.ReachesAllExactly` | discover/udp.go:95-100 | a reply reaches the callbacks of all matching requests if and only if none of them is behind the one it completes |
| `UdpLoop.TwoPingsOnePong` | discover/udp.go:299-311 | of two pings to one node a pong completes the first and does not reach the second |
| `UdpLoop.SweepExpiredShape` | discover/udp.go:318-325 | a timeout sweep removes exactly the first expired request |
| `UdpAnswers.OkExactly` | discover/udp.go:188-190 | over every run a request other than a findnode succeeds if and only if at some step a reply of its type from its node arrives while it is the first one waiting for such a reply |
| `UdpAnswers.VerdictsExactly` | discover/udp.go:240-327 | over every run, which verdicts each step adds: the first one waiting succeeds at a reply; a tick times out the first one made half a second before or earlier; re-arming gives up the first one if the clock was set back half a second behind it; closing ends all that are left |
| `UdpAnswers.GotAdds` | discover/udp.go:295-315 | a reply is reported as matched if and only if some request waits for it |
| `UdpVerdicts.StepInv` | discover/udp.go:217-328 | every step keeps: unsettled requests are exactly the pending ones, no request has two verdicts |
| `UdpVerdicts.ExactlyOneVerdict` | discover/udp.go:217-328 | over every run, closing and clock jumps included, a request is pending without a verdict or has exactly one, and no callback runs after it; so the one-place channel never blocks the loop |
| `UdpVerdicts.RunJustified` | discover/udp.go:296-313 | in every run a successful request was made earlier and then answered by a matching reply from its addressee |
| `UdpTimers.RearmTimerInv` | discover/udp.go:253-275 | with a clock that never goes back, re-arming drops nothing and keeps the timer invariant |
| `UdpTimers.StepTimerInv` | discover/udp.go:277-326 | every step keeps: list sorted by deadline, head covered by timer or tick |
| `UdpTimers.TimerCoversHead` | discover/udp.go:253-279 | in every run with such a clock the list is sorted, at every select its head is nextTimeout with the timer armed for it or a tick waiting, and the clock-warp branch is never taken |
| `UdpTimers.TickTakesOne` | discover/udp.go:317-325 | a tick times out one request if any has expired, so it leaves none if and only if at most one had |
| `UdpTimers.StepBacklog` | discover/udp.go:315-325 | no step adds to the backlog of expired requests and every tick lowers it |
| `UdpTimers.ExpiredTimedOut` | discover/udp.go:315-325 | k expired requests are all gone after k + 1 ticks, however these interleave, although a tick times out at most one |
| `UdpTimers.TickAvailable` | discover/udp.go:257-266 | at a select with an expired request a tick is waiting or the timer is due |
| `UdpMatcher.Matcher.constructor` | discover/udp.go:242-251 | the loop starts in the initial state of the machine |
| `UdpMatcher.Matcher.Rearm` | discover/udp.go:253-275 | resetTimeout refines the Rearm step |
| `UdpMatcher.Matcher.AddPending` | discover/udp.go:290-294 | the addpending case refines the Add step |
| `UdpMatcher.Matcher.GotReply` | discover/udp.go:296-313 | the gotreply case refines the Got step; `matched` is true exactly if a pending request had that sender and type |
| `UdpMatcher.Matcher.OnTick` | discover/udp.go:315-325 | the timer case refines the Tick step |
| `UdpMatcher.Matcher.OnClose` | discover/udp.go:284-288 | the closing case refines the LoopClose step |
| `UdpMatcher.ReplySweep` | discover/udp.go:298-312 | the loop over the list computes SweepReply and whether anything matched |
| `UdpMatcher.TimeoutSweep` | discover/udp.go:318-325 | the loop over the list computes SweepExpired |
| `UdpFindnode.FindnodeCollects` | discover/udp.go:194-206 | in every run a pending findnode request has counted exactly the nodes listed by the replies its callback was given, fewer than 16, and holds the valid ones |
| `UdpFindnode.FindnodeVerdict` | discover/udp.go:194-213 | in every run a findnode request succeeds if and only if those replies listed 16 nodes or more by then |
| `UdpFindnode.GotCompletes` | discover/udp.go:296-311 | a reply that completes a findnode request leaves it with exactly the valid nodes among all it was told |
| `UdpFindnode.NeighborsReach` | discover/udp.go:295-315 | over every run a neighbors reply is given to exactly the requests that wait for it up to the first one it completes, and exactly that one succeeds |
| `UdpFindnode.AcceptExactly` | discover/udp.go:198-204 | of the nodes listed the valid ones are kept, in order |
| `FindnodeGate.AnswersOnlyToBonded` | discover/types.go:87-117 | from an empty store, every neighbors reply is preceded by our ping to that node, then a matched pong from it, then that ping's success |
| `FindnodeGate.GateStepInv` | discover/table.go:413-442 | every step keeps: a stored record goes back to a proved ping |
| `FindnodeGate.KnownExactly` | discover/table.go:413-442 | in every run a node has a record if and only if a bond with it was recorded and not forgotten since |
| `FindnodeGate.AnswersExactly` | discover/types.go:87-117 | in every run a findnode request is answered if and only if so, and nothing else is |
| `FindnodeAnswer.HandleFindnode` | discover/types.go:87-117 | an outdated request or one from an unknown node gets nothing; otherwise one packet with the nodes nearest to the sender is handed to send, whatever the target, and it leaves if and only if it lists a single node and fits |
| `FindnodeAnswer.Chunk` | discover/types.go:107-115 | for any list the loop hands on the nodes in order, in packets that are full but for the last, none empty |
| `FindnodeAnswer.OnePacket` | discover/types.go:103-115 | 16 nodes or fewer make one packet |
| `FindnodeAnswer.SendAll` | discover/udp.go:329-339 | what leaves is exactly the packets whose body is accepted |
| `FindnodeAnswer.RightExactlyWhenSmall` | discover/types.go:101-103 | in a table of nodes with different digests the answer holds the nodes nearest to the digest of the target, for every target identifier, if and only if the table has at most 16 nodes |
| `FindnodeAnswer.WrongAnswer` | discover/types.go:101-103 | in every larger table, for every sender, a node is left out of the answer although the target is its own identifier |
| `WireSize.NeighborsLeaveExactly` | discover/udp.go:346-353 | a neighbors packet leaves if and only if it lists one node whose text and the expiration fit 255 bytes |
| `WireSize.FindnodeLeavesExactly` | discover/udp.go:346-353 | a findnode request leaves if and only if its target's bytes of at least 10, those of at least 100 and the digits of its expiration number at most 101 together; never if all bytes have three digits |
| `WireSize.PingsLeave` | discover/udp.go:346-353 | pings and pongs always leave |
| `WireSize.PacketsAre` | discover/types.go:12-50 | the lengths of pings, pongs, findnode requests and endpoints are those of their JSON texts |
| `WireSize.NodeIs` | discover/types.go:39-44 | likewise for a node |
| `WireSize.NeighborsAre` | discover/types.go:34-37 | likewise for a neighbors packet |
| `XorMetric.ComputeLogDist` | discover/node.go:176-188 | for all equal-length strings the loop computes the bit length of the XOR read as a big-endian number |
| `XorMetric.LzCountIsBitLen` | discover/node.go:141-173 | the lookup table gives, for every byte, eight minus its bit length |
| `XorMetric.ComputeDistCmp` | discover/node.go:193-204 | the early-return scan computes the sign of the difference of the two XOR distances as numbers |
| `XorMetric.DistIsMetricLike` | discover/node.go:176-204 | both distances are symmetric and zero exactly for equal strings |
| `XorMetric.DistInjective` | discover/node.go:193-204 | for one target each distance belongs to one string only |
| `XorMetric.NearerBucketIsNearer` | discover/node.go:176-204 | a smaller logarithmic distance implies a smaller distance |
| `XorMetric.LogDistUltrametric` | discover/node.go:176-188 | logdist(a, c) is at most the larger of logdist(a, b) and logdist(b, c) |
| `XorMetric.LogDistBound` | discover/node.go:176-188 | distances of 32-byte digests index 257 buckets |
| `Closest.NodesByDistance.SearchFarther` | discover/table.go:547-549 | the binary search finds the first entry farther than the node |
| `Closest.NodesByDistance.Push` | discover/table.go:546-562 | push keeps the list sorted and bounded, and is insertion cut to the bound |
| `Closest.TakeInsertTake` | discover/table.go:550-561 | cutting before an insertion changes nothing within the bound |
| `Closest.PushedAllIsSortedFront` | discover/table.go:546-562 | pushing nodes one by one keeps exactly the front of all of them sorted |
| `Closest.SortAllSorts` | discover/table.go:546-562 | the reference sort is sorted and a permutation |
| `Closest.SortedFrontIsNearest` | discover/table.go:303-314 | the front of the sort is as long as possible, a sub-multiset, and nothing left out is nearer than anything kept |
| `Closest.FindClosest` | discover/table.go:303-314 | closest returns the k nearest of all table nodes, sorted |
| `Table.ApplyOk` | discover/table.go:487-536 | every bond, addition and deletion keeps the table well formed |
| `Table.TableStaysWellFormed` | discover/table.go:397-536 | after every sequence of operations, whatever the pings answer, each node is in the bucket of its distance, no bucket exceeds 16 and each identifier occurs once in the table |
| `Table.WellFormedUnique` | discover/table.go:487-536 | an identifier occurs at most once in a well-formed table |
| `Table.BucketsNewestFirst` | discover/table.go:444-464 | without `add`, buckets are ordered by last bond, newest first, for every sequence of operations |
| `Table.BondNewestFirst` | discover/table.go:397-408 | one bond keeps that order in every bucket |
| `Table.NewestLastExactly` | discover/table.go:56-62 | a bucket has its newest node last, as the comment says, if and only if it holds at most one node |
| `Table.BondEvicts` | discover/table.go:444-464 | bonding removes an entry if and only if it is the last of a full bucket, the node is new and the last entry failed to answer |
| `OwnNode.OwnStep` | discover/table.go:397-524 | exactly what each bond, addition and deletion does to our own node in the table |
| `OwnNode.OwnOnlyByBond` | discover/table.go:487-493 | after every sequence of operations our own node is in the table only if it was bonded and not deleted since |
| `OwnNode.OwnExactly` | discover/table.go:397-524 | if no other identifier has our digest, it is there if and only if so |
| `OwnNode.OwnExample` | discover/table.go:397-405 | one bond with ourselves puts us into our own table |
| `OwnNode.BondMembers` | discover/table.go:397-464 | exactly who is in the table after a bond |
| `OwnNode.DelMembers` | discover/table.go:511-524 | exactly who is in the table after a deletion |
| `OwnNode.AddMembers` | discover/table.go:486-508 | exactly who is in the table after adding a node, and nobody is moved |
| `OwnNode.AddOneByOne` | discover/table.go:486-508 | adding several nodes is adding them one after the other |
| `TableStore.KadTable.Bump` | discover/table.go:526-536 | bump reports whether the node is known and moves it to the front, in place |
| `TableStore.KadTable.PingReplace` | discover/table.go:444-464 | pingreplace refines Place for an unknown node |
| `TableStore.KadTable.PlaceBonded` | discover/table.go:397-405 | the end of bond refines the Bond operation |
| `TableStore.KadTable.AddNodes` | discover/table.go:487-509 | add refines the Add operation |
| `TableStore.KadTable.DelNode` | discover/table.go:513-524 | del refines the Del operation |
| `TableStore.NonEmpty` | discover/table.go:100-107 | collects exactly the non-empty buckets, in order |
| `TableStore.Shuffle` | discover/table.go:113-116 | for every source of randomness the buckets are rearranged, and each of two or more leaves its place |
| `TableStore.TakeHead` | discover/table.go:120-125 | moves one node out and drops a bucket it empties, so no emptied bucket is indexed again |
| `TableStore.FillRoundRobin` | discover/table.go:118-130 | the loop writes heads in turn until the buffer or the table runs out, and counts one too many when the buffer fills first; where no bucket holds a single node, the first written are the heads of all buckets in order |
| `TableStore.ReadRandomNodes` | discover/table.go:95-131 | returns min(table size, buffer length + 1), writes min(table size, buffer length) nodes that form a sub-multiset of the table, the heads of the shuffled buckets first where none holds a single node, and leaves the rest of the buffer alone |
| `TableStore.ReadNodesDistinct` | discover/table.go:92-94 | what is read from a well-formed table has pairwise distinct identifiers |
| `TableStore.ReportMeetsDialer` | dial.go:184-192 | the overstated count is one the dial scheduler reads safely |
| `Lookup.AskRound` | discover/table.go:203-227 | each query goes to the nearest entry that is neither ourselves nor asked before; at most three are pending, nobody is asked twice, and every entry is asked unless three are pending |
| `Lookup.TakeReply` | discover/table.go:233-238 | pushes exactly the first node received for each identifier |
| `Lookup.SearchLoop` | discover/table.go:201-240 | for every reply order and content twice the unasked identifiers plus the pending queries decreases, so the loop ends, if and only if every query replies |
| `Lookup.Search` | discover/table.go:173-242 | returns if and only if every query replies; each query goes, with fewer than three pending, to the nearest node of the result set at that time not asked before, which is of the table or was named by an earlier reply; never to ourselves; the result is the sorted 16 nearest of the table and everything pushed, and every node in it was asked or is ourselves |
| `Lookup.QueriedKnown` | discover/table.go:202-207 | a node asked is one of the table or was named by an earlier reply |
| `Lookup.FirstByIdKeepsOne` | discover/table.go:234-236 | what replies push has each received identifier exactly once |
| `Lookup.PushedTwiceExactly` | discover/table.go:190-236 | an identifier is pushed twice exactly if a reply names a node the table held, since initial results are not marked as seen |
| `LookupRepeats.LookupRepeatsExactly` | discover/table.go:190-241 | for every well-formed table and all replies: the result names an identifier twice if and only if a reply names a table node whose second copy has at most 15 of everything pushed before it |
| `LookupRepeats.RepeatsExactly` | discover/table.go:546-562 | the nearest k of any pushed nodes repeat an identifier if and only if some later copy is among the first k in order |
| `LookupRepeats.SortedAtPos` | discover/table.go:546-562 | every pushed node is in the sort at the number of nodes that are nearer, or equally near and pushed earlier |
| `LookupRepeats.FlattenDistinct` | discover/table.go:308-312 | a well-formed table lists each identifier once |
| `LookupRepeats.RepeatExample` | discover/table.go:173-242 | a lookup whose every reply names the one node of the table returns it twice |
| `LookupRepeats.BlockExample` | discover/table.go:208-216 | a lookup whose one query ends without a reply never returns |
| `Refresh.BondFills` | discover/table.go:397-405 | a bond leaves the table non-empty, whatever the ping of the last node answers |
| `Refresh.OpKeepsFull` | discover/table.go:397-524 | only a deletion can empty the table |
| `Refresh.LookupOrRefresh` | discover/table.go:173-199 | whatever other goroutines do before each critical section, the single bonds of one bondall included, the mutual recursion of Lookup and refresh ends, at most three calls deep, one on a table with nodes, plus two for each deletion by others; a table with nodes yields nothing only after such a deletion; it blocks only if a query does not reply; undisturbed, it returns the nodes found for its target and leaves exactly the changes of its bonds and failed queries |
| `Refresh.RefreshTable` | discover/table.go:246-299 | likewise at most two calls deep, plus two for each deletion by others; undisturbed, an empty table gets the seeds and then the changes of one lookup of our own identifier, a table with nodes those of one lookup of the random target, and without seeds or target nothing happens |
| `Refresh.RefreshFills` | discover/table.go:283-295 | undisturbed, a refresh of an empty table that bonds with a seed leaves it with nodes, unless its lookup deletes some |
| `Bonding.StepInv` | discover/table.go:366-394 | every step of any caller keeps the bonding invariant |
| `Bonding.SingleFlight` | discover/table.go:357-442 | under every interleaving: at most one ping/pong per identifier, free slots plus holders is 16, `done` is closed at most once and exactly once when its owner gives the slot back |
| `Bonding.SharedOutcome` | discover/table.go:387-391 | everyone who shared a process returns its outcome; a bonded node has the identifier asked for |
| `Bonding.OwnerRemovesOwnEntry` | discover/table.go:382-385 | the owner deletes its own entry of the map and no other |
| `Bonding.WaitersServed` | discover/table.go:371-373 | a waiter can go on, or its owner is still before the end of its ping/pong |
| `Bonding.OpenProcOwned` | discover/table.go:413-442 | a process whose `done` is open has an owner on the way to closing it |
| `Bonding.ReturnsWhatFinished` | discover/table.go:387-391 | every caller returns the outcome o if and only if the owner of its process finished with o |
| `Base58.DecodeEncode` | common/base58.go:50-105 | decoding an encoding gives the bytes back, leading zeros, all zeros and empty included |
| `Base58.EncodeDecode` | common/base58.go:50-105 | encoding a decoding gives the string back if and only if all its characters are in the alphabet |
| `Base58.ConvertInverse` | common/base58.go:50-105 | converting a digit string to another base and back is the identity |
| `Base58.DigitsOfVal` | common/base58.go:81-97 | a digit string is its leading zeros followed by the digits of its value |
| `Base58.TablesInvert` | common/base58.go:10-48 | alphabet and lookup table invert each other |
| `Base58.AlphabetIs` | common/base58.go:10-48 | the alphabet is the ASCII digits and letters in order, without 0, I, O and l |
| `Base58.EncodeExample` | common/base58.go:81-104 | the byte 0 followed by the number 300 encodes as 16B |
| `Base58.EncodeDigits` | common/base58.go:86-90 | the division loop yields the base-58 digits as characters, last first |
| `Base58.AppendOnes` | common/base58.go:92-97 | one '1' for each leading zero byte |
| `Base58.ReverseInPlace` | common/base58.go:99-102 | the swapping loop reverses |
| `Base58.B58Encode` | common/base58.go:81-105 | the three loops compute the base conversion |
| `Base58.SumDigits` | common/base58.go:51-64 | the power loop computes the value, and gives up exactly on a foreign character |
| `Base58.CountOnes` | common/base58.go:68-73 | counts the leading zero digits |
| `Base58.B58Decode` | common/base58.go:50-79 | the loops compute the base conversion, or nothing for a foreign character |
| `Framing.FrameRoundTrip` | message.go:56-88 | a frame is read back as the message it was made of if and only if the body is under 2^32 bytes |
| `Framing.FrameBytes` | message.go:56-88 | the layout of a frame: version, type, length with its lowest byte first, body |
| `Framing.HeaderLength` | peerconn.go:160-162 | the length the reader takes from the header is the body's length modulo 2^32 |
| `Framing.PrefixYieldsNothing` | message.go:60-79 | a proper prefix of a frame never yields a message |
| `Framing.StreamRoundTrip` | message.go:56-88 | any sequence of messages is read back as it was |
| `Framing.BrokenStream` | message.go:56-88 | a stream that breaks off anywhere yields exactly the messages whose frames fit |
| `Framing.ReadMessage` | message.go:56-88 | the two byte-wise loops compute the parse and stop exactly behind the message |
| `Framing.WriteMessage` | peerconn.go:159-171 | writes the frame |
| `Handshake.HelloRoundTrip` | message.go:97-154 | a marshalled hello or reply is read back as it was, whatever follows it |
| `Handshake.HonestHandshake` | peerconn.go:51-122 | between honest endpoints the server completes if and only if the versions agree and the client dialed it; then the client completes, with a common version and each holding the other's identifier |
| `Handshake.WritesExactly` | peerconn.go:51-122 | for every stream what each side sends, to the byte: the client its hello as soon as it can write, the server its reply once it has accepted a hello, and nothing else |
| `Handshake.CutHandshakeFails` | peerconn.go:51-122 | a hello cut short makes either side fail without completing |
| `Handshake.CrashesExactly` | peerconn.go:67-156 | for every stream, whether or not writing succeeds, either side crashes if and only if it reads a whole first frame of another type, with a body under 64 bytes, or with one of 2^32 - 6 bytes or more, whose end wraps around |
| `Handshake.CrashExamples` | peerconn.go:125-156 | a message without a body crashes any endpoint, and so do a hello of the other side's type and a hello with a body of 2^32 - 6 to 2^32 - 1 bytes |
| `Handshake.CompletesExactly` | peerconn.go:51-122 | for every stream either side completes if and only if writing succeeds and the stream begins with a hello of the right type and version whose second identifier, zero-padded if short, is the receiver's; then exactly the identifier or the status is set |
| `Handshake.PeerConn.ReadHelloOf` | peerconn.go:125-156 | reading a hello refines TakeHello, wrong types, short bodies and bodies whose end wraps around included |
| `Handshake.PeerConn.ServerHandshake` | peerconn.go:88-122 | refines Server, failed writes included; the identifier is set only after all checks |
| `Handshake.PeerConn.ClientHandshake` | peerconn.go:51-85 | refines Client, failed writes included; the status is set only after all checks |
| `NodeDb.SplitInvertsMake` | discover/nodedb.go:53-71 | splitKey inverts makeKey if and only if the identifier is not nil or the field does not look like a node key |
| `NodeDb.MakeInvertsSplit` | discover/nodedb.go:53-71 | makeKey inverts splitKey on node keys |
| `NodeDb.KeysDistinct` | discover/nodedb.go:53-58 | keys of non-nil identifiers never collide |
| `NodeDb.KeyOfIsMade` | discover/nodedb.go:97-105 | the keys deleteNode removes for an identifier are exactly those makeKey builds for it |
| `NodeDb.PongKept` | discover/nodedb.go:152-154 | deleting other identifiers leaves an identifier's last pong alone |
| `NodeDb.DeletedExactly` | discover/nodedb.go:94-112 | of the keys makeKey builds, deleting identifiers removes exactly theirs |
| `NodeDb.ExpiredExactly` | discover/nodedb.go:164-186 | a key is expired if and only if its node has a record and is ourselves or the pong stored for it is a day old |
| `NodeDb.OtherKeysKept` | discover/nodedb.go:99-101 | keys that are no node's stay |
| `NodeDb.PongKeepsNode` | discover/nodedb.go:152-186 | a node whose pong was stored outlives an expiry if and only if less than a day lies between, counted from the whole second |
| `NodeDb.SeedExactly` | discover/nodedb.go:72-84 | the records that can be seeds are those of other nodes, as they were stored |
| `NodeDb.NodeStore.UpdateNode` | discover/nodedb.go:85-92 | stores the record under the node's key and changes nothing else |
| `NodeDb.NodeStore.UpdateLastPong` | discover/nodedb.go:157-159 | stores the whole seconds and changes nothing else |
| `NodeDb.NodeStore.DeleteNode` | discover/nodedb.go:94-112 | removes exactly the node keys of the identifier, in any iteration order |
| `NodeDb.NodeStore.ExpireNodes` | discover/nodedb.go:164-186 | removes exactly the keys of recorded nodes that are ourselves or whose last pong is not after the threshold, judged by the store before the call |
| `NodeDb.NodeStore.QuerySeeds` | discover/nodedb.go:206-238 | returns up to n recorded nodes other than ourselves from keys not visited before, passes over none, keeps its place, and restarts after an empty result |

## Left out

- NodeDb.NodeStore.DeleteNode: assumes, like the code, that every node key is long enough to hold an identifier, which holds of all keys that makeKey builds; store writes succeed, iteration is over a snapshot, and an item's key is assumed to stay valid after the iterator moves on.
- NodeDb.NodeStore.ExpireNodes: as for DeleteNode.
- NodeDb.NodeStore.QuerySeeds: as for DeleteNode; records that cannot be decoded count as absent.
- Base58.ReverseInPlace: reverses a sequence variable; aliasing of the byte slice is not modelled.
- TableStore.KadTable.Bump: buckets are sequences that the methods reassign; sharing of their backing arrays with ReadRandomNodes is not modelled.
- Framing.ReadMessage: a read that returns no byte and no error is not modelled; reading ends with an error only at the end of the stream.
- RunLoop.Loop.DelTask: compares tasks by value; outstanding tasks differ in value, so this is the identity comparison of the code.
- RunLoop.Loop.Handle: lets a peer depart at any time, also one that is not connected, so that its runs include those of the code; which connection an entry holds is followed in PeerEntries.
- Bonding: a caller of bond whose node is recorded and has not failed since returns it at once; it takes no part in the protocol and is not modelled.
- UdpTimers: timers fire no earlier than they are due and hold one unread tick, as Go's did before version 1.23; nothing is claimed about real time.
- WireSize: how an address is written as text is a parameter, and datagrams that leave may still be lost.
- Node endpoints: the order of UDP and TCP ports differs between callers (`discover/table.go:435`), so nothing is claimed about them.
- Bootstrapping sleeps, the delay between lookups and the liveness loops of connected peers.
- Network address translation (`nat/`), sockets, listeners and logging.
- The Badger storage wrapper, replaced by a map; decoding of packets; signatures. The digest of an identifier is an arbitrary function.
- The length-prefix codec, hexadecimal, URL and node-string helpers under `common/` and in `discover/node.go`: they turn keys, addresses and signatures into text or bytes for configuration, logs and signing, and none of the protocols modelled here reads what they write.
