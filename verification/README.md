# Faultbox: verified models

Faultbox injects faults into running systems and explores interleavings. This project
models the parts of it whose correctness is hardest to see from the code and proves what
they promise, for every input, every run and every interleaving.

| component | modules |
|---|---|
| Kafka group observer: when is a consumer ready | KafkaState, KafkaSteps, KafkaRuns, KafkaAnswers, KafkaSessions, KafkaObserver |
| Kafka wire framing | KafkaFrames |
| Packet data path: deadline queue, pacer, rule pipeline, flow identity | DeferQueue, Shaper, FlowId, Endpoint, Pacing, Closing, Reordering, FaultEndpoint |
| Exploration scheduler and hold queue | Permutations, HoldQueue, HoldWait |
| Connection ownership tracker | Ownership, ConnTracker |
| Dependency order, path patterns, name suggestions | DependencyOrder, PathMatch, PathPatterns, EditDistance |
| Gateway address book, rules, rule book and its publication | Addresses, Gateway, Matching, Publishing |
| Shared | Options, Conversations, Text |

How the models are built:

- A run is a sequence of states and atomic steps, and steps of different goroutines or
  connections interleave freely. The run theorems quantify over all runs. In the Kafka
  observer, the pacer, the hold queue, waiting and publishing a step is one mutex-protected
  region; in the deadline queue also one channel operation. Three steps span several
  regions: handling a packet, installing rules, and resolving a binding. For the last two
  the finer steps are modelled as well: Publishing splits an install, and a resolution
  overtaken by other steps may store its answer at any later time.
- Operations are also described from the outside, by fields, steps and logs rather than by
  the step functions: what a release does to sinks and queue (`Pacing.ReleaseOutcome`), when
  a scheduled callback may run (`DeferQueue.DelaysAreKept`), whom a forwarded connection
  belongs to (`ConnTracker.ForwardStandsFor`), what each Kafka answer changes
  (KafkaAnswers), what a rule matches (`Matching.MatchesExactly`).
- State that the code updates in place is a class. Its methods are proved equal to the
  step functions the run theorems are about, so those theorems speak about the methods.
- Go map iteration is an arbitrary choice of the next key; results are proved not to
  depend on it.
- Process liveness, socket scans, clocks, transmission times, rule verdicts and short
  writes are parameters: the theorems hold whatever they answer. The clock of the
  deadline queue never goes back.
- A Kafka request is answered at most once: the connection removes the pending record
  before it hands the response over.

Where the code and its promises part:

- An address has two variable octets, filled in whatever the mask. Addresses are distinct
  exactly while the subnet is no wider than a /16 (`Addresses.SubnetIsUnambiguousExactly`).
  They lie in the subnet exactly when it is at least as wide as a /16 or its third octet is
  zero (`Addresses.KeepsToSubnetExactly`); 10.99.5.0/24 is left
  (`Addresses.NarrowSubnetIsLeft`).
- Addresses are said not to depend on the order of requests
  (internal/netfault/alloc.go:49-52), but the code counts upwards: two triples swap their
  addresses with their order (`Addresses.OrderMatters`). Two sequences of requests agree
  exactly when the keys served are first asked for in the same order
  (`Addresses.SameAddressesExactly`).
- Rule and address keys join three names with NUL bytes, so a key identifies its triple
  exactly when none of the names contains one (`Addresses.KeyIsUniqueExactly`).
- A negative permutation index is an out-of-range access unless it is a multiple of the
  total (`Permutations.PermutationFromIndex`).
- A cancelled wait can sleep on: the broadcast is lost exactly when it comes between the
  test of the context and the joining of the condition's list (`HoldWait.StuckExactly`).
- Rules are handed to the endpoint after unlocking, so of two overlapping installs the
  older list can be published last. The newest is in place exactly when no call changed
  the book after the publishing call had flattened it (`Publishing.NewestExactly`).
- An empty candidate name can be nearest but is never suggested (`EditDistance.Nearest`).

## Model

| member | source | states |
|---|---|---|
| KafkaSteps.StepKeepsInv | internal/protocol/kafka_groups.go:72-325 | every request, response, lost request and topic update keeps: assignments are answered sequence numbers, group epochs are below the assignments of members that hold partitions |
| KafkaSteps.StepEvolves | internal/protocol/kafka_groups.go:72-325 | what one step may change: epochs and generations only grow, partitions are held as before or under the step's own sequence, a rebalanced group holds nothing, a new assignment is announced last |
| KafkaRuns.RunKeepsInv | internal/protocol/kafka_groups.go:72-325 | the invariant holds in every reachable state of every interleaving |
| KafkaRuns.RunIsMonotone | internal/protocol/kafka_groups.go:72-79 | along any run epochs and generations never decrease, and within an epoch assignments never decrease |
| KafkaRuns.PendingWasRequested | internal/protocol/kafka_groups.go:80-142 | a pending request is exactly what one earlier step recorded |
| KafkaRuns.OnlyFetchIsReady | internal/protocol/kafka_groups.go:146-232 | only an admitted, error-free Fetch response can emit a ready event |
| KafkaRuns.ReadyAtMostOnce | internal/protocol/kafka_groups.go:303-313 | over a whole run each (group, member, assignment, partition) becomes ready at most once |
| KafkaRuns.ReadyNeedsNewerSync | internal/protocol/kafka_groups.go:175-196 | a ready event is backed by an earlier SyncGroup event with no rebalance of the group after it and only smaller epochs before it |
| KafkaRuns.ReadyExactly | internal/protocol/kafka_groups.go:255-313 | a position becomes ready if and only if, field by field, the response accepts it, its one captured assignment still stands, its member is the only one that may claim the fetch, ownership is known on both sides or neither, and it was not ready |
| KafkaRuns.ReadyIsSound | internal/protocol/kafka_groups.go:121-135 | a ready event answers a Fetch of its client, requested when the announced assignment, epoch and generation already stood; they stand in every state up to the response; at both ends the member has that client and a process not known to be gone, while every other holder has another client, a dead process or a different one; ownership agrees |
| KafkaState.HoldersAreClaimants | internal/protocol/kafka_groups.go:330-338 | whom the observer takes for possible owners of a fetch: exactly the holders with its client, not known to be gone nor known to be another process |
| KafkaAnswers.UnheardChangesNothing | internal/protocol/kafka_groups.go:146-162 | an answer whose owner is gone or whose connection changed hands changes nothing, and only the latter is reported |
| KafkaAnswers.RequestExactly | internal/protocol/kafka_groups.go:80-95 | a live owner's join request revokes every member's partitions and moves the epoch at once; no other request changes a group |
| KafkaAnswers.JoinExactly | internal/protocol/kafka_groups.go:163-174 | exactly which join answers count, what they set and what they leave alone |
| KafkaAnswers.SyncExactly | internal/protocol/kafka_groups.go:175-196 | accepted exactly when successful, decodable, for the group's generation and not older than epoch or assignment; then the member holds just the told partitions, unready, each announced; otherwise nothing changes |
| KafkaAnswers.HeartbeatExactly | internal/protocol/kafka_groups.go:197-202 | invalidates the group exactly on an error for the current generation that is not older than the epoch; otherwise nothing changes |
| KafkaAnswers.LeaveExactly | internal/protocol/kafka_groups.go:203-223 | accepted exactly when successful and not older than the epoch; then exactly the members named, or listed without error from version 3, are gone and announced, and the rest hold nothing |
| KafkaAnswers.StatusExactly | internal/protocol/kafka_groups.go:243-252 | a partition's status is the error of its last entry in the answer, by name or identifier; without an entry it has none |
| KafkaAnswers.UpdatesExactly | internal/protocol/kafka_groups.go:111-120 | each requested partition, topic by topic, is one offset update under the topic's resolved name |
| KafkaAnswers.ForgottenExactly | internal/protocol/kafka_groups.go:102-110 | each forgotten partition, topic by topic, is one forgotten key |
| KafkaAnswers.SessionExactly | internal/protocol/kafka_groups.go:237-325 | an error or a closing fetch leaves no session under the asked key, a success with a session number stores one, and other sessions stay |
| KafkaAnswers.AmbiguousExactly | internal/protocol/kafka_groups.go:255-285 | an accepted position is reported; it is ambiguous exactly while several assignments or members may claim it, reported when it becomes so |
| KafkaSessions.TurnMeans | internal/protocol/kafka_groups.go:96-120 | one exchange carries the full-fetch meaning of a history to the history with that exchange added |
| KafkaSessions.ObserverTurn | internal/protocol/kafka_groups.go:243-260 | what the observer stores after an exchange is the forget-then-update turn of what it started from, with statuses applied |
| KafkaSessions.SessionIsFullFetchMeaning | internal/protocol/kafka_groups.go:315-323 | along any run the tracked incremental session equals the KIP-227 meaning of the whole exchange history: membership, last offset sent, last status since the partition was added |
| KafkaObserver.Observing.constructor | internal/protocol/kafka_groups.go:61-71 | starts with no groups, sessions or sequence |
| KafkaObserver.Observing.Request | internal/protocol/kafka_groups.go:80-142 | in-place request handling has exactly the new state, pending record and events of the request step |
| KafkaObserver.Observing.FindGroup | internal/protocol/kafka_groups.go:61-71 | looking a group up creates it and changes nothing else |
| KafkaObserver.Observing.InvalidateGroup | internal/protocol/kafka_groups.go:72-79 | the member loop clears every member's partitions under the new epoch, whatever the map order, and reports the old generation |
| KafkaObserver.Observing.Requested | internal/protocol/kafka_groups.go:96-120 | the positions asked for: session, minus forgotten, overridden by updates |
| KafkaObserver.Observing.Capture | internal/protocol/kafka_groups.go:121-134 | each usable position once, whatever the map order, with the assignments holding it now |
| KafkaObserver.Observing.CollectRefs | internal/protocol/kafka_groups.go:126-132 | each once and in any map order, the assignment of every member, across all groups, that holds the partition under this client and is not known to be gone or another process |
| KafkaObserver.Observing.CountHolders | internal/protocol/kafka_groups.go:265-272 | counts exactly those members |
| KafkaObserver.Observing.ObserveGroup | internal/protocol/kafka_groups.go:146-232 | in-place response handling has exactly the new state and events of the response step, including inactive sources and changed ownership |
| KafkaObserver.Observing.ObserveJoin | internal/protocol/kafka_groups.go:163-174 | raises the generation and adds an unknown member, unless the response is an error or older than the group's generation |
| KafkaObserver.Observing.ObserveHeartbeat | internal/protocol/kafka_groups.go:197-202 | rebalances exactly on an error for the current generation and epoch |
| KafkaObserver.Observing.Assignments | internal/protocol/kafka_groups.go:179-190 | one unready partition and one event per assigned key |
| KafkaObserver.Observing.ObserveSync | internal/protocol/kafka_groups.go:175-196 | accepts an assignment only for the current generation, epoch and newest sequence; otherwise changes nothing but the group's existence |
| KafkaObserver.Observing.ObserveLeave | internal/protocol/kafka_groups.go:203-223 | removes the members that left and rebalances |
| KafkaObserver.Observing.Statuses | internal/protocol/kafka_groups.go:243-252 | the last status reported per partition |
| KafkaObserver.Observing.ObserveFetch | internal/protocol/kafka_groups.go:237-325 | positions in order, then the session table |
| KafkaObserver.Observing.ObservePosition | internal/protocol/kafka_groups.go:255-314 | one position's events, ambiguity mark and readiness |
| KafkaFrames.Frames | internal/protocol/kafka_observe.go:75-95 | the buffer loop equals the recursive cutting of buffer plus data |
| KafkaFrames.FeedAppend | internal/protocol/kafka_observe.go:75-95 | feeding a+b equals feeding a, then the remainder with b |
| KafkaFrames.ChunkingIsIrrelevant | internal/protocol/kafka_observe.go:75-95 | any chunking visits the same frames, fails alike and leaves the same remainder |
| KafkaFrames.RestIncomplete | internal/protocol/kafka_observe.go:75-95 | what is left after success is less than one frame |
| KafkaFrames.FramesRoundTrip | internal/protocol/kafka_observe.go:75-95 | cutting inverts framing for every list of frames and unfinished tail |
| KafkaFrames.HeaderOfLength | internal/protocol/kafka_observe.go:75-95 | the four length bytes and the length determine each other |
| KafkaFrames.LengthLimits | internal/protocol/kafka_observe.go:75-95 | a length below 4 bytes or above 64 MiB fails the stream at its header; any other waits for its frame |
| KafkaFrames.SendLoop | internal/protocol/kafka_observe.go:177-186 | the short-write loop equals the recursive send |
| KafkaFrames.SendSendsPrefix | internal/protocol/kafka_observe.go:177-186 | a send delivers all bytes, or a prefix and an error |
| KafkaFrames.SendFailsExactly | internal/protocol/kafka_observe.go:177-186 | short writes are carried on; sending fails exactly when a write fails or takes nothing |
| KafkaFrames.WriteSendsFrames | internal/protocol/kafka_observe.go:140-196 | downstream receives exactly the complete-frame prefix of the stream |
| KafkaFrames.WriteFailsOnlyWhen | internal/protocol/kafka_observe.go:140-196 | writing fails only on a failed or empty downstream write or an out-of-range length |
| KafkaFrames.Connection.Write | internal/protocol/kafka_observe.go:140-196 | sent bytes plus buffered bytes are all bytes written so far; an error means a failed or empty downstream write or a bad length, and only a prefix was sent |
| DeferQueue.RunKeepsInv | internal/netfault/defer.go:109-204 | order and wake-up invariants hold in every state of every interleaving of schedulers, runner, timer and stop |
| DeferQueue.RunsInOrderExactlyOnce | internal/netfault/defer.go:52-57 | accepted callbacks run in strictly increasing (deadline, insertion) order, none early unless flushed by stop; after stop all have run exactly once |
| DeferQueue.QueuedComeLater | internal/netfault/defer.go:131-172 | what is still queued comes after everything that has run |
| DeferQueue.DelaysAreKept | internal/netfault/defer.go:109-128 | along any run an accepted call's callback is accepted under the next insertion number, every log entry of that number is that callback, and unless stop flushed it, it ran no earlier than the call's clock plus its delay |
| DeferQueue.EarlierDueRunsFirst | internal/netfault/defer.go:51-57 | of two scheduled callbacks the one with the earlier call clock plus delay runs first, and of two due together the one scheduled first |
| DeferQueue.ScheduledRunsOnce | internal/netfault/defer.go:109-204 | a scheduled callback runs at most once, and has run once stop has returned |
| DeferQueue.RanWasScheduled | internal/netfault/defer.go:131-172 | every log entry is the callback of an accepted call |
| DeferQueue.ParksForTheEarliest | internal/netfault/defer.go:131-172 | when the runner parks, the timer is off if nothing waits and else set to the earliest waiting deadline |
| DeferQueue.NoLostWakeUp | internal/netfault/defer.go:109-172 | a parked runner with queued work has a token, a pending signal, a firing timer, or a timer armed no later than the head |
| DeferQueue.DueHeadCanRun | internal/netfault/defer.go:131-172 | from any reachable state a due head is run within a bounded number of internal steps |
| DeferQueue.StopCannotHang | internal/netfault/defer.go:177-204 | while stop waits, the runner always has a step that brings it to its exit |
| DeferQueue.Queue.Pop | internal/netfault/defer.go:51-75 | removes the least item |
| DeferQueue.Queue.Schedule | internal/netfault/defer.go:109-128 | accepted exactly before the stop; the locked region is the schedule step, whose callback, by DelaysAreKept, does not run before its delay is over |
| DeferQueue.Queue.RunLocked | internal/netfault/defer.go:131-172 | one locked pass of the loop is the runner's step |
| DeferQueue.Queue.StopLocked | internal/netfault/defer.go:177-204 | the locked part of stop takes every queued item in release order |
| Shaper.Pacer.constructor | internal/netfault/shape.go:126-131 | a non-positive backlog bound becomes the default |
| Shaper.Pacer.Reserve | internal/netfault/shape.go:138-161 | in-place admission is the admission step |
| Shaper.BacklogBound | internal/netfault/shape.go:126-131 | the backlog bound is the one asked for, or a quarter of a second when that is not positive |
| Shaper.WaitIsBounded | internal/netfault/shape.go:138-161 | every admitted packet leaves as early as arrival and link allow, after at most the backlog bound |
| Shaper.DropsExactlyWhenFull | internal/netfault/shape.go:138-161 | dropped if and only if the reservations made so far end more than the bound after its arrival |
| Shaper.DeparturesDoNotOverlap | internal/netfault/shape.go:138-161 | departures are at least the earlier packet's transmission time apart |
| Shaper.WindowIsBounded | internal/netfault/shape.go:138-161 | transmission time admitted in any window is at most the window plus the bound plus the last packet's own time |
| Shaper.StatsAreExact | internal/netfault/shape.go:171-177 | the counters account for every packet and the peak is the longest wait |
| Endpoint.HandlePlaces | internal/netfault/endpoint.go:368-449 | handling accounts for exactly the copies its verdict asks for, and touches no other packet's account |
| Endpoint.CopiesAreConserved | internal/netfault/endpoint.go:196-449 | in every state of every run, copies sent, waiting, batched or dropped by the pacer are those asked for, and references taken are given back or still owed |
| Pacing.ReleaseOutcome | internal/netfault/endpoint.go:196-226 | releasing on a free link, or without a pacer, sends; on a busy one it leaves the sinks alone and, unless the wait exceeds the bound and it is lost, queues exactly one callback due when the link is free, or sends when the queue has stopped |
| Pacing.PlainHandlingOutcome | internal/netfault/endpoint.go:253-306 | an inbound packet goes up the stack through the pacer of its direction, an outbound one into its batch through the other |
| Pacing.FiringOutcome | internal/netfault/endpoint.go:217-224 | a fired callback sends a paced packet, and releases a delayed one through the pacer it was handled under |
| Pacing.LettingGoOutcome | internal/netfault/endpoint.go:231-240 | a packet the reorder buffer lets go takes the route it was held with |
| Pacing.PacerSetExactly | internal/netfault/endpoint.go:134-151 | setting a pacer replaces that of its direction only |
| Pacing.SentOnlyWhenFree | internal/netfault/endpoint.go:196-226 | in any run, before the queue stops, a copy reaches a sink only when handled or let go while its link is free, or when a callback for it fires that is due, a delayed one again only on a free link |
| Pacing.DelayingWaits | internal/netfault/endpoint.go:405-416 | a delay verdict sends nothing and queues one callback due after the delay |
| Pacing.LeavesOnlyWhenDue | internal/netfault/endpoint.go:196-226 | in any run a waiting callback leaves the queue only by firing, not before it is due unless the queue has stopped |
| Pacing.LinkRuns | internal/netfault/shape.go:138-161 | along any run with a clock that never goes back, the reservations on a link are those of the pacer run on some arrivals in order |
| Pacing.RateIsBounded | internal/netfault/shape.go:138-161 | so the transmission time a run admits on a link in any window obeys the pacer's bound |
| Closing.BatchedAreOpen | internal/netfault/endpoint.go:320-357 | in every state of every run what waits in an egress batch waits in one that is not sealed |
| Closing.CloseDeliversEverything | internal/netfault/endpoint.go:231-240 | a run without open batches, followed by the steps of Close, ends with each packet sent as often as its verdicts asked, less the pacer's drops, and every reference given back |
| Closing.StoppedQueueShrinks | internal/netfault/endpoint.go:231-240 | after the queue stopped, a flushed callback never queues another |
| Reordering.HoldStarts | internal/netfault/defer.go:238-246 | a reorder verdict on a free conversation holds the packet with its count |
| Reordering.HoldCountsDown | internal/netfault/defer.go:250-263 | a hold loses one for each later packet of its conversation and nothing otherwise |
| Reordering.ReorderedLeavesAfterExactlyBy | internal/netfault/defer.go:238-263 | a reordered packet stays held while fewer than its count of later packets between the same endpoints were handled; the step handling the last one releases it right after that packet's own copies and ends the hold |
| Reordering.ActReleases | internal/netfault/endpoint.go:399-448 | how often each verdict hands its packet to the release callback at once |
| FaultEndpoint.HandleBalances | internal/netfault/endpoint.go:368-449 | handling a packet keeps the books: copies accounted for and asked for agree, references taken and given back differ by what waits |
| FaultEndpoint.SettledAccounts | internal/netfault/endpoint.go:231-240 | with nothing waiting, copies sent or dropped by the pacer are those asked for, and all references are back |
| FaultEndpoint.DataPath.HandlePacket | internal/netfault/endpoint.go:368-449 | in-place handling is the handling step, keeps every copy and reference accounted for, and adds the copies its verdict asks for |
| FaultEndpoint.DataPath.Deliver | internal/netfault/endpoint.go:368-449 | the same for a packet filed under the identifier computed from its endpoints |
| FaultEndpoint.DataPath.ActOn | internal/netfault/endpoint.go:383-449 | the verdict's action on a parsed packet is the action step |
| FaultEndpoint.DataPath.ReleasePacket | internal/netfault/endpoint.go:196-226 | in place: sent at once exactly without a pacer, on a free link or after the queue stopped; on a busy link the sinks stay and one callback joins the queue, or the packet is lost beyond the bound |
| FaultEndpoint.DataPath.Send | internal/netfault/endpoint.go:330-343 | an open batch buffers with a reference, a sealed one writes at once |
| FaultEndpoint.DataPath.SealBatch | internal/netfault/endpoint.go:345-357 | writes exactly the packets released into this batch, in that order and once each, gives their references back, leaves other batches alone and the accounts balanced |
| FaultEndpoint.DataPath.WritePackets | internal/netfault/endpoint.go:287-306 | handles the list into a new batch, sealed on return, reports them all, and leaves no batch open |
| FaultEndpoint.DataPath.AdvanceHold | internal/netfault/defer.go:250-263 | counts down the conversation's hold, handing it over when due |
| FaultEndpoint.DataPath.HoldPacket | internal/netfault/defer.go:238-246 | holds at most one packet per conversation, else releases at once |
| FaultEndpoint.DataPath.Close | internal/netfault/endpoint.go:231-240 | idempotent; otherwise a path of model steps that empties hold buffer and queue, after which, with no batch open, copies sent or dropped equal those asked for and references taken equal those given back |
| FlowId.BuildFlow | internal/netfault/packetview.go:291-309 | the builder writes the flow text |
| FlowId.FlowIdentifiesConversation | internal/netfault/packetview.go:291-309 | two packets share an identifier exactly when they have the same protocol and the same unordered pair of endpoints |
| Text.WriteUint | internal/netfault/packetview.go:311-323 | the 20-byte buffer always suffices and yields the decimal text |
| Text.DecimalInjective | internal/netfault/packetview.go:311-323 | different numbers have different texts |
| Text.DecimalMeans | internal/netfault/packetview.go:311-323 | the text of a number denotes it and has no leading zero |
| Permutations.Factorial | internal/engine/permutation.go:4-16 | the capped loop computes n! up to twelve and 12! beyond, 1 below two |
| Permutations.TotalIsFactorial | internal/engine/permutation.go:4-16 | the total is the factorial up to the cap |
| Permutations.PermutationFromIndex | internal/engine/permutation.go:20-44 | for every size and index, with truncated division: the decoded arrangement of the residue, or an out-of-range access exactly on a negative residue |
| Permutations.ResidueExactly | internal/engine/permutation.go:25-27 | a residue is usable exactly for non-negative indices and negative multiples of the total, and is then the ordinary remainder |
| Permutations.DecodeIsPermutation | internal/engine/permutation.go:20-44 | every index of every size selects a permutation |
| Permutations.DecodeIsIncreasing | internal/engine/permutation.go:20-44 | larger indices select lexicographically larger permutations |
| Permutations.DecodeIsInjective | internal/engine/permutation.go:20-44 | different indices select different permutations, at every size |
| Permutations.DecodeIsSurjective | internal/engine/permutation.go:20-44 | up to the cap decoding inverts ranking, so every permutation is selected |
| Permutations.RankInvertsDecode | internal/engine/permutation.go:20-44 | ranking inverts decoding: a bijection with 0..n!-1 |
| Permutations.LargeSizesFixTheFront | internal/engine/permutation.go:20-44 | beyond the cap only the last twelve places move |
| HoldQueue.RunConserves | internal/engine/hold.go:44-150 | no run loses, duplicates or invents a notification, and a closed queue is empty |
| HoldQueue.OneDecisionEach | internal/engine/hold.go:44-150 | a notification gets at most one decision, and exactly one once the queue is closed |
| HoldQueue.DeliveredByStep | internal/engine/hold.go:44-150 | each delivery of a run carries the decision of the step that made it and goes to the notification that step had to let go: the oldest, the one asked for, each in turn, or the late arrival |
| HoldQueue.HeldInArrivalOrder | internal/engine/hold.go:44-150 | at any point of any run the queue is in order of arrival, so its head is the oldest |
| HoldQueue.FirstInFirstOut | internal/engine/hold.go:85-105 | unless releases pick by index, decisions go out in order of arrival |
| HoldQueue.SurvivorShifts | internal/engine/scheduler.go:31-46 | a survivor stands as many places further left as earlier positions are gone |
| HoldQueue.DecodedIsArrangement | internal/engine/scheduler.go:20-49 | the selected permutation visits each of the n positions once |
| HoldQueue.ReleaseIsOrdered | internal/engine/scheduler.go:31-46 | the adjusted index is in range and names the notification that stood at perm[k], despite enqueues meanwhile |
| HoldQueue.CurrentIndex | internal/engine/scheduler.go:34-41 | the inner loop subtracts exactly the earlier released positions below |
| HoldQueue.ReleaseSnapshot | internal/engine/scheduler.go:31-46 | while the queue stays open no release fails and the order is the permutation's; it fails exactly at the first release after a close, which lets go of the rest in order |
| HoldQueue.SelectableExactly | internal/engine/scheduler.go:26 | which indices select an arrangement, and which one, by the ordinary remainder |
| HoldQueue.ReleaseInOrder | internal/engine/scheduler.go:20-49 | all outcomes: cancelled, nothing to do, panic on a negative residue, released in order, or failed at the first release after a close |
| HoldWait.RunKeepsInv | internal/engine/hold.go:57-81 | in every interleaving a parked wait is neither served nor closed: no notification and no close is slept through |
| HoldWait.ReturnsWhenReady | internal/engine/hold.go:57-81 | wait succeeds only with enough notifications or a closed queue, and its context alive |
| HoldWait.TestExactly | internal/engine/hold.go:57-81 | the test returns successfully, returns the cancellation, or waits on, exactly as counts, close and context say |
| HoldWait.StuckExactly | internal/engine/hold.go:57-81 | wait sleeps on after a cancellation if and only if the broadcast came between its context test and its joining the condition's list |
| HoldWait.StuckUntilWoken | internal/engine/hold.go:44-54 | such a wait is freed only by a notification or a close |
| HoldWait.CancellationIsMissed | internal/engine/hold.go:57-81 | a run in which this happens |
| HoldWait.CancellationArrives | internal/engine/hold.go:57-81 | in every other case wait returns the cancellation at its next test |
| HoldQueue.Queue.Add | internal/engine/hold.go:44-54 | appends, or allows at once when closed |
| HoldQueue.Queue.ReleaseOldest | internal/engine/hold.go:85-95 | decides the oldest, false when empty |
| HoldQueue.Queue.ReleaseEverything | internal/engine/hold.go:98-105 | decides all, in order |
| HoldQueue.Queue.ReleaseAt | internal/engine/hold.go:109-119 | decides one position, false out of range |
| HoldQueue.Queue.Shut | internal/engine/hold.go:138-150 | closes once and allows everything pending |
| ConnTracker.ScanRegistrations | internal/connowner/tracker.go:202-224 | the scan loop gives the same owner for every order of the registrations |
| ConnTracker.DirectOwnerIsProven | internal/connowner/tracker.go:202-224 | an owner is known without a bridge if and only if every standing registration was scanned whole and exactly one live source owns the socket |
| ConnTracker.ResolvesExactlyAlongChains | internal/connowner/tracker.go:155-225 | a source is found if and only if a chain of unresolved bindings with one bridge each leads to a cached source or a direct owner; cycles and conflicts stay unknown |
| ConnTracker.ResolveRemembers | internal/connowner/tracker.go:155-175 | a resolution that finds a source remembers it; one that does not changes nothing |
| ConnTracker.BoundOwner | internal/connowner/tracker.go:148-151 | a new binding of a connection without bridges resolves to exactly its proven direct owner, if its addresses are usable |
| ConnTracker.ForwardStandsFor | internal/connowner/tracker.go:231-247 | after forwarding, an unresolved binding of the upstream connection resolves to a known source exactly when a new binding of the client's would, and to the same; a second bridge makes it unknown |
| ConnTracker.ForwardedOwner | internal/connowner/tracker.go:231-247 | so a directly owned, unbridged client owns the upstream connection |
| ConnTracker.SettledSourceNeverChanges | internal/connowner/tracker.go:155-181 | in every interleaving the source of a known, closed or invalid binding never changes again and is what resolving it answers |
| ConnTracker.TokensIdentify | internal/connowner/tracker.go:96-102 | instance texts with different tokens differ |
| ConnTracker.UnregisteredStaysInactive | internal/connowner/tracker.go:115-135 | along any run a source whose registration is gone is never active again, whatever processes run |
| ConnTracker.ActiveExactly | internal/connowner/tracker.go:115-135 | along any run a registered source is active exactly while its registration has not been given up and its process is the one that ran at registration |
| ConnTracker.ActiveWasRegistered | internal/connowner/tracker.go:115-135 | only sources that some step registered are ever active |
| ConnTracker.RunKeepsInv | internal/connowner/tracker.go:85-260 | registrations carry issued tokens, bridges are non-empty and lead to existing bindings |
| ConnTracker.RegistrationLifecycle | internal/connowner/tracker.go:85-113 | registering fails exactly on an empty service, non-positive or unreadable process; otherwise it is active and unregistering restores the table |
| ConnTracker.BridgeLifecycle | internal/connowner/tracker.go:231-260 | forwarding adds one bridge, after which the upstream connection resolves as the client's would if it had none before; its cleanup restores the bridges and closes the binding |
| ConnTracker.CleanupKeepsOthers | internal/connowner/tracker.go:249-259 | cleanup never removes a bridge with another token |
| ConnTracker.Snapshot | internal/connowner/tracker.go:191-194 | lists the registrations in whatever order the map yields |
| ConnTracker.Attribution.RegisterProcess | internal/connowner/tracker.go:85-113 | in-place registration is the registration step |
| ConnTracker.Attribution.UnregisterProcess | internal/connowner/tracker.go:104-112 | removes only the registration with its own token |
| ConnTracker.Attribution.BindConnection | internal/connowner/tracker.go:148-151 | a new unresolved binding |
| ConnTracker.Attribution.ForwardConnection | internal/connowner/tracker.go:231-247 | nothing happens for an invalid upstream; otherwise in place, and a connection without other bridges then resolves exactly as its client's would |
| ConnTracker.Attribution.CleanUp | internal/connowner/tracker.go:249-259 | in-place cleanup is the cleanup step |
| ConnTracker.Attribution.CloseBinding | internal/connowner/tracker.go:177-181 | marks the binding closed |
| ConnTracker.Attribution.ResolveBinding | internal/connowner/tracker.go:155-175 | terminates on every table of bindings and bridges, cyclic ones included, with the model's answer and cached sources |
| ConnTracker.Attribution.ResolveKey | internal/connowner/tracker.go:183-225 | bridge count first, then the scan |
| DependencyOrder.Order | internal/config/config.go:446-478 | succeeds if and only if no service depends on itself through any walk, whatever the map order; then every name stands once, after all it depends on |
| DependencyOrder.Walker.Visit | internal/config/config.go:452-470 | the recursive visit keeps the order valid, or a cycle exists |
| DependencyOrder.OrderExcludesCycles | internal/config/config.go:446-478 | a dependency-first order of all services rules out cycles |
| DependencyOrder.CycleFound | internal/config/config.go:452-470 | meeting a name on the stack exhibits a cycle |
| PathMatch.Match | internal/pathmatch/pathmatch.go:29-34 | decides the split semantics; an empty pattern filters nothing |
| PathMatch.MatchHere | internal/pathmatch/pathmatch.go:39-116 | decides the split semantics for every pattern and path |
| PathMatch.MatchStar | internal/pathmatch/pathmatch.go:39-116 | the single-star loop tries exactly the splits without a separator |
| PathMatch.MatchDoubleStar | internal/pathmatch/pathmatch.go:39-116 | the double-star loop tries every split, and the one that swallows the following separator |
| PathMatch.MatchClass | internal/pathmatch/pathmatch.go:120-157 | parses a bracket class and decides membership, or reports an unterminated one |
| PathMatch.SeparatorsAreWritten | internal/pathmatch/pathmatch.go:39-116 | a pattern without ** matches only paths with as many separators as it writes |
| PathMatch.DirectoryAndBelow | internal/pathmatch/pathmatch.go:39-116 | a literal directory followed by /** matches exactly that directory and everything below it |
| PathMatch.DoubleStarMatchesMore | internal/pathmatch/pathmatch.go:39-116 | replacing a * token by ** never loses a match |
| PathMatch.WritingDoubleStarMatchesMore | internal/pathmatch/pathmatch.go:39-157 | the same on pattern text, including bracket classes and escapes before the star |
| PathPatterns.PlainMatchesItself | internal/pathmatch/pathmatch.go:39-116 | a pattern without special characters matches itself and nothing else |
| PathPatterns.QuestionMark | internal/pathmatch/pathmatch.go:39-116 | a ? stands for one character other than the separator, before any pattern |
| PathPatterns.Backslash | internal/pathmatch/pathmatch.go:39-116 | a backslash makes the next character literal, before any pattern |
| PathPatterns.SingleStar | internal/pathmatch/pathmatch.go:39-116 | a * stands for any run without a separator, before any pattern |
| PathPatterns.ListedClass | internal/pathmatch/pathmatch.go:120-157 | a bracketed list stands for one of its characters, never a separator |
| PathPatterns.NegatedClass | internal/pathmatch/pathmatch.go:120-157 | after ! or ^ it stands for any other character, never a separator |
| PathPatterns.RangeClass | internal/pathmatch/pathmatch.go:120-157 | a range stands for one character between its ends, both included |
| PathPatterns.MalformedMatchesNothing | internal/pathmatch/pathmatch.go:39-157 | an unclosed class and a trailing backslash match nothing |
| EditDistance.Compute | internal/protocol/client_contract.go:272-297 | the two-row loop computes the recursive Levenshtein distance |
| EditDistance.FillRow | internal/protocol/client_contract.go:286-294 | one row of the table from the row above |
| EditDistance.CellIsDistance | internal/protocol/client_contract.go:272-297 | a table cell is the distance of two prefixes |
| EditDistance.DistanceSymmetric | internal/protocol/client_contract.go:272-297 | symmetric |
| EditDistance.DistanceZero | internal/protocol/client_contract.go:272-297 | zero exactly on equal strings |
| EditDistance.TriangleInequality | internal/protocol/client_contract.go:272-297 | the triangle inequality |
| EditDistance.NoShorterChain | internal/protocol/client_contract.go:272-297 | no chain of single edits is shorter than the distance |
| EditDistance.ShortestChain | internal/protocol/client_contract.go:272-297 | some chain of single edits is as long as the distance |
| EditDistance.Nearest | internal/protocol/client_contract.go:252-268 | the first candidate of least distance, exactly when it lies within the budget and is not empty |
| EditDistance.BudgetSteps | internal/protocol/client_contract.go:252-268 | the budget is one edit per three bytes begun, at least one and at most four |
| Addresses.RunKeepsAllocInv | internal/netfault/alloc.go:100-125 | in a subnet between /16 and /24 any allocations keep addresses issued, distinct and filed under their own key |
| Addresses.AddressesAreDistinct | internal/netfault/alloc.go:90-125 | there, different triples get different addresses, none the host's, and one lies in the subnet if and only if the subnet is a /16 or its third octet is zero |
| Addresses.OffsetsShareExactly | internal/netfault/alloc.go:90-97 | two offsets share an address if and only if they are congruent modulo 65536 |
| Addresses.SubnetIsUnambiguousExactly | internal/netfault/alloc.go:62-97 | all host and guest offsets have addresses of their own if and only if the subnet is no wider than a /16 |
| Addresses.OffsetInSubnetExactly | internal/netfault/alloc.go:90-97 | an offset's address lies in the subnet, by its mask, if and only if the prefix is at most 16 bits or the third octet of the base is zero |
| Addresses.KeepsToSubnetExactly | internal/netfault/alloc.go:62-97 | all host and guest addresses lie in the subnet under that same condition and no other |
| Addresses.NarrowSubnetIsLeft | internal/netfault/alloc.go:86-97 | in 10.99.5.0/24 host and first guest get 10.99.0.1 and 10.99.0.2, outside the subnet |
| Addresses.AllocatesInOrder | internal/netfault/alloc.go:100-125 | after any requests the i-th key asked for first has the i-th guest address, while there is room, and nothing else is filed |
| Addresses.RecordsFirstAsk | internal/netfault/alloc.go:100-125 | an address is recorded with the names, port and upstream of the first request for its key |
| Addresses.AllocateAnswers | internal/netfault/alloc.go:100-125 | a request is answered with its key's address, refused exactly when it gets none, and changes no other |
| Addresses.HostsDouble | internal/netfault/alloc.go:100-125 | a /24 has room for 254 addresses besides network and broadcast, and each bit less of prefix for twice as many |
| Addresses.SameAddressesExactly | internal/netfault/alloc.go:47-60 | two request sequences get the same addresses if and only if the keys served were first asked for in the same order (in a subnet wider than a /16, for fewer than 65536 keys) |
| Addresses.OrderMatters | internal/netfault/alloc.go:47-60 | any two different triples asked for in both orders get different addresses |
| Addresses.OrderMattersForTwoConsumers | internal/netfault/alloc.go:47-60 | such a pair in the default subnet |
| Addresses.KeysDistinct | internal/netfault/alloc.go:43-45 | triples whose services and interfaces contain no NUL have different keys |
| Addresses.KeyIsUniqueExactly | internal/netfault/gateway.go:222-224 | a triple shares its key with no other if and only if none of its three names contains a NUL |
| Gateway.StepKeepsBook | internal/netfault/gateway.go:236-308 | allocation, install and clear keep every named consumer's rules scoped to its own address |
| Gateway.RulesAreIsolated | internal/netfault/match.go:71-123 | through any run, rules of two different named-consumer triples never both match one packet |
| Matching.MatchesExactly | internal/netfault/match.go:71-123 | criteria are an optional conjunction: addresses unset or equal, flags bit by bit, length strictly between bounds or exact, payload bytes at the front or anywhere, then the predicate |
| Matching.ScopingNarrows | internal/netfault/gateway.go:246-255 | scoping narrows a rule to its triple's address, and to its port if the rule names none; other criteria stay |
| Matching.RulesAreLastInstalled | internal/netfault/gateway.go:236-271 | along any run a key has rules exactly when its last accepted change installed some, and they are those |
| Text.LessIsLexicographic | internal/netfault/gateway.go:351-357 | the key order compares first differences, a proper prefix coming first |
| Gateway.SortStrings | internal/netfault/gateway.go:351-357 | the in-place insertion sort sorts and permutes |
| Gateway.SortedUnique | internal/netfault/gateway.go:279-308 | sorting has one result, so the order of publication does not depend on map order |
| Gateway.PublicationIsDetermined | internal/netfault/gateway.go:279-308 | any two lists that publish the same book, as rule sets in contiguous blocks by increasing key that together hold every rule, are equal |
| Gateway.RuleBook.Reserve | internal/netfault/alloc.go:100-125 | in-place allocation is the allocation step, including reuse and exhaustion |
| Gateway.RuleBook.InstallRules | internal/netfault/gateway.go:236-262 | installs and scopes, or fails without installing for an invalid rule or an unknown consumer address; then, when no other call overlaps, all rule sets are published whole, in contiguous blocks by key |
| Gateway.RuleBook.ScopeRules | internal/netfault/gateway.go:250-255 | rewrites exactly the given rules' destination |
| Gateway.RuleBook.ClearRules | internal/netfault/gateway.go:265-271 | removes one triple's rules and publishes all that are left whole, in contiguous blocks by key |
| Gateway.RuleBook.Republish | internal/netfault/gateway.go:279-308 | the published list is every rule set as a contiguous block in its own order, smaller keys first, and as a multiset the sum of all rule sets |
| Publishing.RunKeepsInv | internal/netfault/gateway.go:257-308 | in every interleaving of overlapping calls the endpoint has some version of the rule book, whole: all its rule sets as contiguous blocks by key, and nothing else |
| Publishing.SerialPublishesTheBook | internal/netfault/gateway.go:257-308 | when calls do not overlap, the endpoint has the book itself whenever none is on its way |
| Publishing.NewestExactly | internal/netfault/gateway.go:279-308 | a publication puts the newest version in place if and only if no call changed the book after the publishing call flattened it |
| Publishing.OlderListWins | internal/netfault/gateway.go:257-308 | a run of two overlapping installs that ends with the older list in place |

## Left out

- Command line, reports, the MCP server, lock and bundle files, YAML and JSON loading: input handling with only easy claims.
- Docker, seccomp, TUN devices, /proc reading and the gVisor stack: kernel or library behaviour.
- Protocol clients and mocks: thin wrappers over drivers.
- Checksums, payload corruption, window rewriting and reset construction: the data path keeps only how many copies leave and when.
- Rule selection (probability, triggers, counters): the endpoint takes any verdict for any packet, which covers every selection.
- Overlap of packet handling with closing: a packet that passed the stopped check may be held after the drain, so conservation is stated for runs in which the two do not overlap.
- Order of packets across pacer and deadline queue: the two read the clock separately; departure order is proved at the pacer, release order at the queue, and on the data path a queued callback may fire at any time from when the pacer's reading says it is due, in any order.
- Floating-point rates: the transmission time of a packet is a non-negative integer given with it.
- 64-bit wrap-around of sequence numbers, insertion numbers and tokens.
- Response parsing, rewriting and correlation in the observed connection: frames are passed through unchanged and responses arrive paired with their requests.
- Source fields and texts of emitted events: events carry the identifying values, not the formatted maps.
- Groups and members of the Kafka observer and bindings of the tracker are values in tables, not heap objects; aliasing between them is not modelled.
- Unsupported platforms, where the tracker registers nothing and knows nothing, and address parsing (connection tuples come with a validity flag).
- DeferQueue.Queue.Pop: the binary heap is modelled by its contract, removing the least item of a set.
- HoldQueue.ReleaseInOrder: starts where waiting ends, with the awaited number pending, the queue closed or the context cancelled; enqueues and a close may come between its releases, releases by others may not.
- KafkaFrames.Connection.Write: every frame is forwarded as it came; looking up the pending request, parse errors of its response and rewriting are not modelled.
- Gateway.RuleBook.InstallRules: whether the rules are valid is a parameter, and the call is not overlapped by another; overlapping calls are those of Publishing.
- HoldWait: one waiter; the canceller broadcasts once, and wake-ups without cause do not occur.
- KafkaFrames.ChunkingIsIrrelevant: after an error the remainders agree only as prefix, since later chunks are not appended.
- KafkaSessions.SessionIsFullFetchMeaning: exchanges of one session are one at a time, with resolved topics and non-negative offsets, since unusable positions are skipped by the observer.
- Gateway.RulesAreIsolated: needs a subnet between /16 and /24, rules that were created for one install each and a consumer that is named and does not start with NUL; a rule object installed twice is rescoped by the second install.
- EditDistance.Compute: strings are sequences of characters, so invalid UTF-8 is not modelled.
