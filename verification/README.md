# PacketcraftR: verified models of the bounded-resource and output machinery

This project models, in Dafny 4.11, the parts of PacketcraftR whose guarantees are hardest to see from
the code, and proves those guarantees for every input, every run or every interleaving.

| file | what it models |
|---|---|
| `EmitProtocol.dfy` | the progressive-output worker: `Worker::emit` and the callback thread, interleaved step by step |
| `WorkerBudget.dfy` | the permit budget at the granularity of single atomic operations, with wrapping counters |
| `PoolProtocol.dfy`, `WorkerPool.dfy` | the native worker pool: a transition system of slots, threads and jobs, and the lock-held methods as a class proved to follow it |
| `StreamFormat.dfy`, `StreamEncoder.dfy` | the NDJSON encoder as a state machine on values and as a class |
| `BoundedWriter.dfy` | the encoder's batches going through the worker to a callback that writes them piece by piece |
| `FramingConsumer.dfy` | the reference consumer's framing loop, exactly which byte streams it accepts, and which the encoder finishes |
| `ForwardingChecks.dfy` | the rules of a forwarding report, the checks they declare and the evidence of each check |
| `ForwardingReport.dfy` | the reference consumer's report validation and the census it implies |
| `PacketBuffer.dfy`, `PacketBuilder.dfy` | the in-place packet buffer and the inside-out builder with its layouts |
| `DeadlineTree.dfy`, `DeadlineAccounting.dfy` | the tree of deadlines, and the accounting of phases over runs |
| `Template.dfy` | numeric ranges, Cartesian expansion by strides, and the axis parser's running product |
| `FrameRanges.dfy` | `--frames` and `--every`: parsing, merging, lookup |
| `PacketStack.dfy` | edits of the layer stack and the padding boundaries that follow them |
| `JsonTree.dfy` | the explicit-stack traversal of decoded JSON |
| `Timestamp.dfy`, `Decimal.dfy` | timestamp conversion, display and parsing |

Where the source changes state in place (the pool, the encoder, the packet buffer, the deadline's
accounting, the packet stack) the model is a class whose methods are tied to a function of the old state,
and the promises are lemmas about that function over whole runs. Where threads meet, the model is a step
system in which any possible step may come next. Everything the surroundings decide (deadlines, writes,
allocation, reaper start-up, codecs, serialization, clocks) is an arbitrary input.

Results that differ from what one might assume:

- The queue-full refusal of `emit` is not dead code (`EmitProtocol.RefusalWitness`). A call about to send
  is refused exactly when the callback thread has dropped its outcome sender, not yet its event receiver,
  and an event is still queued (`EmitProtocol.QueueFullExactly`). A caller sees it coming: an earlier call
  returned stopped-without-result or interrupted (`EmitProtocol.QueueFullHasForerunner`).
- Insert followed by remove at the same index restores a packet exactly when the inserted layer does not
  name its own place and no padding names the largest index (`PacketStack.InsertThenRemove`); remove
  followed by insert does so exactly when no other padding named the layer
  (`PacketStack.RemoveThenInsert`).
- A displayed timestamp parses back exactly when it is not before the epoch; earlier ones are displayed
  exactly but refused by the parser (`Timestamp.RoundTrip`).
- Observing a pipe stops the encoder from holding records back, but a record already held back stays
  until the next write (`StreamEncoder.RefusalReleasesNothing`).

## Model

| member | source | states |
|---|---|---|
| `EmitProtocol.InvStep` | crates/packetcraftr/src/runtime.rs:181-368 | every caller step and every thread step keeps the protocol invariant: one event at a time, waits concern the caller's own event, callbacks run in call order, answers were really given, an error is final |
| `EmitProtocol.InvReachable` | crates/packetcraftr/src/runtime.rs:181-368 | the invariant holds after every interleaving from a fresh worker |
| `EmitProtocol.OneEventAtATime` | crates/packetcraftr/src/runtime.rs:321-368 | in every interleaving at most one of queued event, running callback and buffered answer exists; while the thread is in its loop only with `in_flight` set, and `try_send` then finds a free slot |
| `EmitProtocol.AnswerIsForOwnEvent` | crates/packetcraftr/src/runtime.rs:336-362 | every Ok from `emit` is the answer the callback gave to the event of that same call, by the only invocation for that call |
| `EmitProtocol.NoAnswerAfterFailure` | crates/packetcraftr/src/runtime.rs:188-195 | after a callback error, or a wait that expired unanswered, no call that returns later ever returns Ok, however the thread goes on |
| `EmitProtocol.RefusalWitness` | crates/packetcraftr/src/runtime.rs:328-335 | a concrete run reaches the queue-full refusal |
| `EmitProtocol.QueueFullExactly` | crates/packetcraftr/src/runtime.rs:328-335 | of all reachable states about to send, exactly those refuse as queue-full in which the thread has closed its outcome sender, not yet its event receiver, and an event is queued |
| `EmitProtocol.HalfClosedMayAccept` | crates/packetcraftr/src/runtime.rs:328-335 | a reachable half-closed state with nothing queued accepts the event |
| `EmitProtocol.QueueFullHasForerunner` | crates/packetcraftr/src/runtime.rs:321-368 | a call refused as queue-full was preceded by one that returned stopped without a result or interrupted |
| `WorkerBudget.InvStep` | crates/packetcraftr/src/runtime.rs:123-172 | every single atomic operation keeps the counters equal to the permits that hold or are counted |
| `WorkerBudget.CountersAreExact` | crates/packetcraftr/src/runtime.rs:123-172 | in every interleaving timed_out <= active <= capacity without wrap-around, active is the number of unreleased permits, and each permit adds to timed_out at most once and gives it back by its release |
| `WorkerBudget.AdmissionFindsFreeSlot` | crates/packetcraftr/src/runtime.rs:139-156 | a swap that succeeds finds a free slot at that very moment, however stale its load |
| `WorkerBudget.RejectedIsExact` | crates/packetcraftr/src/runtime.rs:145-152 | in every interleaving the rejected counter is the number of refused calls, held at the largest word |
| `WorkerBudget.RefusedOnlyWhenFull` | crates/packetcraftr/src/runtime.rs:139-153 | a call is refused only if at some moment of the run every slot was held |
| `WorkerBudget.AcquireAlone` | crates/packetcraftr/src/runtime.rs:139-158 | uninterrupted, a permit is given exactly when a slot is free, else one refusal is counted and nothing else changes |
| `WorkerBudget.MarkAlone` | crates/packetcraftr/src/runtime.rs:123-134 | uninterrupted, marking counts a running permit once and changes no other |
| `WorkerBudget.DropAlone` | crates/packetcraftr/src/runtime.rs:161-174 | uninterrupted, dropping frees the slot and takes back exactly what marking added |
| `PoolProtocol.InvStep` | crates/packetcraftr-netio/src/workers.rs:70-349 | every pool step, thread step and reaper step keeps slots, threads and jobs consistent |
| `PoolProtocol.ThreadsStayBounded` | crates/packetcraftr-netio/src/workers.rs:70-79 | in every run the slots and the existing threads, retiring ones included, stay within capacity, ids are below the next one, and idle slots carry a context |
| `PoolProtocol.SlotFreedOnlyByJoin` | crates/packetcraftr-netio/src/workers.rs:153-210 | a slot that disappears during any run belonged to a thread that has been joined |
| `PoolProtocol.JobsRunOnceInOrder` | crates/packetcraftr-netio/src/workers.rs:214-349 | every job has gone through a prefix of run, settle, publish, recycle; it is untouched with its submitter or with exactly one thread of its own context, which holds no other job and is not idle |
| `WorkerPool.Pool.constructor` | crates/packetcraftr-netio/src/workers.rs:115-123 | a new pool is valid, empty and at the protocol's start |
| `WorkerPool.Pool.RetirementReaper` | crates/packetcraftr-netio/src/workers.rs:140-151 | the reaper is there afterwards exactly if it was or can be started, so a failed start can be tried again |
| `WorkerPool.Pool.Retire` | crates/packetcraftr-netio/src/workers.rs:153-169 | this worker's retiring entry is appended, pending exactly if the reaper did not take its join task; a path of the protocol that touches no job |
| `WorkerPool.Pool.PruneRetired` | crates/packetcraftr-netio/src/workers.rs:75-78 | exactly the completed retirements go and the others keep their order, by protocol steps |
| `WorkerPool.Pool.RetireFinishedBusy` | crates/packetcraftr-netio/src/workers.rs:175-196 | exactly the busy workers reported finished go; each becomes a retirement behind the others, pending exactly if not taken; by protocol steps that touch no job |
| `WorkerPool.Pool.RetireFinishedIdle` | crates/packetcraftr-netio/src/workers.rs:197-203 | exactly the idle workers reported finished go and the others keep their order; each becomes a retirement behind the others |
| `WorkerPool.Pool.TransferPending` | crates/packetcraftr-netio/src/workers.rs:204-208 | the same retirements in the same order; exactly the kept join tasks that the reaper now takes are handed over |
| `WorkerPool.Pool.MaintainWorkers` | crates/packetcraftr-netio/src/workers.rs:171-210 | it fails exactly when something needs reaping and no reaper is there or can be started; on success exactly the finished workers leave the lists, on failure idle and busy stay; only joined threads leave the count |
| `WorkerPool.Pool.FindIdle` | crates/packetcraftr-netio/src/workers.rs:234-239 | the first idle worker of the context, or none if there is none |
| `WorkerPool.Pool.ReuseAt` | crates/packetcraftr-netio/src/workers.rs:240-245 | the job goes to that worker, which becomes busy |
| `WorkerPool.Pool.RequeueAt` | crates/packetcraftr-netio/src/workers.rs:248-254 | a worker whose send failed goes back to the idle list when no reaper can be started |
| `WorkerPool.Pool.TryReuse` | crates/packetcraftr-netio/src/workers.rs:234-256 | with no idle worker of the context nothing happens; the first one takes the job if connected, else it is retired and the job still waits, or without a reaper it is put back and so is the job |
| `WorkerPool.Pool.MakeRoom` | crates/packetcraftr-netio/src/workers.rs:263-274 | it fails exactly when a worker is idle and there is no reaper, and then changes nothing; else the last idle worker is retired and nothing complete is left; no job is touched |
| `WorkerPool.Pool.SpawnFor` | crates/packetcraftr-netio/src/workers.rs:288-310 | the id is used up either way; the job is with the new thread exactly if it started, else handed back |
| `WorkerPool.Pool.DispatchPass` | crates/packetcraftr-netio/src/workers.rs:214-311 | one pass of the loop follows the protocol; a live job comes back only if its thread did not start or there is no reaper; the first idle worker of its context takes it if connected, else a new thread does if there is room, else it waits with the pool full, joined slots freed and an idle worker, if any, retired |
| `WorkerPool.Pool.Recycle` | crates/packetcraftr-netio/src/workers.rs:315-333 | the worker is kept exactly when it is busy with a context, else retired, or left busy without a reaper; the thread count does not change; the job is finished |
| `WorkerPool.Pool.CompleteJoin` | crates/packetcraftr-netio/src/workers.rs:158-164 | only the join of an exited thread marks its retirement complete |
| `WorkerPool.Pool.Outside` | crates/packetcraftr-netio/src/workers.rs:336-349 | what threads do outside the lock leaves the pool's lists valid |
| `WorkerPool.Pool.PoolStaysBounded` | crates/packetcraftr-netio/src/workers.rs:70-79 | idle + busy + retiring <= capacity, ids distinct and below `next_worker`, idle workers carry a context, after any path from the start |
| `StreamEncoder.ApplyKeeps` | crates/packetcraftr-cli/src/output/stream.rs:219-469 | every call, whatever fails in it, keeps the output a numbered stream |
| `StreamEncoder.OutputIsNumberedStream` | crates/packetcraftr-cli/src/output/stream.rs:322-384 | after any calls, unless failed, delivered bytes then pending bytes are the accepted records; pending stays below the batch size; when closed nothing is pending and the one terminal record is last |
| `StreamEncoder.NumberedWithoutGap` | crates/packetcraftr-cli/src/output/stream.rs:339-382 | accepted records are numbered 0, 1, 2 and so on |
| `StreamEncoder.ClosedForever` | crates/packetcraftr-cli/src/output/stream.rs:280-303 | once complete, error or failed, no further call changes what was written |
| `StreamEncoder.AcceptedStays` | crates/packetcraftr-cli/src/output/stream.rs:416-457 | later calls only add to the accepted records |
| `StreamEncoder.BatchesAreTheOutput` | crates/packetcraftr-cli/src/output/stream.rs:430-457 | what is delivered is the batches handed to the writer; only the last can be lost, exactly when the encoder has failed, and then the batches are the accepted records and the attempted one |
| `StreamEncoder.VerdictMeans` | crates/packetcraftr-cli/src/output/stream.rs:264-457 | acknowledged exactly when the call may publish and its record was held back or wholly written; a failed write is the one rejection that changes anything |
| `StreamEncoder.VerdictLeaves` | crates/packetcraftr-cli/src/output/stream.rs:264-457 | acknowledged exactly when the very record asked for joins the accepted ones; a rejection accepts nothing; the write error comes exactly with the change to failed |
| `StreamEncoder.ReasonHolds` | crates/packetcraftr-cli/src/output/stream.rs:264-457 | the reason given for a rejection is one that holds |
| `StreamEncoder.BatchingMeans` | crates/packetcraftr-cli/src/output/stream.rs:219-227 | over any calls batching is on exactly when some input was observed and all observed were regular files |
| `StreamEncoder.HeldBackOnlyForRegularFiles` | crates/packetcraftr-cli/src/output/stream.rs:216-227 | an acknowledged record waits only if inputs were observed and all were regular files; otherwise everything accepted is delivered |
| `StreamEncoder.RefusalReleasesNothing` | crates/packetcraftr-cli/src/output/stream.rs:219-227 | observing a pipe after any calls ends batching and leaves what is pending where it is |
| `BoundedWriter.InvStep` | crates/packetcraftr-cli/src/output/stream.rs:170-206 | every worker step and every piece written keeps the sink equal to the batches of the callbacks that succeeded and part of at most one more |
| `BoundedWriter.SinkBetweenCalls` | crates/packetcraftr-cli/src/output/stream.rs:430-450 | after any interleaving, between calls, the sink holds exactly the answered batches and some part of the one whose call failed |
| `BoundedWriter.SinkHoldsWhatWasDelivered` | crates/packetcraftr-cli/src/output/stream.rs:416-457 | over any encoder run and any interleaving of its worker, the sink holds exactly the delivered bytes unless a write failed, and after a failure, however late the callback writes, a prefix of one numbered stream |
| `BoundedWriter.SomeWorkerServes` | crates/packetcraftr-cli/src/output/stream.rs:430-457 | whatever an encoder did, written and lost batches alike, some interleaving of its worker did just that |
| `BoundedWriter.SinkAcceptedExactly` | examples/consumers/forwarding.py:477-507 | over any encoder run and any interleaving of its worker, the consumer accepts what is in the sink if and only if it is the whole of the attempted records and these are a finished list for it; so a failed stream passes only if its lost batch ended with the terminal record and is entirely out |
| `StreamEncoder.Encoder.TakeBatch` | crates/packetcraftr-cli/src/output/stream.rs:459-465 | the batch is pending followed by the line, and pending is left empty |
| `StreamEncoder.Encoder.WriteLine` | crates/packetcraftr-cli/src/output/stream.rs:416-457 | the new state is the specified one, for every early exit |
| `StreamEncoder.Encoder.WriteSuccess` | crates/packetcraftr-cli/src/output/stream.rs:322-384 | the new state is the specified one, for every early exit |
| `StreamEncoder.Encoder.Emit` | crates/packetcraftr-cli/src/output/stream.rs:264-271 | emitting data is the specified call |
| `StreamEncoder.Encoder.CompletePublished` | crates/packetcraftr-cli/src/output/stream.rs:273-278 | completing is the specified call |
| `StreamEncoder.Encoder.ReportError` | crates/packetcraftr-cli/src/output/stream.rs:280-303 | reporting an error is the specified call |
| `StreamEncoder.Encoder.Observe` | crates/packetcraftr-cli/src/output/stream.rs:219-227 | observing an input is the specified call |
| `FramingConsumer.Consume` | examples/consumers/forwarding.py:477-507 | the loop computes the recursive framing automaton, and a refusal is explained: the stream is lines that carry records in order, then a rest of which the refusal holds |
| `FramingConsumer.RefusalHolds` | examples/consumers/forwarding.py:477-507 | a refused stream is cut at the very place where its refusal holds, everything before being records in order |
| `FramingConsumer.FinishedStreamAcceptedWhole` | examples/consumers/forwarding.py:477-507 | whatever calls finished the encoder's stream, within the consumer's bounds and event name it is accepted with its terminal record, and no proper prefix of its bytes is |
| `FramingConsumer.ConsumerAcceptsExactly` | examples/consumers/forwarding.py:477-507 | for every byte stream and any decoder: accepted if and only if it is cut into lines within the limits that decode to records numbered from 0 for this command, data first and one terminal record last |
| `FramingConsumer.AcceptedWhole` | examples/consumers/forwarding.py:477-507 | acceptance returns the terminal record, and no proper prefix of an accepted stream is accepted |
| `FramingConsumer.EncoderFinishesExactly` | crates/packetcraftr-cli/src/output/stream.rs:322-384 | the record lists the encoder can finish for this consumer are exactly the finished lists whose serialized records fit |
| `FramingConsumer.AcceptedCanBeWritten` | examples/consumers/forwarding.py:477-507 | the records read from any accepted stream can be written by the encoder exactly if they fit as it writes them |
| `ForwardingChecks.CheckBudget` | examples/consumers/forwarding.py:173-191 | accepts exactly the rules within the count and byte budgets whose entries are text |
| `ForwardingChecks.WidthIsLeast` | examples/consumers/forwarding.py:46-50 | a code point counts as the fewest bytes of UTF-8 that have room for it |
| `ForwardingChecks.CheckRules` | examples/consumers/forwarding.py:398-404 | accepts exactly the rules within budget, with an identity, the right comparison label and well-formed declared checks |
| `ForwardingChecks.RulesMean` | examples/consumers/forwarding.py:155-191 | beyond budget, identity and label the rules can only fail by an expectation without a field |
| `ForwardingChecks.CheckMeans` | examples/consumers/forwarding.py:211-251 | with cells that agree with their operands a check is valid exactly when its outcome is the one its evidence deserves: equal values, equal presence, absence, or unevaluable where evidence is short |
| `ForwardingChecks.ValidateCheck` | examples/consumers/forwarding.py:211-251 | the requirements in sequence accept exactly the valid checks |
| `ForwardingChecks.ContradictionIsViolation` | examples/consumers/forwarding.py:380-388 | what a violation must show is exactly the evidence on which a check of its kind is valid and violated, with the ingress side of a preservation |
| `ForwardingChecks.CountChecks` | examples/consumers/forwarding.py:460-462 | accepts exactly valid checks and counts them by outcome |
| `ForwardingReport.Reference` | examples/consumers/forwarding.py:286-293 | a reference is accepted exactly when valid and, if unique, not seen before; the ledger then includes it |
| `ForwardingReport.ValidateEvidence` | examples/consumers/forwarding.py:254-271 | accepts exactly references inside the capture with fields in their ranges |
| `ForwardingReport.ValidateKey` | examples/consumers/forwarding.py:274-276 | accepts exactly keys of the width, without missing values unless allowed |
| `ForwardingReport.CheckMatches` | examples/consumers/forwarding.py:302-325 | the running sets, ranks and maximum decide exactly that keys, frames and ranks are distinct, ingress order ascends, and reorder flags agree with visible inversions |
| `ForwardingReport.CheckLists` | examples/consumers/forwarding.py:327-337 | exactly that lengths and omissions sum and every listed frame is new |
| `ForwardingReport.CheckGroups` | examples/consumers/forwarding.py:339-364 | exactly that group keys and member frames are new, ordered and within totals; totals are accumulated |
| `ForwardingReport.CheckGroup` | examples/consumers/forwarding.py:341-358 | accepts exactly groups of at least three observations, one on each side, with members in capture order and within the totals |
| `ForwardingReport.CheckViolations` | examples/consumers/forwarding.py:366-391 | exactly that each violation is of a declared check, with valid references and operands that contradict it; incomplete frames are gathered |
| `ForwardingReport.ValidateDetails` | examples/consumers/forwarding.py:279-391 | the loops accept a report if and only if its details hold, stated without order or running state |
| `ForwardingReport.CheckEvaluations` | examples/consumers/forwarding.py:454-464 | exactly that every match carries the declared checks in order, each valid, and that no outcome is listed more often than counted |
| `ForwardingReport.CheckSummary` | examples/consumers/forwarding.py:406-453 | the counters, the census of both captures, the verdict and the omissions are decided exactly |
| `ForwardingReport.ValidateReport` | examples/consumers/forwarding.py:394-465 | accepts exactly the reports whose rules, counters, details and checks hold; acceptance implies conservation, the census partition when nothing is omitted, the exact reorder count when no match is, and the verdict: fail with any violation, else pass if every frame matched, else inconclusive |
| `ForwardingReport.OnePairIsAccepted` | examples/consumers/forwarding.py:394-465 | a concrete passing report with one match and one check, omitting nothing, is accepted |
| `ForwardingReport.ObservationsConserved` | examples/consumers/forwarding.py:413-453 | listed and omitted observations over both captures add up to the selected frames |
| `ForwardingReport.CensusIsPartition` | examples/consumers/forwarding.py:279-453 | with nothing omitted, each side's listed frames are distinct, lie in 1..read, number exactly `selected`, and every group is fully listed |
| `ForwardingReport.ReorderCountIsExact` | examples/consumers/forwarding.py:302-325 | with no match omitted, the reorder count is the number of matches that an earlier one overtook |
| `ForwardingReport.CheckSummaryIsExact` | examples/consumers/forwarding.py:433-464 | when every requested check is listed with some match, the three outcome counters equal the listed outcomes |
| `ForwardingReport.PassMeansChecksSatisfied` | examples/consumers/forwarding.py:439-464 | in an accepted pass every listed check is satisfied, and a preserved field shows the same value on both sides |
| `ForwardingReport.PassMeansEveryFrameMatched` | examples/consumers/forwarding.py:413-445 | pass if and only if no violation is listed or omitted, something matched, nothing went unevaluated or is incomplete, and matches account for every selected frame of both captures |
| `ForwardingReport.FailMeansViolation` | examples/consumers/forwarding.py:439-453 | fail if and only if a violation is listed or omitted; inconclusive if and only if none is and some frame is unaccounted for |
| `ForwardingReport.PassPairsOneToOne` | examples/consumers/forwarding.py:413-453 | an accepted pass with all matches listed pairs the selected frames one to one |
| `ForwardingReport.PassRanksAreExact` | examples/consumers/forwarding.py:302-325 | in an accepted pass with all matches listed the i-th match has ingress rank i and the egress ranks are a permutation of the same numbers |
| `PacketBuffer.Buffer.WithEstimate` | crates/packetcraftr-core/src/build/buffer.rs:26-45 | an empty buffer of the estimated capacity, never above the maximum, with the room for trailers behind |
| `PacketBuffer.Buffer.Wrap` | crates/packetcraftr-core/src/build/buffer.rs:56-92 | contents become prefix, old contents, suffix, or are unchanged with exactly the fitting error |
| `PacketBuffer.Buffer.RecenterAndWrap` | crates/packetcraftr-core/src/build/buffer.rs:94-116 | the overlapping move in place still yields prefix, old contents, suffix, in the middle of the storage |
| `PacketBuffer.Buffer.GrowAndWrap` | crates/packetcraftr-core/src/build/buffer.rs:118-153 | a new storage, at least doubled or the maximum, holds prefix, old contents, suffix with the spare room on the growing side; or allocation failed and nothing changed |
| `PacketBuilder.EncodingIsInsideOut` | crates/packetcraftr-core/src/build.rs:221-322 | encoding last to first succeeds with exactly the one result in which every codec, called with the wire bytes of the layers inside it and the room left, returned the entry of its layer, each entry is valid and the whole fits |
| `PacketBuilder.EncodingFailsAt` | crates/packetcraftr-core/src/build.rs:221-322 | a failed encoding failed at one layer, all those inside it being encoded, and the error says what its codec did wrong or which length was too much |
| `PacketBuilder.EncodeLayers` | crates/packetcraftr-core/src/build.rs:221-322 | the loop over the buffer computes that result, its bytes and its entries, or its error |
| `PacketBuilder.ShiftLayer` | crates/packetcraftr-core/src/layout.rs:63-82 | a layer and all its fields are shifted together, or nothing changes |
| `PacketBuilder.Finalize` | crates/packetcraftr-core/src/build.rs:324-349 | fails exactly when the layers together exceed a usize; otherwise every layout and its fields are moved behind the layers outside it, outermost first |
| `PacketBuilder.LayersFit` | crates/packetcraftr-core/src/build.rs:283-322 | what the encoding loop leaves always satisfies the final pass, whose overflow exits are unreachable |
| `PacketBuilder.MovedMeansPlaced` | crates/packetcraftr-core/src/build.rs:324-349 | the moved layouts start where the prefixes of the outer layers end, with the recorded payload lengths |
| `PacketBuilder.ValidatePacket` | crates/packetcraftr-core/src/build.rs:184-219 | accepts exactly a packet within its limits with complete, bound layers; otherwise the error is that of the first check that fails |
| `PacketBuilder.Build` | crates/packetcraftr-core/src/build.rs:168-219 | a success describes the inside-out encoding, and with memory it succeeds exactly when there is one; a failure is that of the first failing check, of one layer for the reason given, or of an allocation, so the final pass never fails |
| `PacketBuilder.BuiltLayoutIsExact` | crates/packetcraftr-core/src/build.rs:324-349 | ranges follow one another from zero, the bytes at each range are that layer's prefix, field ranges lie inside their layer and hold its bytes, payload lengths are the inner totals |
| `DeadlineTree.CheckMeansAllAfford` | crates/packetcraftr-core/src/budget.rs:114-167 | `check` succeeds exactly when no node of the tree is over its limit |
| `DeadlineTree.FailedCheckNamesNode` | crates/packetcraftr-core/src/budget.rs:149-167 | the error of a failed check describes a node that is over its limit |
| `DeadlineTree.AdditionalMeansAllAfford` | crates/packetcraftr-core/src/budget.rs:118-127 | `check_additional` succeeds exactly when every node affords the time |
| `DeadlineTree.FailedAdditionalNamesNode` | crates/packetcraftr-core/src/budget.rs:118-127 | the error of a failed `check_additional` describes a node that cannot afford the time |
| `DeadlineTree.RemainingIsLeast` | crates/packetcraftr-core/src/budget.rs:169-177 | `remaining` succeeds exactly when no node is over its limit and is the least remainder of all nodes |
| `DeadlineTree.CancelledMeansSomeRaised` | crates/packetcraftr-core/src/budget.rs:98-105 | cancelled exactly when some node's flag is raised |
| `DeadlineTree.EnforceMeans` | crates/packetcraftr-core/src/budget.rs:108-112 | Cancelled exactly when some node is cancelled, success exactly when none is and none is over its limit |
| `DeadlineTree.TimeoutMeans` | crates/packetcraftr-core/src/budget.rs:180-189 | granted exactly when something was asked for and every node has time left; the smaller of request and least remainder |
| `DeadlineTree.FailedTimeoutNamesNode` | crates/packetcraftr-core/src/budget.rs:169-189 | without a remainder the error is that of `check`; with nothing left to grant it is the limit itself |
| `DeadlineTree.LiveRemainingMeans` | crates/packetcraftr-core/src/budget.rs:202-205 | cancellation first, then the least remainder, nonzero |
| `DeadlineTree.WaitNarrows` | crates/packetcraftr-core/src/budget.rs:192-199 | a wait's child keeps every ancestor and is limited to the smaller of request and the parent's remainder, all of which it starts with |
| `DeadlineTree.WaitExpires` | crates/packetcraftr-core/src/budget.rs:192-199 | at any later reading the child holds exactly while at most its limit has passed on the system clock since it was made and the parent holds |
| `DeadlineTree.WaitRefusedExactly` | crates/packetcraftr-core/src/budget.rs:192-199 | refused exactly for an empty request or a node without time |
| `DeadlineTree.DetachNarrows` | crates/packetcraftr-core/src/budget.rs:208-211 | cancellation first; the child keeps every ancestor and the whole remainder |
| `DeadlineTree.NarrowerMeans` | crates/packetcraftr-core/src/budget.rs:98-211 | a deadline that keeps the nodes of another is never laxer, at any later reading and with any flags raised |
| `DeadlineTree.CeilingOnlyNarrows` | crates/packetcraftr/src/client.rs:108-129 | after `with_deadline` every operation still answers to the old ceiling and to the new one |
| `DeadlineTree.OperationAnswersToAll` | crates/packetcraftr/src/client.rs:108-129 | an operation holds exactly while its own limit, the client's deadline and the old ceiling hold, and is cancelled exactly with the client, the deadline or the ceiling |
| `DeadlineAccounting.Budget.StartAccounting` | crates/packetcraftr-core/src/budget.rs:131-141 | succeeds exactly when the ancestors hold and the prospective phase fits; commits wall time; changes nothing on failure |
| `DeadlineAccounting.Budget.AccountPhase` | crates/packetcraftr-core/src/budget.rs:215-224 | commits exactly when neither wall nor reported time overflows, and charges the larger of them even when the check then fails; an overflow changes nothing |
| `DeadlineAccounting.PhaseChargesLarger` | crates/packetcraftr-core/src/budget.rs:215-223 | the charge of a committed phase is at least both times and equal to one of them; it succeeds exactly when committed and no node is then over its limit |
| `DeadlineAccounting.RunKeeps` | crates/packetcraftr-core/src/budget.rs:129-224 | through any calls in time order the charged time never decreases and the limits stay |
| `DeadlineAccounting.ChargeCoversWallAndReports` | crates/packetcraftr-core/src/budget.rs:129-224 | charged time is at least the wall time since creation, at least the committed reports, and at most both together |
| `DeadlineAccounting.FailureIsForever` | crates/packetcraftr-core/src/budget.rs:114-167 | once `check` has failed it fails after any calls and at any later instant |
| `Template.NewRange` | crates/packetcraftr-core/src/template.rs:22-30 | accepted exactly with a positive step and an ascending span, as given; otherwise the error names the first fault |
| `Template.RangeIsExact` | crates/packetcraftr-core/src/template.rs:34-48 | a range yields `len` values, the whole steps from its start, none past its end |
| `Template.RangeIsComplete` | crates/packetcraftr-core/src/template.rs:42-48 | no value on the stride up to the end is missed |
| `Template.ExpansionLenIsSize` | crates/packetcraftr-core/src/template.rs:92-101 | the checked fold is the size of the product and overflows exactly when that does |
| `Template.TupleAt` | crates/packetcraftr-core/src/template.rs:118-139 | the stride loop picks the values of the choice with that ordinal |
| `Template.ChoiceOfOrdinal` | crates/packetcraftr-core/src/template.rs:118-124 | every choice of indexes has an ordinal below the size that decodes back to it |
| `Template.OrdinalOfChoice` | crates/packetcraftr-core/src/template.rs:118-124 | every ordinal is that of the choice it decodes to |
| `Template.OrdinalsAreLexicographic` | crates/packetcraftr-core/src/template.rs:73-74 | ordinal order is lexicographic, the last axis fastest |
| `Template.ProductAt` | crates/packetcraftr-core/src/template.rs:118-139 | position `ordinal` of the recursive Cartesian product is the choice with that ordinal |
| `Template.Expand` | crates/packetcraftr-core/src/template.rs:104-142 | the enumeration equals the recursive Cartesian product; refused exactly above the ceiling, on overflow or on invalid axes |
| `Template.ParseAxes` | crates/packetcraftr-cli/src/command_options/template.rs:75-152 | the running product accepts exactly the well-formed axis lists whose full product fits the ceiling |
| `Template.ParseThenExpand` | crates/packetcraftr-cli/src/command_options/template.rs:131-152 | accepted axes are never refused for their number by `expand` under the same ceiling |
| `FrameRanges.ItemForms` | crates/packetcraftr-cli/src/command_options/frame_ranges.rs:118-133 | `N`, `N-` and `N-M` mean one position, an open range and a closed one; a reversed one is refused |
| `FrameRanges.ItemExactly` | crates/packetcraftr-cli/src/command_options/frame_ranges.rs:118-133 | any text is read as a range exactly when it is one of the three forms of that range |
| `FrameRanges.ItemErrorHolds` | crates/packetcraftr-cli/src/command_options/frame_ranges.rs:118-150 | the error of a refused item is that of one of its bounds, or the bounds are reversed |
| `FrameRanges.ParsePosition` | crates/packetcraftr-cli/src/command_options/frame_ranges.rs:135-150 | accepted exactly for decimal digits from 1 to the largest u64, with the value they write; each error exactly for its cause |
| `FrameRanges.Items` | crates/packetcraftr-cli/src/command_options/frame_ranges.rs:97 | an argument's items are comma-free and join to it |
| `FrameRanges.ItemsAreThePieces` | crates/packetcraftr-cli/src/command_options/frame_ranges.rs:97 | there is no other way to cut the argument into comma-free pieces |
| `FrameRanges.SortSorts` | crates/packetcraftr-cli/src/command_options/frame_ranges.rs:105 | sorted, and the same ranges as often |
| `FrameRanges.Merge` | crates/packetcraftr-cli/src/command_options/frame_ranges.rs:106-115 | sorted, disjoint and non-adjacent, covering exactly the same positions |
| `FrameRanges.NormalIsCanonical` | crates/packetcraftr-cli/src/command_options/frame_ranges.rs:29-30 | two normal lists that cover the same positions are equal |
| `FrameRanges.ParseRanges` | crates/packetcraftr-cli/src/command_options/frame_ranges.rs:90-116 | accepts exactly the arguments within the bounds whose items parse, and covers their union; otherwise the error is length, number, or that of the first bad item |
| `FrameRanges.PartitionPoint` | crates/packetcraftr-cli/src/command_options/frame_ranges.rs:62 | binary search splits the ranges at the first that does not end before the position |
| `FrameRanges.Keeps` | crates/packetcraftr-cli/src/command_options/frame_ranges.rs:57-75 | true exactly when the position is at least 1, covered and on the stride |
| `FrameRanges.UnrestrictedKeepsAll` | crates/packetcraftr-cli/src/command_options/frame_ranges.rs:49-54 | unrestricted exactly when every position from 1 to the largest u64 is kept |
| `FrameRanges.Resolve` | crates/packetcraftr-cli/src/command_options/frame_ranges.rs:35-44 | from the text of both options to each position: selected exactly when some item names it and it is on the stride; a bad text is refused first, then a zero stride |
| `PacketStack.EditKeeps` | crates/packetcraftr-core/src/packet.rs:74-119 | an edit with well-formed layers keeps every boundary below its padding and, if it succeeds, drops every cached length |
| `PacketStack.RunKeeps` | crates/packetcraftr-core/src/packet.rs:74-119 | over any run of edits with well-formed layers every padding's boundary stays below the padding |
| `PacketStack.NoLengthSurvives` | crates/packetcraftr-core/src/packet.rs:172-176 | no cached payload length survives a run with a successful edit in it |
| `PacketStack.PushAppends` | crates/packetcraftr-core/src/packet.rs:74-78 | the pushed layer is last and every other layer stays as it was |
| `PacketStack.InsertPlaces` | crates/packetcraftr-core/src/packet.rs:80-91 | succeeds exactly up to the end of the stack; the layer is at the index and the others stand around it in order |
| `PacketStack.RemovalRefused` | crates/packetcraftr-core/src/packet.rs:93-107 | refused outside the stack, and inside it exactly when a padding at or just behind the index names that layer |
| `PacketStack.RemovalCloses` | crates/packetcraftr-core/src/packet.rs:93-107 | exactly the layer at the index goes and the others close the gap in order |
| `PacketStack.ReplacementIsLocal` | crates/packetcraftr-core/src/packet.rs:109-119 | succeeds exactly inside the stack and changes only the layer at the index |
| `PacketStack.RunFollows` | crates/packetcraftr-core/src/packet.rs:279-311 | over any run of edits that leaves the padding in the stack it names its layer, or the successor each time that layer was removed, or the replacement each time it was replaced |
| `PacketStack.NamedLayerStays` | crates/packetcraftr-core/src/packet.rs:279-311 | while no edit removes or replaces the named layer, the very same layer is named at the end |
| `PacketStack.RemovalPassesToSuccessor` | crates/packetcraftr-core/src/packet.rs:300-311 | when the named layer is removed, the padding names the one that followed it |
| `PacketStack.RefusedExactly` | crates/packetcraftr-core/src/packet.rs:279-285 | a removal in a well-formed stack is refused exactly when the next layer is a padding that names the removed one |
| `PacketStack.InsertThenRemove` | crates/packetcraftr-core/src/packet.rs:80-107 | insert then remove restores the stack exactly when the layer does not name its own place and no padding names the largest index |
| `PacketStack.SelfNamingIsNotUndone` | crates/packetcraftr-core/src/packet.rs:80-107 | a padding that names the place it is put in is not restored by removing it |
| `PacketStack.RemoveThenInsert` | crates/packetcraftr-core/src/packet.rs:80-107 | remove then insert restores the stack exactly when no other padding named the layer |
| `PacketStack.Packet.ShiftPaddingForInsert` | crates/packetcraftr-core/src/packet.rs:287-298 | the loop in place shifts every boundary at or behind the index |
| `PacketStack.Packet.ShiftPaddingForRemove` | crates/packetcraftr-core/src/packet.rs:300-311 | the loop in place shifts every boundary behind the index |
| `PacketStack.Packet.PushLayer` | crates/packetcraftr-core/src/packet.rs:74-78 | pushes as specified |
| `PacketStack.Packet.InsertLayer` | crates/packetcraftr-core/src/packet.rs:80-91 | inserts as specified, or refuses an index past the end |
| `PacketStack.Packet.RemoveLayer` | crates/packetcraftr-core/src/packet.rs:93-107 | removes as specified and returns the layer, or refuses a bad index or an orphaned padding |
| `PacketStack.Packet.ReplaceLayer` | crates/packetcraftr-core/src/packet.rs:109-119 | replaces as specified and returns the old layer, or refuses a bad index |
| `JsonTree.ValidateTree` | scripts/script_support.py:50-74 | the stack loop ends for every value, reports exactly the first fault in document order, and accepts exactly the clean values of height at most 64 |
| `JsonTree.Advance` | examples/consumers/forwarding.py:119-137 | one turn keeps the first fault of what is left and strictly lessens the work |
| `JsonTree.FirstErrorMeans` | scripts/script_support.py:61-74 | no fault exactly when nothing lies too deep, strings and keys encode and numbers are finite |
| `JsonTree.ReportedFaultHolds` | scripts/script_support.py:61-74 | the fault reported is there: something lies too deep, or some string, key or number has that very fault |
| `Timestamp.ConversionIsFloor` | crates/packetcraftr-cli/src/output/frame.rs:92-119 | the conversion is the floor, exact, fails exactly outside i64 seconds, and its nanoseconds are below a second |
| `Timestamp.FloorIsUnique` | crates/packetcraftr-core/src/frame.rs:155-171 | `unix_floor` is the only pair of that value with nanoseconds below a second |
| `Timestamp.PairOrderIsTimeOrder` | crates/packetcraftr-cli/src/output/frame.rs:92-119 | comparing pairs compares instants |
| `Timestamp.DisplayIsExact` | crates/packetcraftr-cli/src/output/frame.rs:121-130 | the text is the exact signed decimal of the instant, before and after the epoch |
| `Timestamp.DisplayIsInjective` | crates/packetcraftr-cli/src/output/frame.rs:121-130 | different timestamps never display alike |
| `Timestamp.ParseReads` | crates/packetcraftr-cli/src/command_options/timestamp.rs:10-51 | every written form in range, with any space around it, is read as its value, or refused exactly for precision |
| `Timestamp.AcceptedIsForm` | crates/packetcraftr-cli/src/command_options/timestamp.rs:19-37 | whatever is not refused as invalid was, once trimmed, such a form, read as its value or too precise |
| `Timestamp.TrimRemoves` | crates/packetcraftr-cli/src/command_options/timestamp.rs:19-21 | trimming leaves exactly what stands between the spaces |
| `Timestamp.ScaledIsExact` | crates/packetcraftr-cli/src/command_options/timestamp.rs:29-37 | the scaled fraction is below a second and the value read is the decimal written |
| `Timestamp.RoundTrip` | crates/packetcraftr-cli/src/command_options/timestamp.rs:10-51 | parsing the displayed text gives the instant back exactly when it is not before the epoch; earlier ones are refused |

## Left out

- Native sockets, libpcap, routing, TLS and UDP exchange: foreign calls and provider plumbing.
- Protocol codecs, registry lookups and diagnostics of the builder: the codec is an arbitrary function, and the checks between neighbouring layers are one answer.
- IP and TCP reassembly, filters, DNS, HTTP/2 analysis and checksum repair are not part of this model.
- Mutex poisoning, the unwinding of panics and operating-system scheduling: a callback panic is one step of the thread, and any possible step may come next.
- `runtime.rs` is modelled as step systems on values; its atomics, mutexes and channels are not class fields, because what is proved is about interleavings of several threads.
- The pool's `Weak` upgrade failing and the pool being dropped are not modelled; a thread may die at any point, which is more than the code allows, and `next_worker` does not wrap around.
- A recycled thread that is not kept counts as exited at once; its thread-local destruction is covered only by the join that frees its slot.
- Serialization contents: a record is written as one newline-terminated line that decodes to it, and the decoder may read other lines as the same record; result metering, resource snapshots and statistics are not modelled.
- `consume` for aggregate JSON, process exit codes, and the schema and mode fields of an envelope, which are part of decoding a line.
- Typed-evidence operands are tokens for their canonical values; diagnostics, warnings and flags whose only check is their type are not modelled; the message of a check that differs from its declaration is not modelled.
- ParseAxes: the text of an axis and the shared budget for generated bytes are not modelled; an axis arrives as malformed, a list or a range.
- Expand: the field setters that apply a tuple to a packet, and the checks on layers and fields, are one validation answer.
- One deadline check samples one reading of the clocks; the code reads a clock once per node.
- `get_mut`, `layer_mut` and `iter_of_mut` of a packet hand out references; their invalidation of cached lengths is that of `replace`.
