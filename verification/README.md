# Partition-response counting callbacks of the H-Store transaction coordinator

This project models, in Dafny, the callback that an H-Store site uses to
collect the responses of every partition a transaction touches, and its
specialisation for the transaction-init round.

`PartitionCountingCallback` is armed with a transaction and the set of
partitions it expects to hear from. It counts their responses down. When
the counter reaches zero it runs the protocol's *unblock* hook. On the
first abort it runs the protocol's *abort* hook instead. Five flags decide
which of the two terminal paths wins: `unblockInvoked`, `unblockFinished`,
`abortInvoked`, `abortFinished` and `canceled`. `finish()` resets the
instance so that it can be reused for another transaction.

`LocalInitQueueCallback` is the init-round specialisation:

- every partition's response counts for one;
- unblocking starts a distributed transaction;
- an abort requeues the transaction (speculative or restart status), rejects it (reject status), or fails on any other status;
- a `TransactionInitResponse` is dispatched to `abort` or to one `run` per listed partition.

Layout:

| file | module | contents |
|---|---|---|
| `types.dfy` | `Types` | Java `int` and its wrap-around, `Status`, the transaction handle `Txn`, the `Effect`s a callback has on the site, the `Fault`s a call can end with |
| `partition_counting.dfy` | `PartitionCounting` | the generic callback: state, `Init`, `Run`, `Unblock`, `Abort`, `Cancel`, `Finish`, `AllCallbacksFinished`, `ClearCounter`, `FinishTransaction` |
| `lifecycle.dfy` | `Lifecycle` | arbitrary call sequences (`Exec`) and the properties that hold across them |
| `local_init_queue.dfy` | `LocalInitQueue` | the init hooks, the response dispatch `RunResponse` and its loop `RunAll` |
| `init_queue_properties.dfy` | `InitQueueProperties` | counting and abort-classification properties of the init callback |
| `init_scenarios.dfy` | `InitScenarios` | concrete three-partition runs |

How the model is built:

- Each public Java call is one atomic, pure transition on an immutable `CallbackState`.
- A call returns a `Step` with four parts: the new state, the terminal hook it ran (`fired`), the effects on the site in call order, and an optional `Fault`.
- A `Fault` stands for a failed Java `assert`, a `RuntimeException` or a null dereference.
- When a hook throws, the state is the one the Java code had reached at that point. For example, `abortInvoked` is set but `abortFinished` is not.
- The entry assertions of `run` and `abort` fire before any mutation, so they leave the state unchanged.
- The generic class's three abstract methods are a `Hooks` record of total functions. The init callback's record is `LocalInitQueue.Callbacks`.
- The multi-threaded use of one instance is modelled by `Lifecycle.Exec` over arbitrary sequences of calls. One sequence is one interleaving of whole calls; calls whose steps interleave inside one method are not covered (see "## Left out").
- The getters `isInitialized`, `isUnblocked`, `isAborted`, `isCanceled`, `getCounter`, `getPartitions` and `getReceivedPartitions` are read directly from the state: `ts.Some?`, `flags.unblockInvoked`, `flags.abortInvoked`, `flags.canceled`, `counter`, `partitions` and `received`.
- `runImpl` of the init callback is `LocalInitQueue.RunImpl`, the constant 1. It carries no contract of its own. What it implies is stated by `InitQueueProperties.RunCounts`, `InitQueueProperties.RunCountsOne`, `InitQueueProperties.RunAllAccounting` and `InitQueueProperties.ExecKeepsAccounted`.
- `clearCounter()` is `PartitionCounting.ClearCounter`. A hook requests it through `HookResult.clearsCounter`.

In four places the code does something a reader might not expect; the
model follows the code:

- `init` adds the new partitions to the expected set rather than replacing it. It does not clear the received set.
- `finish` leaves the counter at its last value.
- `abort` queues the deletion of the transaction for every transaction. Only the finish protocol is skipped for single-partition (and for non-local) transactions.
- `cancel` suppresses the abort hook as well as the unblock hook.

## Model

| member | source | states |
|---|---|---|
| `Types.AddAndGetNegated` | src/frontend/edu/brown/hstore/callbacks/PartitionCountingCallback.java:218-219 | the new counter value is congruent to counter − delta modulo 2^32, and equals it whenever that difference fits in a Java `int` |
| `PartitionCounting.Constructed` | src/frontend/edu/brown/hstore/callbacks/PartitionCountingCallback.java:31-86 | a new callback has no handle, counter 0, no original transaction id, empty expected and received sets and all five flags off, and nothing is outstanding |
| `PartitionCounting.Init` | src/frontend/edu/brown/hstore/callbacks/PartitionCountingCallback.java:97-111 | the callback is initialized with the handle and its id recorded; counter and original counter are the number of partitions; the partitions are added to the expected set; received set and all five flags are unchanged |
| `PartitionCounting.Finish` | src/frontend/edu/brown/hstore/callbacks/PartitionCountingCallback.java:117-131 | all five flags cleared, expected and received sets emptied, handle dropped; counter, original counter and original transaction id kept; afterwards `allCallbacksFinished` holds |
| `PartitionCounting.Cancel` | src/frontend/edu/brown/hstore/callbacks/PartitionCountingCallback.java:349-356 | sets `canceled` and changes nothing else; afterwards `allCallbacksFinished` holds |
| `PartitionCounting.AllCallbacksFinished` | src/frontend/edu/brown/hstore/callbacks/PartitionCountingCallback.java:146-154 | true exactly when there is no handle, or the callback is canceled, or the counter is zero and one of the two finished flags is set (the last disjunction in the code adds nothing) |
| `PartitionCounting.ClearCounter` | src/frontend/edu/brown/hstore/callbacks/PartitionCountingCallback.java:205-207 | the counter becomes zero and nothing else changes |
| `PartitionCounting.Run` | src/frontend/edu/brown/hstore/callbacks/PartitionCountingCallback.java:214-230 | a partition already received is an error that changes nothing; otherwise the partition is added to the received set and the counter drops by the hook's delta, whatever else happens; the unblock hook runs iff the new counter is exactly 0 and the callback is neither canceled nor claimed by either path; when it runs, it sees the lowered counter and the new partition, its effects and exception are the call's, and `unblockFinished` is set iff it returns normally; the abort flags are never touched; unblocking twice is an error |
| `PartitionCounting.Unblock` | src/frontend/edu/brown/hstore/callbacks/PartitionCountingCallback.java:263-277 | canceled or aborted: silently nothing; already unblocked: an error with the state unchanged; otherwise the unblock hook runs once, `unblockInvoked` is set, and `unblockFinished` is set iff the hook returns normally |
| `PartitionCounting.FinishTransaction` | src/frontend/edu/brown/hstore/callbacks/PartitionCountingCallback.java:185-197 | the finish protocol is started, once, iff the transaction is local |
| `PartitionCounting.AbortCleanup` | src/frontend/edu/brown/hstore/callbacks/PartitionCountingCallback.java:322-329 | after the abort hook: a finish request only for a local multi-partition transaction, then always the deletion request, each exactly once, and nothing else |
| `PartitionCounting.Abort` | src/frontend/edu/brown/hstore/callbacks/PartitionCountingCallback.java:292-332 | a missing or uninitialized handle is an error that changes nothing; canceled or already aborted: no-op; already unblocked: only `abortInvoked` is set, with no hook and no clean-up; otherwise the abort hook runs once, then the clean-up, and `abortFinished` is set iff the hook returns normally; the unblock flags are never touched |
| `Lifecycle.Apply` | src/frontend/edu/brown/hstore/callbacks/PartitionCountingCallback.java:97-352 | each public call (`init`, `run`, `abort`, `cancel`, `finish`) as one step: every call except `finish` only turns flags on; a hook runs only when neither path is claimed and the callback is not canceled, and it claims one; a canceled callback runs no hook and has no effect on the site (a `run` still counts) |
| `Lifecycle.HooksPerLifecycle` | src/frontend/edu/brown/hstore/callbacks/PartitionCountingCallback.java:263-332 | over any call sequence, the number of hook runs is at most the number of lifecycles, i.e. `finish` calls plus the current one |
| `Lifecycle.AtMostOneTerminalHook` | src/frontend/edu/brown/hstore/callbacks/PartitionCountingCallback.java:263-332 | between two `finish` calls at most one of the unblock and abort hooks runs, at most once, whatever the interleaving of whole calls; none runs once a path has been claimed |
| `Lifecycle.CanceledIsSilent` | src/frontend/edu/brown/hstore/callbacks/PartitionCountingCallback.java:263-310 | once canceled, no sequence of calls without `finish` runs a hook or has any effect on the site, and the callback stays canceled |
| `Lifecycle.FinishThenInitIsFresh` | src/frontend/edu/brown/hstore/callbacks/PartitionCountingCallback.java:97-131 | `finish` then `init` yields exactly the state of a newly constructed callback after the same `init`: counter equals the new partition count, received set empty, expected set equal to the new partitions |
| `Lifecycle.ExecKeepsCoherent` | src/frontend/edu/brown/hstore/callbacks/PartitionCountingCallback.java:263-332 | in every state reachable by interleavings of whole calls, a finished flag implies its invoked flag and a finished abort implies the unblock path never ran, so the two paths never both finish |
| `LocalInitQueue.UnblockCallback` | src/frontend/edu/brown/hstore/callbacks/LocalInitQueueCallback.java:78-95 | an aborted callback fails the assertion; otherwise it emits `Start` iff the transaction is not predicted single-partition; it never clears the counter |
| `LocalInitQueue.AbortCallback` | src/frontend/edu/brown/hstore/callbacks/LocalInitQueueCallback.java:97-118 | speculative or restart status: exactly one `Restart` and no `Reject`; reject status: exactly one `Reject`; any other status: an unexpected-status error with no effect; never clears the counter |
| `LocalInitQueue.RunAll` | src/frontend/edu/brown/hstore/callbacks/LocalInitQueueCallback.java:133-135 | the loop gets through only if the list has no repeated partition and none already received, and then every listed partition is recorded; it runs at most one unblock hook and never an abort hook |
| `InitQueueProperties.RunAllAppend` | src/frontend/edu/brown/hstore/callbacks/LocalInitQueueCallback.java:133-135 | when a prefix of the list gets through, running the whole list is running the prefix and then the rest from the state it left, with hooks and effects of both kept in order |
| `InitQueueProperties.LateDuplicateKeepsPrefix` | src/frontend/edu/brown/hstore/callbacks/PartitionCountingCallback.java:214-217 | a partition repeated after a prefix that got through fails only after the prefix ran: the prefix's state, hooks and effects (a started transaction included) are kept |
| `LocalInitQueue.RunResponse` | src/frontend/edu/brown/hstore/callbacks/LocalInitQueueCallback.java:124-137 | a non-OK status aborts with that status and records no partition; OK runs each listed partition in order (see `RunAllAppend`); a duplicate in an OK response is an error |
| `InitQueueProperties.RunCounts` | src/frontend/edu/brown/hstore/callbacks/PartitionCountingCallback.java:214-230 | in any state of the flags, with or without a handle, one response from an expected, unanswered partition lowers the counter by one and keeps counter = expected − received; a hook runs iff it was the last one missing and neither path is claimed nor the callback canceled |
| `InitQueueProperties.RunCountsOne` | src/frontend/edu/brown/hstore/callbacks/LocalInitQueueCallback.java:57-88 | for a live callback with a handle, the same response never fails, and when it is the last one missing it runs the unblock hook once, which starts a distributed transaction unless it is single-partition |
| `InitQueueProperties.AbortKeepsAccounted` | src/frontend/edu/brown/hstore/callbacks/LocalInitQueueCallback.java:114-117 | an abort of the init callback never changes the counter, the expected or the received partitions, so counter = expected − received survives it |
| `InitQueueProperties.RunAllKeepsAccounted` | src/frontend/edu/brown/hstore/callbacks/LocalInitQueueCallback.java:130-136 | for any list of expected partitions and any flags, counter = expected − received still holds wherever a duplicate or a failing hook stops the loop |
| `InitQueueProperties.ExecKeepsAccounted` | src/frontend/edu/brown/hstore/callbacks/PartitionCountingCallback.java:214-230 | across any sequence of `run` (of expected partitions), `abort` and `cancel` calls, the init callback's counter equals the number of expected partitions not yet received |
| `InitQueueProperties.RunAllAccounting` | src/frontend/edu/brown/hstore/callbacks/LocalInitQueueCallback.java:57-72 | for any list of distinct, expected, unanswered partitions, counter = expected − received ≥ 0 afterwards, and unblock has run (once) iff received equals expected |
| `InitQueueProperties.AllResponsesUnblockOnce` | src/frontend/edu/brown/hstore/callbacks/LocalInitQueueCallback.java:57-95 | after `finish` and `init(t, P)` with P non-empty, one response per partition in any order leaves counter 0, received = P, the unblock hook run exactly once, the abort hook never, and nothing outstanding |
| `InitQueueProperties.MissingResponsesBlock` | src/frontend/edu/brown/hstore/callbacks/PartitionCountingCallback.java:214-230 | while some expected partition is missing, the counter equals the number missing (> 0), nothing has run and the callback is not finished |
| `InitQueueProperties.InitAbortOutcome` | src/frontend/edu/brown/hstore/callbacks/LocalInitQueueCallback.java:97-118 | the first abort of a live init callback runs the abort hook once and leaves counter and received set alone; restart-class and reject statuses are followed by the clean-up; any other status fails before the clean-up and leaves the abort unfinished |
| `InitQueueProperties.UnblockNeverSeesAbort` | src/frontend/edu/brown/hstore/callbacks/LocalInitQueueCallback.java:78-80 | the assertion at the top of the init unblock hook never fails when the hook is reached through the generic callback and calls do not interleave inside `unblock` and `abort` |
| `InitScenarios.AllAcceptStartsOnLastResponse` | src/frontend/edu/brown/hstore/callbacks/PartitionCountingCallback.java:214-230 | partitions {0,1,2}, responses 0, 1, 2: nothing happens before the third response, which unblocks once and starts the transaction with counter 0 |
| `InitScenarios.RejectAfterOneResponse` | src/frontend/edu/brown/hstore/callbacks/LocalInitQueueCallback.java:108-110 | response 0, reject abort, response 1: the transaction is rejected, finished and deleted once; the late response is recorded and starts nothing |
| `InitScenarios.RestartRequeuesOnce` | src/frontend/edu/brown/hstore/callbacks/LocalInitQueueCallback.java:101-107 | a restart abort yields exactly one restart request and no reject |
| `InitScenarios.DuplicateResponseRefused` | src/frontend/edu/brown/hstore/callbacks/PartitionCountingCallback.java:214-217 | a second response from partition 0 is an error and the counter is lowered only once |
| `InitScenarios.UnexpectedStatusIsFatal` | src/frontend/edu/brown/hstore/callbacks/LocalInitQueueCallback.java:111-113 | an unclassifiable abort status fails with no effect on the site, leaves the abort unfinished and the callback not finished afterwards |
| `InitScenarios.FatalAbortStuck` | src/frontend/edu/brown/hstore/callbacks/PartitionCountingCallback.java:263-330 | after that failed abort, all three partitions still answer and the counter reaches 0, but no hook runs, nothing reaches the site and the callback is still not finished: the claimed abort blocks unblock and `abortFinished` is never set |

## Left out

- Thread interleavings inside a single method are not modelled. Each public call is one atomic step, which covers every ordering of whole calls and no other. The memory ordering of the `lazySet` flag resets in `finish` is missed too.
- Lifecycle.AtMostOneTerminalHook: holds only for interleavings of whole calls. In the code, `unblock` reads `abortInvoked` (PartitionCountingCallback.java:264) before its compare-and-set on `unblockInvoked` (:265), and `abort` sets `abortInvoked` (:305) before it reads `unblockInvoked` (:306). An `abort` that runs entirely between :264 and :265 of an `unblock` finds `unblockInvoked` still false and runs the abort hook, and the `unblock` then runs the unblock hook as well: both hooks run in one lifecycle.
- Lifecycle.ExecKeepsCoherent: holds only for interleavings of whole calls. Under the race above, the `abort` sets `abortInvoked` and, once its hook and clean-up return, `abortFinished` (:305, :330), and the `unblock` then sets `unblockInvoked` (:265): a finished abort with the unblock path invoked breaks `Coherent`, and with a hook that returns normally both paths finish.
- InitQueueProperties.UnblockNeverSeesAbort: holds only for interleavings of whole calls. Under the race above, the init unblock hook is reached with `abortInvoked` already set, and its assertion (LocalInitQueueCallback.java:80) fails.
- PartitionCounting.Init: stores the transaction handle as a value taken at `init`. In the code the callback holds a reference to a live handle that the site mutates and recycles, and it is read at call time: `abort` reads `isInitialized()` and `isPredictSinglePartition()` (PartitionCountingCallback.java:298, :322), the init unblock hook reads `isPredictSinglePartition()` (LocalInitQueueCallback.java:85), and the init abort hook passes the live handle on to the site (:106, :109). A handle that changes or is recycled between `init` and those reads is not modelled; the assertion at :298 only fails here when `init` was given an uninitialized handle.
- Logging, debug toggles and `toString` are left out; they change no state.
- The external collaborators are not modelled, only recorded as entries in the effect log: `HStoreSite.transactionStart`, `transactionReject` and `queueDeleteTransaction`, `TransactionQueueManager.restartTransaction`, and `HStoreCoordinator.transactionFinish`. `FinishTxn` stands for the pair of calls at PartitionCountingCallback.java:194-195: `initTransactionFinishCallback(status)` on the handle, then `transactionFinish`. The change that the first call makes to the handle (attaching a finish callback) is not modelled.
- The `Status` enumeration is not part of this model beyond the four values the callbacks test. All other values are `OtherStatus(code)`.
- Protobuf decoding of `TransactionInitResponse` is left out. A response is a status and a list of partition ids.
- Object pooling is left out. Reuse is covered only by the `finish`-then-`init` property.
- `instanceof LocalTransaction` is the `local` field of the transaction handle. The non-local branch of `abort` is an empty placeholder in the code and emits nothing here.
- `init` with a null transaction (a `NullPointerException` in the code) is not modelled: `Init` takes a transaction value.
- The Java assertions are taken as enabled. With assertions disabled, a duplicate `run` would double-decrement. An `abort` without a handle would then return quietly when the callback is canceled or already aborted, claim `abortInvoked` and return after a warning when it is already unblocked, and otherwise run the abort hook on the null handle (for an unclassified status the init hook throws its unexpected-status exception; otherwise it passes the null handle on to the site), and only the clean-up after the hook dereferences the handle (PartitionCountingCallback.java:322).
- The benchmark result reporting (`FinalResult`) and the site test utilities are not part of this model. They are floating-point statistics, JSON and file I/O, and fixtures that inspect a live site.
