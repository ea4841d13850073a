# BFC reactors, verified

A Dafny model of the event-loop core of BFC and proofs about it. One reactor thread sleeps in
`poll`, `epoll_wait` or on a condition variable while any number of other threads post
callbacks, stop requests, descriptor removals and queue items. The project models

- the wake-up protocols of the three reactors as interleaving step machines with an unbounded
  number of threads (`FdReactor` for the poll and epoll reactors, `CvReactor`), their inductive
  invariants, and one abstract mailbox that all three refine (`Mailbox`, `Callbacks`);
- the poll reactor's table: the caller's view with its history (`Interests`), what every run
  does (`InterestsTheorems`), what each operation does and what stands until the next one
  (`InterestsEffects`), the dense vector with swap-removal and its cross-index
  (`PollSlots`), and the class with the operations and the pass over a snapshot (`PollTable`);
- the queue registrations and the notification pass (`ReactorQueues`), which the step machine
  follows (`QueuePass`), the lossy ring buffer (`LossyRing`) and its whole-run law (`RingRuns`);
- the thread pool hand-off (`ThreadPool`), the timer (`Timer`, `TimerRuns`), the wait-time
  arithmetic (`WaitTime`), and the refcounted buffer views, as numbered views and storages
  (`BufferRuns`) and as heap objects with arrays that refine them (`SharedBuffer`).

Conventions. Atomics are sequentially consistent. A step of a machine is one critical section,
one atomic operation or one system call. Counters are unbounded, descriptors are non-negative,
and times are unbounded integers. `poll`, `dup`, the clock and the allocator are parameters:
poll may report any bits, `dup` fails or yields a descriptor that is not open, fresh memory has
arbitrary contents. Callbacks are opaque; what a callback does is an arbitrary sequence of
operations on the structure that calls it. `dafny verify dfyconfig.toml` checks everything.

Four laws one would expect are not what the code does. Each has the exact condition under which
the code meets it and a concrete case in which it does not:

- a wake-up is lost, and a queue is slept on, if and only if the latest write to the doorbell
  failed with an unexpected error while no earlier ring was live, and no caller is still ahead of
  its ring; this holds for the poll reactor's pipe and for the epoll reactor's eventfd
  (`LostExactlyAfterFailedWrite`, `SleptOnExactlyAfterFailedWrite`; witnesses
  `FailedWriteLosesWakeUp`, `FailedWriteSleepsOnData`);
- a write callback also runs for an interest that asks for nothing, when poll reports an error or
  hang-up bit of it. A promise about poll's reports makes the one-shot law hold in every run that
  keeps it if and only if it rules out every report of a write interest that asks for nothing;
  what is reported of an armed one, an error alone included, does not matter (`OneShotExactly`,
  witness `ReportFiresUnasked`). In every run, invocations are at most the requests and the passes
  that invoke an interest which asks for nothing (`OneShotWrites`);
- the workers of a `thread_pool` are all free, reserved, assigned, running or finished if and
  only if no empty function was ever handed to `execute`; each one that was takes one more worker
  out of service for good (`LeaksExactlyEmptyFunctions`, `LeakedForever`, witness
  `EmptyFunctionLeaks`), and as many as there are workers stop the pool
  (`EmptyFunctionsStopThePool`);
- a subview of a subview is the subview at the summed offset if and only if the view has no
  storage, both requests are in range, or the summed one is out of range (`NestedSubview`, witness
  `NestedSubviewDiffers`).

The reactors differ when they are stopped. A pass of the poll or epoll reactor runs what was posted
and then leaves (`PassServesEveryRequest`); the cv reactor leaves at once, and what was posted and
not yet run stays behind (`PassServesOrLeaves`).

## Model

| member | source | states |
|---|---|---|
| FdReactorTheorems.NoLostWakeUp | src/bfc/poll_reactor.hpp:253-449 | in every interleaving, a reactor blocked without a timeout while a callback, removal or stop request is outstanding has a ready doorbell or another thread still ahead of its ring, unless the latest ring failed while no earlier one was live |
| FdReactorTheorems.LostExactlyAfterFailedWrite | src/bfc/poll_reactor.hpp:422-448 | for the pipe and for the eventfd, that holds if and only if the latest write did not fail with no earlier ring live, or some caller has still to post its callback or to ring |
| FdReactorTheorems.RingIsHeard | src/bfc/poll_reactor.hpp:94-111 | over every run a ring that is live or owed stays so until the wake handler absorbs it on the way to taking the callbacks, or a write fails |
| FdReactorTheorems.FailedWriteLosesWakeUp | src/bfc/poll_reactor.hpp:445-447 | with either doorbell, a run in which a failed write leaves a callback behind with the reactor asleep and nobody about to ring |
| FdReactorTheorems.PassServesEveryRequest | src/bfc/poll_reactor.hpp:257-390 | once all callers have returned, an outstanding request lets the wait return unless its ring was lost; and whenever the wait returns, also after a lost ring, the reactor alone runs every posted callback, completes every removal, uses the ring up (the pipe is empty and the flag clear, the eventfd one lower if it was reported), sets the backlog flag exactly when a registered queue has data, and then leaves run exactly when a stop was requested; every continuation of the reactor alone is part of that pass or extends it |
| FdReactorTheorems.OneRingOnePass | src/bfc/poll_reactor.hpp:94-111 | after the pass for one ring, with no queue data and no timer, the reactor blocks without a timeout and that ring does not wake it again |
| FdReactorTheorems.WaitsAgain | src/bfc/poll_reactor.hpp:257-302 | the next wait has no timeout exactly when there is neither a deadline nor a backlog, and reports the doorbell exactly when it is ready |
| FdReactorTheorems.CallsAreRecorded | src/bfc/poll_reactor.hpp:394-449 | each call leaves its callback, removal, stop, data or registration where the theorems look for it |
| FdReactorTheorems.StopIsFinal | src/bfc/poll_reactor.hpp:394-398 | over every run a stop requested in run is never forgotten |
| FdReactorTheorems.OneWay | src/bfc/poll_reactor.hpp:304-390 | apart from waiting the reactor alone is deterministic: two continuations agree as far as both go |
| FdReactorTheorems.NoSleepingOnData | src/bfc/reactor_queues.hpp:56-77 | a registered and bound queue with data is never slept on: the doorbell is ready or a pusher is between its enqueue and its ring, whatever handlers take, push or register, unless the latest ring failed while no earlier one was live |
| FdReactorTheorems.SleptOnExactlyAfterFailedWrite | src/bfc/event_queue.hpp:91-101 | for the pipe and for the eventfd, that holds if and only if the latest write did not fail with no earlier ring live, or some caller is ahead of its ring or of this queue's notification |
| FdReactorTheorems.FailedWriteSleepsOnData | src/bfc/epoll_reactor.hpp:350-360 | with either doorbell, a run in which a failed write leaves a registered queue with data and the reactor asleep |
| FdReactorTheorems.SingleWakeToken | src/bfc/poll_reactor.hpp:94-111 | m_wake_pending equals the number of tokens: bytes in the pipe, writers between compare-and-swap and write, and the reader between drain and clear |
| FdReactorTheorems.FullPipeNeverSeen | src/bfc/poll_reactor.hpp:440-444 | the pipe never holds more than one byte and the full-pipe branch is never enabled |
| FdReactorTheorems.DeferredRemovals | src/bfc/poll_reactor.hpp:725-756 | removals run in request order, each request at most once, each done callback before the next removal; a queued removal has its own callback ahead of it; once another callback starts or the pass goes on, the removal and its done callback are over |
| FdReactorInvariant.InvKept | src/bfc/poll_reactor.hpp:253-449 | every step of every thread keeps the conjunction of token, phase, wake, queue, history and removal invariants |
| FdReactorInvariant.RungKept | src/bfc/poll_reactor.hpp:359-370 | a live or owed ring survives every step except the absorption that is followed by taking the callback list |
| FdReactorInvariant.QueueKeptByReactor | src/bfc/reactor_queues.hpp:56-77 | no reactor step forgets a queue with data: a ring, a pusher, the backlog flag or a visit ahead covers it |
| FdReactorInvariant.RemovalKeptByReactor | src/bfc/epoll_reactor.hpp:553-584 | running a removal callback takes every queued removal with it |
| FdReactorRefinement.Refines | src/bfc/epoll_reactor.hpp:235-360 | every behavior of the poll or the epoll reactor without failed rings, also with fd callbacks before the eventfd is read, is a behavior of the mailbox |
| FdReactorRefinement.CallbacksInOrder | src/bfc/epoll_reactor.hpp:295-304 | in every behavior, failed rings or not, callbacks run in append order, at most once, and one posted while a batch runs waits for a later batch |
| FdReactorRefinement.WaitsOnlyWhenSafe | src/bfc/epoll_reactor.hpp:257-272 | the reactor waits only with nothing untaken, a live ring, or a ring owed |
| CvReactor.InvKept | src/bfc/cv_reactor.hpp:86-176 | every step keeps the flag, the mutex discipline and the owed rings consistent |
| CvReactor.NoLostWakeUp | src/bfc/cv_reactor.hpp:109-176 | blocked on the condition variable with a callback or a stop outstanding, the flag is clear and another thread is still about to set it and notify |
| CvReactor.Refines | src/bfc/cv_reactor.hpp:86-170 | every behavior of the cv reactor is a behavior of the mailbox |
| CvReactor.CallbacksInOrder | src/bfc/cv_reactor.hpp:143-152 | callbacks run in append order, at most once, and one posted while a batch runs waits for a later batch |
| CvReactor.PassServesOrLeaves | src/bfc/cv_reactor.hpp:109-152 | once all callers have returned and the wait ends, the reactor alone uses the flag up and runs every posted callback, or leaves run with none of them run exactly when a stop was requested; every continuation of the reactor alone agrees |
| CvReactor.BlocksExactlyWhenQuiet | src/bfc/cv_reactor.hpp:109-121 | a running reactor blocks when the flag is clear and does not when it is set |
| CvReactor.StopIsFinal | src/bfc/cv_reactor.hpp:172-176 | over every run a stop requested in run is never forgotten |
| Mailbox.InOrderAtMostOnce | src/bfc/poll_reactor.hpp:359-368 | the log only grows, deliveries are growing prefixes of it, and without a new take only what was already there is delivered |
| Mailbox.SleepsOnlyWhenSafe | src/bfc/poll_reactor.hpp:284-302 | the consumer is asleep only with nothing untaken, a live ring or a ring owed |
| Callbacks.MailOperations | src/bfc/poll_reactor.hpp:359-368 | append, take and run lose, duplicate and reorder no callback |
| InterestsTheorems.GenerationSafePass | src/bfc/poll_reactor.hpp:290-357 | in every pass of every run, whatever callbacks add and remove, each invocation is for a registration that was in the polled snapshot and was reported, none is invoked twice, and no entry is erased meanwhile |
| InterestsTheorems.InvokedExactlyWhenServed | src/bfc/poll_reactor.hpp:304-357 | in every pass of every run, a registration of the snapshot is invoked exactly when it was reported and is still registered, with a callback, at its turn; the invocation is unasked exactly when its slot asked for nothing |
| InterestsTheorems.NeverFiresAfterRemoval | src/bfc/poll_reactor.hpp:332-355 | over every run no callback runs after its registration was removed, also when the fd number was registered again |
| InterestsTheorems.OneShotWrites | src/bfc/poll_reactor.hpp:346-355 | over every run a write registration is invoked in exactly the passes in which it was reported and still there at its turn; at most as often as it was requested plus the passes that invoked it although it asked for nothing; only in those if never requested |
| InterestsTheorems.OneShotWhenAsked | src/bfc/poll_reactor.hpp:227-244 | if poll reports no write interest that asks for nothing, no write registration is invoked more often than req_write was called for it |
| InterestsTheorems.OneShotExactly | src/bfc/poll_reactor.hpp:304-355 | a promise about what poll reports of write interests makes that law hold in every run if and only if it rules out every report of one that asks for nothing |
| InterestsTheorems.ReportFiresUnasked | src/bfc/poll_reactor.hpp:314-355 | any report, a hang-up for one, invokes a write callback that was never requested |
| InterestsTheorems.DescriptorsConserved | src/bfc/poll_reactor.hpp:170-225 | over every run the open duplicates are exactly those of the write interests, one each |
| InterestsTheorems.CleanupOfEveryPass | src/bfc/poll_reactor.hpp:372-387 | cleanup erases exactly the listed entries without an active interest; what remains is active or left by a failed dup |
| InterestsTheorems.DispatchIsGenerationSafe | src/bfc/poll_reactor.hpp:314-357 | the snapshot law for any prefix of the dispatch loop |
| InterestsTheorems.FirePaid | src/bfc/poll_reactor.hpp:346-355 | one invocation of a write callback uses up one request or is unasked, despite a stale snapshot |
| InterestsTheorems.ApplyKeeps | src/bfc/poll_reactor.hpp:121-244 | every add, rem and req keeps generations distinct and unused, duplicates matched, and inactive entries accounted for |
| InterestsTheorems.PassKeeps | src/bfc/poll_reactor.hpp:290-389 | a whole pass keeps the table invariant and every invocation paid for |
| InterestsEffects.AddReadEffect | src/bfc/poll_reactor.hpp:121-141 | the read interest has the given events and callback, a new generation unless it was registered; no other interest changes |
| InterestsEffects.AddWriteEffect | src/bfc/poll_reactor.hpp:170-197 | the write interest has the given callback, asks for nothing, and owns the duplicate; without a duplicate nothing is registered; no other interest changes |
| InterestsEffects.RemoveEffect | src/bfc/poll_reactor.hpp:143-168 | the interest is gone, the other interest of its fd and all others stay, and its entry is listed for cleanup exactly when nothing of it is active |
| InterestsEffects.RemoveCloses | src/bfc/poll_reactor.hpp:199-225 | removing a write interest closes exactly its duplicate, removing a read interest none |
| InterestsEffects.ReqWriteEffect | src/bfc/poll_reactor.hpp:227-244 | the write interest asks for exactly what was requested; callback, generation and all other interests stay |
| InterestsEffects.FireEffect | src/bfc/poll_reactor.hpp:332-355 | an invocation calls the callback the interest has, disarms a write interest and leaves a read interest and all others as they were |
| InterestsEffects.RequestIsPolledInRuns | src/bfc/poll_reactor.hpp:290-300 | over every run a write interest requested, and since then neither invoked nor added, removed or requested again, is polled in the next pass for what was requested |
| InterestsEffects.ReadStands | src/bfc/poll_reactor.hpp:121-141 | whatever else happens, a read interest keeps its events and callback until it is added or removed again, however often it is invoked |
| InterestsEffects.CallbackStands | src/bfc/poll_reactor.hpp:332-355 | an interest keeps its callback and generation until it is added or removed again |
| InterestsEffects.RemovalStands | src/bfc/poll_reactor.hpp:143-168 | a removed interest stays away until it is added again |
| InterestsEffects.PassIsActs | src/bfc/poll_reactor.hpp:304-389 | a pass is the served slots in order, each followed by what its callback does, then the posted operations, one cleanup, and the timers' operations |
| InterestsEffects.PassLeavesNoIdleEntry | src/bfc/poll_reactor.hpp:372-389 | at the end of every pass of every run each entry that is left is active, left by a failed dup, or removed by a timer after the cleanup |
| PollSlots.SwapRemoveKeeps | src/bfc/poll_reactor.hpp:516-549 | swap-removal keeps slots and active interests in one-to-one correspondence, also when it moves the same fd's other interest |
| PollSlots.AppendSlotKeeps | src/bfc/poll_reactor.hpp:482-493 | a new slot extends the correspondence by one interest |
| PollSlots.SetSlotKeeps | src/bfc/poll_reactor.hpp:495-514 | changing a slot's events changes exactly that interest |
| PollSlots.ItemsAreSnapshot | src/bfc/poll_reactor.hpp:293-300 | the polled snapshot holds the wake pipe first and every registration exactly once |
| PollSlots.PolledForWhatItAsks | src/bfc/poll_reactor.hpp:482-514 | a registered interest has a slot with its descriptor and the events it asks for, an unregistered one has none |
| PollSlots.NoDuplicateLeft | src/bfc/poll_reactor.hpp:376-383 | an entry up for erasure holds no duplicate, so the close during cleanup is never reached |
| PollSlots.DuplicateIsOpen | src/bfc/poll_reactor.hpp:209-214 | the descriptor rem_write closes is open, so none is closed twice |
| PollSlots.CleanupCoupled | src/bfc/poll_reactor.hpp:372-386 | erasing entries leaves every slot and interest in place |
| PollTable.PollTable.AddRead | src/bfc/poll_reactor.hpp:121-141 | refines registering a read interest; the fd is polled for the given events; other interests and the correspondence are kept |
| PollTable.PollTable.RemRead | src/bfc/poll_reactor.hpp:143-168 | refines unregistering it; interest and slot are gone, other interests and the duplicates stay; false for an unknown fd |
| PollTable.PollTable.AddWrite | src/bfc/poll_reactor.hpp:170-197 | refines registering a write interest over a fresh duplicate, which is polled for nothing yet; fails exactly when a needed dup fails, and then registers nothing |
| PollTable.PollTable.RemWrite | src/bfc/poll_reactor.hpp:199-225 | refines unregistering it; interest and slot are gone and its duplicate is closed |
| PollTable.PollTable.ReqWrite | src/bfc/poll_reactor.hpp:227-244 | the duplicate of the write interest is polled for exactly the requested events and every other slot and interest is unchanged; false exactly when there is no such interest |
| PollTable.PollTable.RemovePollEntryByIndex | src/bfc/poll_reactor.hpp:516-531 | the last slot moves into the hole and its owner's index follows |
| PollTable.PollTable.DispatchReady | src/bfc/poll_reactor.hpp:314-356 | the dispatch loop refines dispatching the snapshot slot by slot |
| PollTable.PollTable.EraseEntries | src/bfc/poll_reactor.hpp:372-386 | the cleanup loop refines erasing the listed inactive entries; the close of a duplicate is not reached |
| PollTable.PollTable.Pass | src/bfc/poll_reactor.hpp:290-389 | the table part of a pass refines the abstract pass from a snapshot of every registration, keeps generations, duplicates and inactive entries accounted for, and leaves only entries that are in use |
| ReactorQueues.ReactorQueues.Add | src/bfc/reactor_queues.hpp:29-42 | the queue has exactly this callback, other registrations and the order are unchanged |
| ReactorQueues.ReactorQueues.Rem | src/bfc/reactor_queues.hpp:45-52 | exactly this queue is gone, the others keep their order |
| ReactorQueues.ReactorQueues.Notify | src/bfc/reactor_queues.hpp:56-77 | visits the queues registered when the pass began, whatever callbacks register and remove meanwhile; true exactly when some queue still had data right after its own turn |
| ReactorQueues.VisitsInOrder | src/bfc/reactor_queues.hpp:66-74 | each queue in turn: with data its own callback is run once on what the earlier visits left, without data nothing happens |
| QueuePass.PassMirrorsNotify | src/bfc/reactor_queues.hpp:56-77 | the step machine's pass over the queues ends with the registrations, data and backlog flag of notify |
| QueuePass.HandlerRegisters | src/bfc/reactor_queues.hpp:29-42 | a registration by any thread or handler is the same in the step machine and in add |
| QueuePass.HandlerUnregisters | src/bfc/reactor_queues.hpp:45-52 | and a removal the same as in rem |
| RingRuns.RunConserves | src/bfc/event_queue.hpp:166-253 | for any mix of operations, the gone elements followed by the held ones are the pushed ones, in order |
| RingRuns.PopsFollowPushes | src/bfc/event_queue.hpp:237-253 | over every run the pops are an in-order subsequence of the pushes |
| RingRuns.AnswersArePopped | src/bfc/event_queue.hpp:237-253 | over every run the values the pops answered are exactly the elements recorded as popped, in order |
| RingRuns.AnswersFollowPushes | src/bfc/event_queue.hpp:237-253 | over every run the answers are an in-order subsequence of the pushes |
| RingRuns.PopsDrain | src/bfc/event_queue.hpp:237-253 | n pops answer the first n elements in order and leave the others |
| RingRuns.PushLosesWhenFull | src/bfc/event_queue.hpp:201-233 | with non-zero capacity a push drops the oldest exactly when the occupancy was the capacity; it signals exactly when it enqueues |
| LossyRing.LossyRing.Push | src/bfc/event_queue.hpp:201-233 | the element is appended, after the oldest is dropped if the ring was full; discarded at capacity zero; returns the occupancy before |
| LossyRing.LossyRing.Pop | src/bfc/event_queue.hpp:237-253 | answers the first element and takes it out, recorded as popped; none when empty |
| LossyRing.LossyRing.SetCapacity | src/bfc/event_queue.hpp:166-195 | keeps the newest min(size, capacity) in order for any wrapped head |
| LossyRing.LossyRing.Newest | src/bfc/event_queue.hpp:176-187 | the copy loop moves the newest elements to the front of the new slots and leaves the rest empty |
| LossyRing.SlotIsModulo | src/bfc/event_queue.hpp:216-225 | modular slot arithmetic wraps exactly once |
| ThreadPool.ExactlyOnePlace | src/bfc/thread_pool.hpp:31-86 | in every interleaving each worker is in exactly one of free, reserved, assigned, running, finished, or leaked to an empty function |
| ThreadPool.NoSlotOverwritten | src/bfc/thread_pool.hpp:79-85 | execute stores only into an empty slot |
| ThreadPool.HeldOrRunOnce | src/bfc/thread_pool.hpp:38-49 | every accepted task is held or has been run, not both, and no task is run twice |
| ThreadPool.ExitsEmptyHanded | src/bfc/thread_pool.hpp:51-54 | an exited worker left an empty slot; when all have exited every accepted task was run |
| ThreadPool.WorkerRunsItsTask | src/bfc/thread_pool.hpp:33-57 | a worker with a task assigned, alone, runs it once and returns to the free list with an empty slot, also after shutdown |
| ThreadPool.WorkerIsDeterministic | src/bfc/thread_pool.hpp:33-57 | a worker has at most one step in every state |
| ThreadPool.CountActive | src/bfc/thread_pool.hpp:88-92 | pool size minus free-list length is the number of workers that are not free |
| ThreadPool.LeaksExactlyEmptyFunctions | src/bfc/thread_pool.hpp:71-86 | each worker is in exactly one of the five places if and only if no empty function was handed over; the workers in none of them number the empty functions |
| ThreadPool.LeakedForever | src/bfc/thread_pool.hpp:33-57 | a worker in none of the five places stays in none |
| ThreadPool.EmptyFunctionsStopThePool | src/bfc/thread_pool.hpp:75-80 | after as many empty functions as workers no execute ever gets a worker |
| ThreadPool.EmptyFunctionLeaks | src/bfc/thread_pool.hpp:79-85 | a run in which one empty function leaves a pool of one worker without any |
| TimerRuns.ExactlyOnePlace | src/bfc/timer.hpp:21-88 | each issued timer is in exactly one of pending, extracted, fired and cancelled; nothing fires twice |
| TimerRuns.FiresInOrderNeverEarly | src/bfc/timer.hpp:62-88 | no timer fires early or in a call that began before it was added; within a call, by deadline then creation |
| TimerRuns.FiresAsAsked | src/bfc/timer.hpp:21-30 | over every run the timer made by a wait of forUs at nowUs runs the callback it was given, and only at a clock of at least nowUs + forUs |
| TimerRuns.ExtractsExactlyDue | src/bfc/timer.hpp:67-82 | schedule takes out exactly the due timers, in key order |
| TimerRuns.CancelledNeverFires | src/bfc/timer.hpp:56-60 | a timer that cancel found never fires in any later state |
| Timer.Timer.WaitUs | src/bfc/timer.hpp:21-30 | the timer is pending with deadline nowUs + forUs, the given callback and the next number; no other timer changes |
| Timer.Timer.CancelTimer | src/bfc/timer.hpp:56-60 | true exactly when the timer was pending; afterwards it is not, and all others are |
| Timer.Timer.GetNextDeadlineUs | src/bfc/timer.hpp:39-48 | the minimum deadline of all pending timers |
| Timer.Timer.ExtractDue | src/bfc/timer.hpp:66-82 | the loop takes out exactly the due timers, in key order, and leaves the others |
| Timer.Timer.Schedule | src/bfc/timer.hpp:62-88 | fires exactly the timers due at the call, in order; what is pending, issued and cancelled afterwards is what the callbacks' additions and cancellations, in their order between the firings, make of it |
| Timer.ScheduleInBehavior | src/bfc/timer.hpp:62-88 | a schedule call is a behavior of the timer machine, so accounting, order and never early hold of it |
| WaitTime.EpollWaitsForTheGap | src/bfc/epoll_reactor.hpp:241-255 | seconds and nanoseconds are the gap exactly; the millisecond fallback is its ceiling, clamped |
| WaitTime.WaitsForeverExactly | src/bfc/poll_reactor.hpp:259-288 | no timeout exactly when no timer is pending and there is no backlog |
| WaitTime.PollNeverOversleeps | src/bfc/poll_reactor.hpp:259-282 | the wait ends by the deadline of every pending timer, within a millisecond of the earliest |
| WaitTime.CvWaitsTheSmaller | src/bfc/cv_reactor.hpp:92-107 | the smaller of the idle timeout and the remaining gap |
| WaitTime.BacklogDoesNotWait | src/bfc/poll_reactor.hpp:284-288 | with a backlog neither poll nor epoll waits |
| WaitTime.PastAndIdle | src/bfc/cv_reactor.hpp:92-107 | a deadline that has passed is not waited for; without a timer the cv reactor waits its idle timeout |
| BufferRuns.RefcountExact | src/bfc/shared_sized_buffer.hpp:51-146 | for any operations on any views, refs is the number of views, windows stay inside, each release runs exactly once and only after the last view |
| BufferRuns.NoLeak | src/bfc/shared_sized_buffer.hpp:89-92 | once every view is gone so is every storage |
| BufferRuns.OtherViewsUnchanged | src/bfc/shared_sized_buffer.hpp:203-255 | no operation changes the bytes, window or storage of another view |
| BufferRuns.CopyShows | src/bfc/shared_sized_buffer.hpp:51-68 | a copy has the source's storage, window and bytes, and the source keeps its own; self-assignment changes nothing |
| BufferRuns.MoveShows | src/bfc/shared_sized_buffer.hpp:70-87 | the target has what the source had and the source is empty; self-assignment changes nothing |
| BufferRuns.SubviewShows | src/bfc/shared_sized_buffer.hpp:244-255 | a subview shows its part of the view's bytes on the same storage, nothing when out of range |
| BufferRuns.AdoptShows | src/bfc/shared_sized_buffer.hpp:127-146 | an adopted block is shown up to the given size and released as asked; an unusable one is released at once |
| BufferRuns.AllocateShows | src/bfc/shared_sized_buffer.hpp:108-122 | a new view of size 0 with the given capacity, empty at capacity zero |
| BufferRuns.ClearShows | src/bfc/shared_sized_buffer.hpp:203-208 | a cleared view is empty and a destroyed one is gone, all others as they were |
| BufferRuns.ResizeKeepsPrefix | src/bfc/shared_sized_buffer.hpp:229-240 | the first min(old, new) bytes are kept; nothing happens on an offset view |
| BufferRuns.ReserveKeepsBytes | src/bfc/shared_sized_buffer.hpp:212-225 | the view's bytes are kept and the capacity suffices |
| BufferRuns.NestedSubview | src/bfc/shared_sized_buffer.hpp:244-255 | a subview of a subview is the subview at the summed offset if and only if there is no storage, both requests are in range, or the summed one is out of range |
| BufferRuns.NestedSubviewDiffers | src/bfc/shared_sized_buffer.hpp:247-250 | an outer request out of range, and an inner one beyond the outer, give an empty view where the summed one does not |
| BufferRuns.ReleaseKeeps | src/bfc/shared_sized_buffer.hpp:267-273 | dropping the counted reference restores the invariant and deletes exactly at the last one |
| BufferRuns.RetargetKeeps | src/bfc/shared_sized_buffer.hpp:51-68 | copying and assigning keep counts, windows and releases exact |
| BufferRuns.MoveKeeps | src/bfc/shared_sized_buffer.hpp:70-87 | so does moving |
| SharedBuffer.SharedBuffer.CopyAssign | src/bfc/shared_sized_buffer.hpp:58-68 | on the heap, the target gets storage, offset and size of the source; refines taking the new reference before dropping the old; self-assignment does nothing; no bytes are written |
| SharedBuffer.SharedBuffer.MoveAssign | src/bfc/shared_sized_buffer.hpp:77-87 | the target gets storage, offset and size of the source, which is left empty; refines handing the reference over |
| SharedBuffer.SharedBuffer.Destruct | src/bfc/shared_sized_buffer.hpp:89-92 | refines dropping the reference with the view |
| SharedBuffer.SharedBuffer.Clear | src/bfc/shared_sized_buffer.hpp:203-208 | refines dropping the reference and becoming empty |
| SharedBuffer.SharedBuffer.Reserve | src/bfc/shared_sized_buffer.hpp:212-225 | the capacity suffices, in the same storage if it did before and else in a new one; refines growing; the old array is not written |
| SharedBuffer.SharedBuffer.Resize | src/bfc/shared_sized_buffer.hpp:229-240 | sets the logical size, in the same storage exactly when it suffices; nothing on an offset view |
| SharedBuffer.SharedBuffer.Subview | src/bfc/shared_sized_buffer.hpp:244-255 | refines a window on the same storage, empty when out of range |
| SharedBuffer.CopyConstruct | src/bfc/shared_sized_buffer.hpp:51-56 | refines a new view with a reference of its own |
| SharedBuffer.MoveConstruct | src/bfc/shared_sized_buffer.hpp:70-75 | refines a new view with the reference of the old one |
| SharedBuffer.AllocateView | src/bfc/shared_sized_buffer.hpp:108-122 | refines a view of size 0 on new memory |
| SharedBuffer.AdoptView | src/bfc/shared_sized_buffer.hpp:127-146 | the view owns the block at offset 0 with the given size, or is empty with the block released at once |
| SharedBuffer.ReleaseRef | src/bfc/shared_sized_buffer.hpp:267-273 | the count goes down and the last reference deletes the storage |
| SharedBuffer.CopyOut | src/bfc/shared_sized_buffer.hpp:218-223 | the copied bytes come first, the new memory after them |

## Left out

- The epoll reactor's fd table: it has no generation check, so a stale event can reach a re-added fd; only its wake-up, pass order, removals and timeouts are modelled.
- Queues of the cv reactor: it re-examines a queue only after another wake, as its documentation says, so no claim is made about data its handlers leave behind.
- `reactive_event_queue` (an unbounded vector behind a mutex) and `event_queue`: easy members.
- Rebinding or unbinding a queue during a run, timers added from another thread during a wait, and `stop` before `run` has set its flag: the code promises no wake-up there.
- Errors of `poll` and `epoll_wait` other than EINTR, which leave `run` by an exception.
- Lifetimes behind `retire_cb` and callbacks overwritten while they run: callbacks are values here.
- Weaker memory orders than sequential consistency, including those of the buffer reference count, whose operations are modelled one at a time.
- Recursive or concurrent `schedule` calls: one thread at a time is in `schedule`.
- `execute` during or after the pool's destructor, and termination of the destructor.
- 64-bit overflow of times and counters.
- `copy_from` and the getters of the buffer, and writes through `data()`, which every view of the storage sees.
- Sockets, metrics, command and configuration parsing, memory pool, `function`, plain buffers and the registry: I/O, text processing or thin wrappers.
- WaitTime.EpollWaitsForTheGap: the recombination in `wait` is src/bfc/epoll_reactor.hpp:375-381, of which the system call is not modelled.
- PollTable.PollTable.Pass: the callbacks posted by other threads, the queue handlers and the timers appear only through the table operations they perform.
