# Verification of the FEP participant's buffers and protocols

A Dafny model of the parts of the FEP participant library in which time-ordered
buffers and small concurrent state machines have to work together, with proofs
of what they guarantee. `dafny verify dfyconfig.toml` checks the project.

## What is modelled

| module | component | form |
|---|---|---|
| `SampleBacklog`, `BacklogRuns`, `SlidingWindow`, `DataSampleBuffer` | the backlog of one signal (`cDataSampleBuffer`) | a class proved against functions on a backlog value; whole runs of arrivals, resizes, clearings, locks and unlocks |
| `DdbFrame`, `Ddb` | the frames and the triple buffer (`cDDBFrame`, `cDDB`) | classes proved against functions on frame and buffer values |
| `DdbProtocol`, `DdbProgress`, `DdbReception`, `DdbDelivery`, `DdbEndToEnd` | receive callback, worker, `ResetData` and readers of `cDDB` | a state machine over single lock, event and data steps; every interleaving |
| `SignalCounter` | numbering by the sender (`cSignalCounter`) | a class with 16-bit and 64-bit counters that wrap |
| `ListenerRegistry`, `ListenerProtocol`, `ListenerProgress` | the listener registry (`cListenerRegistry`) | a class for one thread with re-entrant callbacks; a state machine with two recursive locks and a call stack per thread |
| `BlockingQueue` | `cBlockingQueue` over `cLockedQueueAdaptor` | a state machine over single accesses, a class for the guarded queue |
| `StateCollector` | `cSystemStateCollector` | a class proved against a collector value, and runs of notifications |
| `StepDataAccess` | `cStepDataAccess` | a class whose inputs hold their backlogs, and runs of its calls |

A state machine has one action per access to shared data or to a lock. An
action that has to wait is not enabled, `Do` leaves the state alone then, and
`Run` applies any list of actions, so a lemma about `Run` is a statement about
every interleaving. Histories (`Log`, `History`) record what happened; no step
reads them.

Time stamps, handles and payloads are integers. A sample object is identified
by a number; the `memory` of a backlog maps it to its own time and content, so
"the slot time is the sample's own time" is a proved invariant and not a
definition. A wait on a condition variable is a list of wake-ups, each with the
backlog other threads left behind and whether the wake-up was a notification or
a timeout; a window check that is made later starts on the backlog other
threads left behind until then. Calls into other components (transmission
adapter, command access, string trimming, buffer lookup) are parameters.

## Main results

* **Backlog.** In every run a lock count is the number of locks that callers
  hold, an unlock succeeds exactly if the caller holds a lock (also after the
  backlog shrank), trimmed samples are kept only while they are locked
  (`BacklogRuns.LocksBalanceInEveryRun`), and a locked received sample keeps its
  content (`LockedSampleIsFrozen`). Nearest selection is the optimum of a full
  scan in every reachable backlog (`NearestIsMinimalInEveryRun`), and no slot is
  newer than the latest sample (`LatestIsNewestInEveryRun`). Without locks the
  slot-reusing multiset is a sliding window over the history
  (`SlidingWindow.BacklogHoldsLastArrivals`).
* **Distributed data buffer.** In every interleaving the frame a reader holds is
  frozen (`DdbProtocol.HeldFrameIsFrozen`), wakeups are exact
  (`WakeupsAreExact`), deliveries balance and what is read is the frame that was
  delivered last (`DeliveriesBalance`). The steps of the callback compose to the
  sequential callback (`CallbackRefinesReceive`), and in every interleaving what
  is stored is what the callback received (`DdbReception.StoredIsReceived`). There
  is no deadlock, and every schedule drains: the calls under way end and what was
  handed over is delivered or replaced (`DdbProgress.Drains`,
  `EveryScheduleDrains`).
* **End to end.** For every pattern of failed transmissions, every loss on the
  channel and every interleaving, the closings are the frames of the received
  series (`DdbEndToEnd.ClosingsAreFrames`), and the frame a reader gets shows
  exactly what arrived, with the exact conditions under which its mask and its
  completeness flag can be trusted (`FromSenderToReader`,
  `HandedFramesAreTruthful`, `HandedAreWholeFrames`), from a new buffer and from
  every reset on (`ResetStartsAnew`). A reader is given a frame exactly if the
  last delivered one shows a sample (`DdbProtocol.ReaderGetsFrameIff`,
  `ReaderGetsFrameExactly`), and what it shows is the data handed to `SendNow`.
  The numbering is gap-free if and only if the counters do not wrap
  (`SignalCounter.GapFreeIffFits`).
* **Listeners.** One notification calls every listener that stays registered
  exactly once and terminates; after a deregistration from outside the
  listener's callback no thread runs that callback or will start it
  (`ListenerProtocol.UnregisteredIsNeverCalled`). The registry can deadlock, in
  exactly one way (`ListenerProgress.DeadlockIff`).
* **Queue, collector, step.** No lost wakeup and no deadlock of the queue
  (`BlockingQueue.DequeueCanEnd`), exact cancellation counts, and items come back
  in the order they were pushed (`DequeueReturnsInOrder`); the collector shows what
  was reported last (`StateCollector.CollectsWhatIsReported`), and a wait for a
  target state succeeds exactly if the reported states reached it
  (`FinishedIffReached`); outputs are withheld exactly if a reason
  to skip occurred since the last publication, and an input that passes its check
  yields a fresh copy (`StepDataAccess.StepData.ValidateThenCopy`).

## Where code and documentation differ, and where a promise needs a condition

The model follows the code.

* `LockDataAt` with an unknown selection flag returns ERR_NOT_FOUND: the
  ERR_INVALID_ARG set at fep_data_sample_buffer.cpp:118 is overwritten at line
  130.
* A call of `WaitUntilInTimeWindow` that waits looks only at the newest sample,
  and only after a notification, while a call that does not wait scans the
  backlog. `DataSampleBuffer.WaitSeesSampleIff` says exactly when a waiting call
  sees a sample that is in the window at its return; `WaitMissesOlderSample` and
  `WaitMissesLateSample` are calls on a registered backlog that time out beside
  one.
* `Update` reuses an empty slot without looking at its lock count, so a caller
  that locked an empty slot (an upper bound below 0) can see it change:
  `BacklogRuns.ArrivalRewritesLockedIff`, `LockedEmptySlotIsOverwritten`.
* A backlog of more than one slot is a sliding window only while no arrival is
  older than the newest sample: `SlidingWindow.ArrivalPushesIff`,
  `OutOfOrderIsNoWindow`.
* `ClearAll` does not reset the time behind the validity flag:
  `BacklogRuns.ValidMeansReceived`.
* A frame whose samples all exceed the buffer is handed over with the mask of an
  older frame, or empty and "complete":
  `DdbEndToEnd.MaskIsExactIff` and `FlagIsExactIff` give the exact conditions,
  `OverrunLooksComplete` and `OverrunShowsOldSample` the runs. The conditions are
  about the cells of the write frame when the first sample of the frame comes.
* The frame size without a sync flag is the last position plus 2
  (fep_ddb_frame.cpp:138), so such a frame is never complete.
* `LockData` takes the shared lock also when it returns ERR_EMPTY; the reader
  protocol counts it, and `UnlockData` is due in both cases.
* A report of the state "unknown", which fep_state.cpp:64-80 accepts by name,
  breaks the response counter (`StateCollector.RecordExactIff`) and can end a
  query that nobody has answered (`UnknownReportsEndQuery`). A query that has
  ended has everybody's answer if and only if no such report was taken
  (`QueryEndsRightlyIff`).
* A deregistration made inside a callback of the same listener returns while
  that callback is still running: `ListenerProtocol.RemovalEndsUseIff`,
  `SelfRemovalReturnsInUse`.
* The registry's locks are recursive so that callbacks may call back into it
  (fep_observer_pattern.h:61). With a second thread that deadlocks: the callback
  holds the notification lock and waits for the list lock, while a deregistration
  or notification holds the list lock and waits for the notification lock.
  `ListenerProgress.DeadlockIff` says that this is the only way,
  `DeadlockIsReachable` gives a run, and `NoReentryNoDeadlock` and
  `OneThreadNoDeadlock` the conditions under which it cannot happen.
* Stepping back from the first slot (fep_data_sample_buffer.cpp:94 and 292) is
  read as "there is no predecessor", as the comparison with `end()` behind it
  intends. The loop at lines 81-84 never runs, because the search starts at a
  time from 0 on, and is not modelled.

## Model

| member | source | states |
|---|---|---|
| `SampleBacklog.RefusedIffAllLocked` | src/data_access/fep_data_sample_buffer.cpp:402-432 | a sample is refused exactly if every slot is a locked received sample, and then nothing changes |
| `SampleBacklog.ArrivalTakesOldestFree` | src/data_access/fep_data_sample_buffer.cpp:402-427 | an arrival takes the oldest free slot and its sample object, which gets the content, and goes behind all slots that are not newer; every other slot, object and the trimmed samples stay |
| `SampleBacklog.ShrinkDropsOldest` | src/data_access/fep_data_sample_buffer.cpp:371-381 | a smaller backlog keeps exactly the newest slots; of the dropped ones the locked are kept aside with their objects, the others are gone |
| `SampleBacklog.GrowAddsEmpty` | src/data_access/fep_data_sample_buffer.cpp:383-390 | a larger backlog keeps every slot and adds empty, unlocked ones with objects of their own |
| `SampleBacklog.NearestIsMinimal` | src/data_access/fep_data_sample_buffer.cpp:64-115 | the tree search returns a received sample of minimal distance to the clamped time, the newer one on a tie |
| `SampleBacklog.UpperBoundIsNewestBefore` | src/data_access/fep_data_sample_buffer.cpp:146-155 | the selected slot is the last one not after the bound; none is selected exactly if all are after it |
| `SampleBacklog.LockUnlockRoundTrip` | src/data_access/fep_data_sample_buffer.cpp:121-248 | unlocking the sample just handed out succeeds and restores the backlog exactly |
| `BacklogRuns.UnlockAccounted` | src/data_access/fep_data_sample_buffer.cpp:172-248 | an unlock succeeds exactly if the caller holds a lock, keeps the counts, and changes nothing when it fails |
| `BacklogRuns.UnlockResults` | src/data_access/fep_data_sample_buffer.cpp:195-245 | ERR_FAILED exactly for a backlog sample that is not locked, ERR_INVALID_ARG exactly for a sample of neither store |
| `BacklogRuns.StepAccounted` | src/data_access/fep_data_sample_buffer.cpp:45-435 | every call, ClearAll included, keeps each count equal to the locks held (ClearAll voids them all); unlock succeeds exactly for held samples |
| `BacklogRuns.RegisteredShape` | src/data_access/fep_data_access.cpp:236-262 | a new backlog is n-1 empty unlocked slots and the default sample at time 0 |
| `BacklogRuns.LocksBalanceInEveryRun` | src/data_access/fep_data_sample_buffer.cpp:121-435 | in every run of a registered signal: counts are the held locks, the deleted store holds held samples only, unlock succeeds exactly for held samples |
| `BacklogRuns.LockedSampleIsFrozen` | src/data_access/fep_data_sample_buffer.cpp:364-435 | a received sample keeps object, time and content in any run during which it is held |
| `BacklogRuns.ArrivalRewritesLockedIff` | src/data_access/fep_data_sample_buffer.cpp:402-427 | an arrival rewrites a locked sample exactly if it sits in an empty slot that is the first reusable one |
| `BacklogRuns.LockedEmptySlotIsOverwritten` | src/data_access/fep_data_sample_buffer.cpp:402-427 | a reachable locked sample that is overwritten |
| `BacklogRuns.RunLive` | src/data_access/fep_data_sample_buffer.cpp:45-435 | with arrival times from 0 on, the newest slot is a received sample or the default one in every run |
| `BacklogRuns.ValidMeansReceived` | src/data_access/fep_data_sample_buffer.cpp:126-420 | the validity flag says exactly whether a sample was stored since registration, across ClearAll too |
| `BacklogRuns.NearestIsMinimalInEveryRun` | src/data_access/fep_data_sample_buffer.cpp:64-115 | nearest selection is the full-scan optimum in every reachable backlog, after any arrivals, resizes, clearings, locks and unlocks |
| `BacklogRuns.LatestIsNewestInEveryRun` | src/data_access/fep_data_sample_buffer.cpp:56-63 | in every run, locking the latest sample hands out a received or default sample, and no slot is newer |
| `SlidingWindow.ResizeFits` | src/data_access/fep_data_sample_buffer.cpp:364-393 | a resize keeps the newest entries and fills up with empty ones in front |
| `SlidingWindow.BacklogRefinesWindow` | src/data_access/fep_data_sample_buffer.cpp:364-435 | every run on the slots is the run on the window |
| `SlidingWindow.BacklogHoldsLastArrivals` | src/data_access/fep_data_sample_buffer.cpp:395-435 | a backlog of size n holds exactly the last n entries of initial content plus arrivals |
| `SlidingWindow.LatestIsLastArrival` | src/data_access/fep_data_sample_buffer.cpp:56-63 | after time-ordered arrivals the latest sample is the one that arrived last, also among equal times |
| `SlidingWindow.ClearStartsAnew` | src/data_access/fep_data_access.cpp:703-769 | after ClearAll nothing is locked or kept aside, and the view is that of a registered signal |
| `SlidingWindow.ClearedHoldsLastArrivals` | src/data_access/fep_data_access.cpp:703-769 | from ClearAll on the backlog holds the last entries of default sample and later arrivals |
| `SlidingWindow.ArrivalPushesIff` | src/data_access/fep_data_sample_buffer.cpp:402-427 | an arrival pushes the window exactly if there is one slot only or it is not older than the newest sample |
| `SlidingWindow.OutOfOrderIsNoWindow` | src/data_access/fep_data_sample_buffer.cpp:402-427 | a backlog of two with arrivals 10 and 5 does not hold the last two of the history |
| `DataSampleBuffer.Buffer.Registered` | src/data_access/fep_data_access.cpp:236-262 | the filling loop builds the registered backlog |
| `DataSampleBuffer.Buffer.FindNearest` | src/data_access/fep_data_sample_buffer.cpp:64-115 | the branches compute the selection whose optimality is proved |
| `DataSampleBuffer.Buffer.LockDataAt` | src/data_access/fep_data_sample_buffer.cpp:45-134 | result, sample, validity flag and new backlog for each selection flag, known or not; no slot is newer than the latest sample, and the nearest is the full-scan optimum |
| `DataSampleBuffer.Buffer.LockDataAtUpperBound` | src/data_access/fep_data_sample_buffer.cpp:136-170 | result, sample, flag and new backlog |
| `DataSampleBuffer.Buffer.FindInRange` | src/data_access/fep_data_sample_buffer.cpp:179-193 | the scan of the equal range finds what a scan of all slots finds |
| `DataSampleBuffer.Buffer.UnlockData` | src/data_access/fep_data_sample_buffer.cpp:172-248 | result and new backlog, in both stores and in all error cases |
| `DataSampleBuffer.Buffer.GetMostRecent` | src/data_access/fep_data_sample_buffer.cpp:250-260 | the returned time is a slot's and no slot is newer |
| `DataSampleBuffer.Buffer.SignalBacklogChanged` | src/data_access/fep_data_sample_buffer.cpp:364-393 | both loops compute the resize |
| `DataSampleBuffer.Buffer.Clear` | src/data_access/fep_data_access.cpp:703-769 | all slots emptied and unlocked, the first one reused for the default sample, trimmed samples dropped |
| `DataSampleBuffer.Buffer.Update` | src/data_access/fep_data_sample_buffer.cpp:395-435 | the loop finds the first reusable slot; result and new backlog |
| `DataSampleBuffer.Buffer.WaitUntilInTimeWindow` | src/data_access/fep_data_sample_buffer.cpp:262-334 | success means a slot in the window at return; without waiting it is an exact test; the waiting part has the outcome of the wake-ups |
| `DataSampleBuffer.Buffer.WaitForNotification` | src/data_access/fep_data_sample_buffer.cpp:305-331 | the waiting loop ends with the first wake-up that decides, or times out |
| `DataSampleBuffer.WindowByUpperBound` | src/data_access/fep_data_sample_buffer.cpp:288-302 | the newest slot not after the end decides whether any slot is in the window |
| `DataSampleBuffer.SuccessMeansInWindow` | src/data_access/fep_data_sample_buffer.cpp:262-334 | whatever arrives during a call, success means a sample in the window at its return |
| `DataSampleBuffer.WaitEndsIff` | src/data_access/fep_data_sample_buffer.cpp:305-331 | a wait ends with the first wake-up at which the newest sample has reached the window or shutdown is requested; exactly when it succeeds, is cancelled, or times out |
| `DataSampleBuffer.WaitSeesSampleIff` | src/data_access/fep_data_sample_buffer.cpp:305-331 | a call that waits and leaves a sample in the window succeeds exactly if its last wake-up was a notification and the newest sample is not beyond the window |
| `DataSampleBuffer.WaitMissesOlderSample` | src/data_access/fep_data_sample_buffer.cpp:310-323 | a call on a registered backlog: two arrivals before the notified thread runs, and it times out beside a sample in the window |
| `DataSampleBuffer.WaitMissesLateSample` | src/data_access/fep_data_sample_buffer.cpp:308-330 | a call on a registered backlog: an arrival during the last time-out, and it times out beside a sample in the window |
| `DdbFrame.CompleteIffUnbroken` | src/distributed_data_buffer/fep_ddb_frame.cpp:71-80 | with a received cell, complete means positions 0..k are of the newest frame and k carries the sync flag |
| `DdbFrame.EmptyFrameIsComplete` | src/distributed_data_buffer/fep_ddb_frame.cpp:71-149 | a frame that never received a cell reports complete and shows nothing |
| `DdbFrame.BlankShowsNothing` | src/distributed_data_buffer/fep_ddb_frame.cpp:155-230 | new memory and an invalidated frame have blank cells and show nothing, before and after an analysis |
| `DdbFrame.StoringHides` | src/distributed_data_buffer/fep_ddb_frame.cpp:232-253 | a stored sample changes one cell only, and the frame shows nothing until it is analysed again |
| `DdbFrame.CountersMean` | src/distributed_data_buffer/fep_ddb_frame.cpp:118-149 | the count of a closed frame is the number of its valid positions, the size the last valid position plus 1 with the sync flag and plus 2 without |
| `DdbFrame.HasSizeIffShows` | src/distributed_data_buffer/fep_ddb_frame.cpp:105-153 | a closed frame has a size exactly if it shows a sample |
| `DdbFrame.DataFrame.InitMemory` | src/distributed_data_buffer/fep_ddb_frame.cpp:155-179 | new blank cells; counters as they were without old memory |
| `DdbFrame.DataFrame.DeleteMemory` | src/distributed_data_buffer/fep_ddb_frame.cpp:181-202 | no cells and no counts |
| `DdbFrame.DataFrame.SetSample` | src/distributed_data_buffer/fep_ddb_frame.cpp:232-253 | stores at the sample number, leaves a blank cell when the copy fails, or reports the overrun |
| `DdbFrame.DataFrame.FindFrameId` | src/distributed_data_buffer/fep_ddb_frame.cpp:107-116 | the largest frame id |
| `DdbFrame.DataFrame.MarkSamples` | src/distributed_data_buffer/fep_ddb_frame.cpp:122-141 | mask, count and size of that frame |
| `DdbFrame.DataFrame.AnalyseFrame` | src/distributed_data_buffer/fep_ddb_frame.cpp:105-153 | the analysed frame, for any content |
| `DdbFrame.DataFrame.InvalidateData` | src/distributed_data_buffer/fep_ddb_frame.cpp:204-230 | blank cells, mask and counts |
| `Ddb.DataBuffer.constructor` | src/distributed_data_buffer/fep_ddb.cpp:43-60 | three distinct frames without memory |
| `Ddb.DataBuffer.CreateEntry` | src/distributed_data_buffer/fep_ddb.cpp:76-113 | result and state, refused arguments included |
| `Ddb.DataBuffer.LockData` | src/distributed_data_buffer/fep_ddb.cpp:115-140 | the read frame exactly if it has memory, is analysed and has a size, complete or not, else ERR_EMPTY; a shared lock in both cases |
| `Ddb.DataBuffer.UnlockData` | src/distributed_data_buffer/fep_ddb.cpp:142-147 | gives one shared lock back |
| `Ddb.DataBuffer.SwitchWriteBuffer` | src/distributed_data_buffer/fep_ddb.cpp:331-370 | dump, or swap with notification only when the stock was empty; the three results; pointers stay a permutation |
| `Ddb.DataBuffer.SwitchReadBuffer` | src/distributed_data_buffer/fep_ddb.cpp:372-392 | swaps a full stock with success and reports an empty one; pointers stay a permutation |
| `Ddb.DataBuffer.ReceiveSample` | src/distributed_data_buffer/fep_ddb.cpp:168-205 | closes a missed frame, stores, closes on sync, remembers the stamps |
| `Ddb.DataBuffer.Update` | src/distributed_data_buffer/fep_ddb.cpp:149-214 | the whole callback including missing and refused samples; always ERR_NOERROR |
| `Ddb.DataBuffer.ResetData` | src/distributed_data_buffer/fep_ddb.cpp:262-282 | all frames blank, stamps as at the start, stock flag and strategy kept |
| `Ddb.ResetHidesAll` | src/distributed_data_buffer/fep_ddb.cpp:262-282 | after a reset no frame shows a sample, not even after an analysis, and no frame counts as left open |
| `DdbProtocol.HeldFrameIsFrozen` | src/distributed_data_buffer/fep_ddb.cpp:115-282 | in every interleaving the frame a reader got stays the read frame with the same content until it is given back; the pointers stay a permutation |
| `DdbProtocol.SharedFrameIsFrozen` | src/distributed_data_buffer/fep_ddb.cpp:242-281 | in every interleaving the read frame stays put with its content while anybody, a reader or the delivering worker, holds the lock shared |
| `DdbProtocol.WakeupsAreExact` | src/distributed_data_buffer/fep_ddb.cpp:216-392 | in every interleaving: full stock exactly with one outstanding wakeup, never two permits, the worker never finds the stock empty |
| `DdbProtocol.DeliveryTakesNewest` | src/distributed_data_buffer/fep_ddb.cpp:216-236 | in every run without reset, the frame that becomes the read frame is the newest one handed over, and the stock gets the old read frame |
| `DdbProtocol.DeliveriesBalance` | src/distributed_data_buffer/fep_ddb.cpp:216-392 | in every interleaving: deliveries in order, none twice, handed over = delivered + replaced + in stock; without reset the read frame is the last delivered one, or blank |
| `DdbProtocol.EveryDeliveryIsAnnounced` | src/distributed_data_buffer/fep_ddb.cpp:216-258 | in every run without reset the sync listeners are called with every delivered frame, once each and in order, up to the one being announced |
| `DdbProtocol.ReaderGetsFrameIff` | src/distributed_data_buffer/fep_ddb.cpp:115-140 | in every run without reset a reader is given the read frame exactly if the last delivered frame shows a sample, complete or not |
| `DdbProtocol.ReaderSeesLastDelivered` | src/distributed_data_buffer/fep_ddb.cpp:115-258 | in every run without reset, from a new buffer or from a reset on, a frame that LockData gave is the last delivered one, and there is one |
| `DdbProtocol.NothingBeforeFirstDelivery` | src/distributed_data_buffer/fep_ddb.cpp:124-137 | before the first delivery, from a new buffer or from a reset on, LockData has no frame |
| `DdbProtocol.CallbackRefinesReceive` | src/distributed_data_buffer/fep_ddb.cpp:149-214 | the steps of one callback, run without interference, are the sequential callback |
| `DdbReception.StoredIsReceived` | src/distributed_data_buffer/fep_ddb.cpp:149-205 | in every interleaving the stored samples, followed by the one on its way, are exactly those the callback received |
| `DdbProgress.SomebodyContinues` | src/distributed_data_buffer/fep_ddb.cpp:115-282 | no deadlock of callback, worker, ResetData and readers: unless all are at rest and no wakeup is pending, one of them can take its next step |
| `DdbProgress.ResetRefines` | src/distributed_data_buffer/fep_ddb.cpp:262-282 | the steps of ResetData, run without interference, reset the buffer, give every lock back and change nothing else |
| `DdbProgress.ReaderRefines` | src/distributed_data_buffer/fep_ddb.cpp:115-147 | LockData and UnlockData, run without interference, give what the read frame has and leave the buffer as it was |
| `DdbProgress.EveryScheduleDrains` | src/distributed_data_buffer/fep_ddb.cpp:115-282 | whatever the schedule, only boundedly many steps follow without a new sample, reset or reader, and while it is not quiet there is one |
| `DdbProgress.Drains` | src/distributed_data_buffer/fep_ddb.cpp:149-282 | from every reachable state the calls under way end, and every frame handed over is then delivered or was replaced by a later one |
| `DdbDelivery.RunDelivery` | src/distributed_data_buffer/fep_ddb.cpp:149-392 | in every run without reset over a stream: closed groups are frames in order, cells mirror the pending samples or are untouched, handed-over frames are exactly the closed ones that pass |
| `DdbDelivery.ChosenIff` | src/distributed_data_buffer/fep_ddb.cpp:331-343 | a closed frame is handed over exactly if the strategy lets it pass |
| `DdbEndToEnd.SplitIsUnique` | src/distributed_data_buffer/fep_ddb.cpp:170-205 | ascending groups are the split of their samples by frame id |
| `DdbEndToEnd.ClosingsAreFrames` | src/distributed_data_buffer/fep_ddb.cpp:168-205 | in every interleaving the closings are the frames of the series the callback received: each once, in order, with all its received samples; only the latest may be open |
| `DdbEndToEnd.MaskIsExactIff` | src/distributed_data_buffer/fep_ddb_frame.cpp:105-153 | the mask of a closed frame is exact exactly if a sample fits, or the write frame held no sample when the frame began |
| `DdbEndToEnd.CompleteIffNothingLost` | src/distributed_data_buffer/fep_ddb_frame.cpp:71-80 | complete exactly if every sample sent for the frame arrived and fits |
| `DdbEndToEnd.FlagIsExactIff` | src/distributed_data_buffer/fep_ddb_frame.cpp:71-153 | the completeness flag is right exactly if a sample of the frame fits, or the cells at the beginning of the frame show an incomplete one |
| `DdbEndToEnd.HandedFramesAreTruthful` | src/distributed_data_buffer/fep_ddb.cpp:149-370 | in every interleaving each handed-over frame is one whole received frame, with its content, and with the exact conditions under which mask and flag are right |
| `DdbEndToEnd.HandedAreWholeFrames` | src/distributed_data_buffer/fep_ddb.cpp:335-343 | which closed frames are handed over: all, or with DumpIncomplete those whose count is their size, and if a sample fits exactly the wholly received ones |
| `DdbEndToEnd.ReaderGetsFrameExactly` | src/distributed_data_buffer/fep_ddb.cpp:115-140 | for a gap-free sender with any losses: a reader is given a frame exactly if one was delivered and of the last one a sample fits, or the write frame held a sample when it began |
| `DdbEndToEnd.FromSenderToReader` | src/data_access/fep_signal_counter.cpp:99-139 | from a new buffer or from a reset on, for every series of calls whose numbers do not wrap, every failure, loss and interleaving: a reader's frame is the last delivered one and truthful, and if a sample of it fits, its valid positions show the data of the calls |
| `DdbEndToEnd.ResetStartsAnew` | src/distributed_data_buffer/fep_ddb.cpp:262-282 | after every reset, whatever happened before, the end-to-end theorems hold anew for what follows, which differs from the whole run in its history only |
| `DdbEndToEnd.OverrunLooksComplete` | src/distributed_data_buffer/fep_ddb.cpp:180-200 | an overrun that hands over an empty frame reported complete |
| `DdbEndToEnd.OverrunShowsOldSample` | src/distributed_data_buffer/fep_ddb.cpp:180-200 | a run of three frames after which the handed-over frame shows the sample of the first one as valid and complete |
| `SignalCounter.FailuresAreInvisible` | src/data_access/fep_signal_counter.cpp:113-136 | the wire carries the numbers of the successful calls alone |
| `SignalCounter.SentCarries` | src/data_access/fep_signal_counter.cpp:108-139 | one sample on the wire for each successful call, in order, with the internal handle and the data and sync flag of that call |
| `SignalCounter.GapFreeIffFits` | src/data_access/fep_signal_counter.cpp:99-139 | for every pattern of failures: gap-free exactly if sample numbers fit 16 bits and frame ids 64 bits |
| `SignalCounter.ReceptionIsStream` | src/data_access/fep_signal_counter.cpp:120-131 | what remains true of the numbering under losses |
| `SignalCounter.EarlierNumbersSent` | src/data_access/fep_signal_counter.cpp:120-131 | every smaller number of a frame was sent |
| `SignalCounter.StampIsUnique` | src/data_access/fep_signal_counter.cpp:120-131 | no stamp is used twice |
| `SignalCounter.SignalCounter.Create` | src/data_access/fep_signal_counter.cpp:62-85 | refused references, a failed registration, or counting from frame 1 and sample 0 |
| `SignalCounter.SignalCounter.ConfigureSampleCounter` | src/data_access/fep_signal_counter.cpp:99-106 | the counters start at frame 1, sample 0 |
| `SignalCounter.SignalCounter.SendNow` | src/data_access/fep_signal_counter.cpp:108-139 | the stamps, the internal handle and the caller's data and sync flag on the wire, the new counters, and that the caller's handle is restored |
| `ListenerRegistry.RemoveFirstCounts` | src/_common/fep_observer_pattern.h:127-133 | one registration goes, and only of that listener |
| `ListenerRegistry.FirstUnfinishedAt` | src/_common/fep_observer_pattern.h:171-198 | the pick is the first unfinished listener in the order of registration; no pick means all are finished |
| `ListenerRegistry.FirstFailureAt` | src/_common/fep_observer_pattern.h:223-230 | the result is that of the first failing callback in call order |
| `ListenerRegistry.CalledAtMostOnce` | src/_common/fep_observer_pattern.h:213-243 | no listener is called twice, each is registered when picked |
| `ListenerRegistry.RegisteredAreCalled` | src/_common/fep_observer_pattern.h:213-243 | every listener registered at the end was called exactly once |
| `ListenerRegistry.NotificationIsDetermined` | src/_common/fep_observer_pattern.h:213-243 | the call sequence is determined by registry and reactions |
| `ListenerRegistry.Registry.RegisterListener` | src/_common/fep_observer_pattern.h:90-101 | appends, refuses a null pointer |
| `ListenerRegistry.Registry.UnregisterListener` | src/_common/fep_observer_pattern.h:116-136 | removes the first registration; both error cases |
| `ListenerRegistry.Registry.UnregisterAllListeners` | src/_common/fep_observer_pattern.h:146-154 | removes all |
| `ListenerRegistry.Registry.FindNext` | src/_common/fep_observer_pattern.h:171-198 | the nested loops pick the first unfinished listener and mark it |
| `ListenerRegistry.Registry.NotifyListener` | src/_common/fep_observer_pattern.h:213-243 | a complete notification under re-entrant changes, first failure, termination |
| `ListenerProtocol.CallbacksExclude` | src/_common/fep_observer_pattern.h:195-232 | callbacks of different threads exclude each other |
| `ListenerProtocol.RemovalEndsUseIff` | src/_common/fep_observer_pattern.h:116-136 | after removing the last registration the listener is out of use exactly if the caller is not inside its callback |
| `ListenerProtocol.SelfRemovalReturnsInUse` | src/_common/fep_observer_pattern.h:116-243 | a run in which a listener removes itself in its own callback and is in use at the return |
| `ListenerProtocol.GoneStaysGone` | src/_common/fep_observer_pattern.h:116-243 | a listener out of use stays so until it is registered again |
| `ListenerProtocol.UnregisteredIsNeverCalled` | src/_common/fep_observer_pattern.h:116-243 | after a deregistration of one or all listeners, made from outside that listener's callback, no thread runs or starts the callback |
| `ListenerProtocol.EachCalledAtMostOnce` | src/_common/fep_observer_pattern.h:171-243 | in every interleaving a notification picks no listener twice and calls the one it picked, however deeply nested |
| `ListenerProtocol.EndsWhenAllPicked` | src/_common/fep_observer_pattern.h:171-243 | in every interleaving a notification calls the listener it picked last, and ends only when it has picked every listener registered at that moment |
| `ListenerProtocol.RegistrationsAreCounted` | src/_common/fep_observer_pattern.h:90-154 | in every interleaving a listener is registered as often as the calls say: one more per registration, one less per deregistration, none after a deregistration of all |
| `ListenerProgress.DeadlockIff` | src/_common/fep_observer_pattern.h:90-243 | in every interleaving: no thread can go on exactly if a thread inside a callback waits for the list lock while its holder waits for that callback |
| `ListenerProgress.DeadlockStays` | src/_common/fep_observer_pattern.h:90-243 | such a deadlock is for ever |
| `ListenerProgress.DeadlockIsReachable` | src/_common/fep_observer_pattern.h:90-243 | a run from the start that ends in it: a callback registers a listener while another thread deregisters one |
| `ListenerProgress.NoReentryNoDeadlock` | src/_common/fep_observer_pattern.h:90-243 | no deadlock, for any number of threads, while callbacks stay out of the registry |
| `ListenerProgress.OneThreadNoDeadlock` | src/_common/fep_observer_pattern.h:90-243 | no deadlock with a single thread, however deeply its callbacks call back |
| `BlockingQueue.BlockedConsumerIsWoken` | src/_common/fep_blocking_queue.h:67-132 | a blocked consumer with work or a cancellation has a permit, or one is on its way |
| `BlockingQueue.DequeueCanEnd` | src/_common/fep_blocking_queue.h:67-132 | no deadlock: from every reachable state with an item or a cancellation, the call of the consumer ends without a new call, with one item or one cancellation |
| `BlockingQueue.WakesAreNotified` | src/_common/fep_blocking_queue.h:67-132 | every return from the wait uses up one notification; none is lost with a counting event, and at most one is kept by a binary one |
| `BlockingQueue.CancellationsBalance` | src/_common/fep_blocking_queue.h:85-132 | ERR_CANCELLED results are the raises of the flag, less one that is still set |
| `BlockingQueue.ItemsLeaveInOrder` | src/_common/fep_blocking_queue.h:67-151 | what Dequeue and Clear removed is a prefix of the push order |
| `BlockingQueue.RemovalTakesFirst` | src/_common/fep_locked_queue.h:63-75 | a removal takes the oldest item and leaves the others, and Dequeue holds that item |
| `BlockingQueue.DequeueReturnsInOrder` | src/_common/fep_blocking_queue.h:85-114 | what Dequeue returned and holds is what left through it, in order, and without Clear a prefix of the push order |
| `BlockingQueue.CancelledCallTakesNothing` | src/_common/fep_blocking_queue.h:87-94 | a call that finds the flag set reports the cancellation once, resets the flag and takes nothing |
| `BlockingQueue.SizeIsExactUpToPending` | src/_common/fep_blocking_queue.h:67-160 | the size law in every interleaving |
| `BlockingQueue.LockedQueue.Enqueue` | src/_common/fep_locked_queue.h:52-57 | appends |
| `BlockingQueue.LockedQueue.TryDequeue` | src/_common/fep_locked_queue.h:63-75 | takes the first item or reports emptiness |
| `BlockingQueue.Clear` | src/_common/fep_blocking_queue.h:137-151 | empties the queue and keeps the difference of size and length |
| `StateCollector.AggregateIsUnique` | include/automation_interface/fep_automation.h:1642-1646 | the documented aggregate is unique |
| `StateCollector.AggregateOrder` | include/automation_interface/fep_automation.h:1642-1646 | each state is the aggregate exactly if somebody has it and nobody has one before it in the documented order |
| `StateCollector.RecordExactIff` | src/automation_interface/fep_ai_state_aggregator.cpp:44-53 | a report keeps the counter equal to the known entries exactly if it reports a known state |
| `StateCollector.CounterAndEventAgree` | src/automation_interface/fep_ai_state_aggregator.cpp:44-264 | over any notifications: exact counter; in query mode one event exactly if all have answered |
| `StateCollector.QueryIsFrozenAfterFinish` | src/automation_interface/fep_ai_state_aggregator.cpp:222-264 | in query mode nothing changes after the event |
| `StateCollector.CollectsWhatIsReported` | src/automation_interface/fep_ai_state_aggregator.cpp:44-264 | over any notifications, in both modes: the entry of each participant is the state it reported last in a note that counts, and the counter is the number of first answers |
| `StateCollector.PropertyCountsIff` | src/automation_interface/fep_ai_state_aggregator.cpp:222-264 | with known states only, a property counts exactly until everybody has answered |
| `StateCollector.FinishedIffReached` | src/automation_interface/fep_ai_state_aggregator.cpp:44-66 | in wait mode, over any notifications of known states, the event is raised exactly if the states reported so far reach the target at some point |
| `StateCollector.QueryFinishesOnce` | src/automation_interface/fep_ai_state_aggregator.cpp:44-66 | in query mode, whatever is reported, the event is raised once, when as many responses were counted as participants asked |
| `StateCollector.QueryEndsRightlyIff` | src/automation_interface/fep_ai_state_aggregator.cpp:44-66 | in query mode, whatever is reported: the counter is too high by the unknown reports taken; an ended query has everybody's answer exactly if there was none; an open one lacks an answer |
| `StateCollector.UnknownReportsEndQuery` | src/automation_interface/fep_ai_state_aggregator.cpp:46-64 | two reports of the unknown state by one of two participants end a query that nobody has answered |
| `StateCollector.SystemStateCollector.Init` | src/automation_interface/fep_ai_state_aggregator.cpp:84-119 | the distinct trimmed names, all unknown, or an empty map and the error |
| `StateCollector.SystemStateCollector.SendStateRequests` | src/automation_interface/fep_ai_state_aggregator.cpp:121-141 | success exactly if registration and every request succeed; otherwise the requests end with the first that fails, and its result is returned |
| `StateCollector.SystemStateCollector.GetAggregatedState` | src/automation_interface/fep_ai_state_aggregator.cpp:180-213 | the table lookup yields the documented aggregate |
| `StateCollector.SystemStateCollector.OnStateReceived` | src/automation_interface/fep_ai_state_aggregator.cpp:44-66 | entry, counter and event of one report |
| `StateCollector.SystemStateCollector.Update` | src/automation_interface/fep_ai_state_aggregator.cpp:222-264 | which notifications count, for both kinds; an unreadable state name is a shutdown |
| `StateCollector.SystemStateCollector.WaitForEvent` | src/automation_interface/fep_ai_state_aggregator.cpp:143-162 | success exactly if the event was raised; the collector stops listening in both cases |
| `StateCollector.SystemStateCollector.AskForStates` | src/automation_interface/fep_ai_state_aggregator.cpp:164-178 | each participant is shown with the state it reported last; wait mode, known reports: success is exactly the reported states reaching the target; query mode, any reports: success is exactly as many first answers as participants, then everybody has answered exactly if no unknown report was taken, and a timeout means one has not answered |
| `StepDataAccess.CheckedFrom` | src/data_access/fep_step_data_access.cpp:191-213 | validation stops behind the first input that stops it, and only there |
| `StepDataAccess.InsertKeepsStrictestFirst` | src/data_access/fep_step_data_access.cpp:150-154 | inputs stay ordered by strictness |
| `StepDataAccess.InsertGoesBehindEquals` | src/data_access/fep_step_data_access.cpp:150-154 | a new input goes behind those as strict or stricter and before the milder ones |
| `StepDataAccess.StrictestFirstMeans` | src/data_access/fep_step_data_access.cpp:191-213 | inputs that set the error state are checked first, then those that skip the outputs, then those that warn |
| `StepDataAccess.SkipFlagMeansDue` | src/data_access/fep_step_data_access.cpp:114-273 | over any calls the skip flag says exactly whether a reason to skip, judged with the inputs configured then, occurred since the last publication |
| `StepDataAccess.OutputsCarryLastData` | src/data_access/fep_step_data_access.cpp:114-128 | over any calls each output carries the data handed in last for its signal |
| `StepDataAccess.SentFrom` | src/data_access/fep_step_data_access.cpp:260-268 | outputs are sent up to the first that fails |
| `StepDataAccess.PublishesUnlessSkipDue` | src/data_access/fep_step_data_access.cpp:255-273 | after any calls: nothing is sent exactly if skipping is due; else the outputs in order up to the first that fails, with the data handed in last and validated time + cycle |
| `StepDataAccess.FreshIffInWindow` | src/data_access/fep_step_data_access.cpp:64-69 | the copied sample is recent enough exactly if the backlog passes the window test |
| `StepDataAccess.PassedIsFresh` | src/data_access/fep_step_data_access.cpp:191-213 | a check that passed left a sample behind that is within the valid age and not beyond the delay |
| `StepDataAccess.DecidedAtOnceIff` | src/data_access/fep_step_data_access.cpp:191-213 | when the newest sample has reached the window before the check, it does not wait, and passes exactly if a sample lies in the window |
| `StepDataAccess.StepData.ConfigureInput` | src/data_access/fep_step_data_access.cpp:130-156 | refused configurations, and where an accepted input is placed |
| `StepDataAccess.StepData.ValidateInputs` | src/data_access/fep_step_data_access.cpp:184-217 | the waits on the backlogs in order: skip flag, error event, early stop only on shutdown or the error strategy, and each backlog as its last check left it |
| `StepDataAccess.StepData.TransmitData` | src/data_access/fep_step_data_access.cpp:114-128 | configured outputs are kept for publication unless the copy fails, others are stamped and sent |
| `StepDataAccess.StepData.TransmitAllOutputs` | src/data_access/fep_step_data_access.cpp:255-273 | what is published, that the flag is cleared, and the result |
| `StepDataAccess.StepData.CopyDataBefore` | src/data_access/fep_step_data_access.cpp:89-112 | copies the newest sample not after the bound and leaves the backlog with all lock counts as it was |
| `StepDataAccess.StepData.CopyRecentData` | src/data_access/fep_step_data_access.cpp:64-87 | time, content, handle and result of the copy, the backlog as before; for every age: it is that recent exactly if the window test without delay passes |
| `StepDataAccess.StepData.ValidateThenCopy` | src/data_access/fep_step_data_access.cpp:64-217 | an input without delay that passed in ValidateInputs: the following copy is within the valid age and not in the future, the backlog with all lock counts stays |

## Left out

- DataSampleBuffer.Buffer.WaitUntilInTimeWindow: has no clock; a wait is a list of wake-ups, and running out of them is the deadline.
- DataSampleBuffer.Buffer.WaitForNotification: the same.
- DataSampleBuffer.Buffer.LockDataAt: the known flags need a backlog of at least one slot, as the comment at its line 58 says is guaranteed; on an empty one the code has no defined behaviour.
- DataSampleBuffer.Buffer.Clear: the incidents about samples that are still locked are not modelled; in the runs the locks count as given up.
- `UnlockData` asks the sample object for its time; for an object that is not the backlog's own that time is a parameter.
- StepDataAccess.StepData.ValidateInputs: the deadline that the waits of all inputs share is not modelled.
- StepDataAccess.StepData.ValidateThenCopy: composes two calls of a step; it speaks of inputs whose backlog is afterwards as their own check left it.
- `ConfigureOutput`, `Clear` and the samples they own: the outputs are a list of handles with their data.
- Ddb.DataBuffer.CreateEntry: only the first configuration of an object; shutdown, `DeleteMemory` of a running buffer and re-creation are not modelled.
- Ddb.DataBuffer.Update: the incidents it raises are not modelled; in the protocol a missing sample is no callback at all.
- DdbFrame.DataFrame.SetSample: a failing copy is modelled here only; the receive callback copies successfully, as the one implementation of `CopyTo` does.
- The list of sync listeners of `cDDB` and its guard: the worker's delivery is one phase under the shared lock.
- DdbDelivery.RunDelivery: holds up to the next `ResetData`, and `DdbEndToEnd.ResetStartsAnew` starts it again there; mutual exclusion, freezing, wakeups, the ledger and reception are proved across resets.
- Several callback threads and several resetting threads: each holds its guard throughout, so one of each represents them.
- SignalCounter.SignalCounter.Create: the handle that an adapter may leave behind with a failing registration is not modelled.
- 64-bit overflow of time stamps, and wrap-around of the 32-bit queue size.
- DdbProgress.Drains: the calls that a sync listener makes inside its callback are not modelled, so nothing is said about a listener that waits for the buffer itself.
- ListenerRegistry.Registry.NotifyListener: requires that only listeners of some finite set are ever registered; without that the loop of the source does not end.
- `UnregisterAllListeners` in the protocol is a deregistration without a target; callbacks with an argument behave like those without.
- The destructors of queue, registry, buffers and collector.
- StateCollector.SystemStateCollector.GetAggregatedState: requires known states only; for an unknown one the code reads behind the end of its table.
- StateCollector.SystemStateCollector.OnStateReceived: in wait mode known states only, for the same reason.
- StateCollector.SystemStateCollector.WaitForEvent: in wait mode notifications of known states only, for the same reason.
- StateCollector.SystemStateCollector.AskForStates: in wait mode notifications of known states only; one request per collector, as the automation interface makes it.
- StateCollector.SystemStateCollector.Update: in wait mode known states only; it also accepts notifications after the event, as a callback under way may, because the removal of the listener is recorded in a flag only.
- Automation interface, network addresses, command line, JSON lists and time stamps of the operating system: forwarding, platform calls or library behaviour.
