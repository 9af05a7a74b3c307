# Verified models of the fiber server framework

This project models the parts of the framework whose correctness is hardest to see by reading, and
proves what they are meant to guarantee. `dafny verify dfyconfig.toml` checks all of it.

| files | what they model |
|---|---|
| `EventTable`, `EventTableInv`, `IOManager` | the fd table of the I/O manager: first as a value with its invariant, then as the class that updates contexts, counter and kernel interest in place, each method proved equal to the value operation |
| `Protocol`, `ProtocolInv`, `ProtocolSteps`, `ProtocolHistory`, `ProtocolFired`, `ProtocolQueue`, `ProtocolFrames`, `ProtocolTheorems`, `ProtocolDelivery`, `ProtocolOutcome`, `ProtocolWitness` | workers, task queue, fibers, `do_io` and its timeout callback as one step system; an invariant kept by every step; theorems over every run of every length and any number of workers; four concrete runs that reach surprising states |
| `TimerSpec`, `Timers`, `TimerRuns` | timers as a plain bag; the manager's ordered set of mutable objects proved against it; runs of the bag |
| `Bytes`, `ByteArray` | the block list with a cached cursor node as one flat string with a cursor, and its scatter/gather views |
| `Wire`, `Codec` | byte images of typed values and their readers and writers over the block list |
| `Stream`, `HttpBody` | transfers of an exact length and bodies with a content length over a network that cuts them anywhere |
| `SizeLine`, `HttpChunks` | the generated parser's automaton for chunk size lines, and chunked bodies assembled by a parser that starts afresh at every call |
| `Url`, `Query` | percent encoding and query parsing |

## How the model relates to the code

* One step of `Protocol` is one section under a lock or one update of a shared variable. The environment
  (which worker moves, what the kernel reports, whether `epoll_ctl` succeeds, when a call would block,
  which clock reading the expiry scan took) chooses freely; every theorem quantifies over all choices but
  one: `schedule(fiber)` is only called for a fiber that nothing else will resume. Without that the theorems
  are false (`ScheduledTwiceRunsTwice`).
* The history of registrations (`made`, `fired`, `dropped`), the fate of tasks, `Home` of a fiber and the
  log of calls exist to state theorems; no guard reads them, except that a fiber's owner says which
  references to it exist.
* Sockets are a string still to come and a plan of answers, one per call: any plan is allowed.
* A crash of the original (failed assert, null node) is an outcome of the model (`Abort`, `NullNode`,
  `Crash`), never excluded by a precondition.
* 64-bit wrap-around is explicit in timers, in the positional read and in ZigZag; fixed-width reads and
  writes are modelled on bit patterns of any width.

## Where the code departs from what it promises

* A timeout callback tests and sets its flag and then calls `cancelEvent`. Between the two its call can
  fail in `addEvent`, return, and a later call can register the same event: the callback then cancels the
  later call's registration (`LeftoverCancelsLaterCall`). `TimeoutRemovesExactly` says exactly when it
  removes something and that what it removes is a stranger's exactly when its call is no longer parked.
  With both halves in one step the callback of a returned call touches nothing, but the callback of a
  call that has not registered yet can still remove a stranger's registration
  (`OneStepTimeoutRemovesExactly`, `OneStepTimeoutHitsStranger`).
* A call that was flagged can still return what was transferred, exactly when the flag reached it while it was
  back at its try: the callback of an earlier round's timer, already handed out when that timer was
  cancelled (`FlaggedTransfersExactly`).
* A fiber that yielded READY is not counted between the decrement and the requeue, so `stopping()` can
  hold while it exists (`StoppingWithReadyFiber`, `StoppingForgetsOnlyUncounted`).
* A stale readiness report that mixes live and dead events trips an assert; every other report does not
  (`DispatchKeepsInv`, `BatchAbortsExactly`, `AssertsFireExactly`).
* Reading zero bytes at full capacity follows a null node, so a list of values that ends in an empty
  string cannot be read back when it fills its last block exactly (`RoundTrip` of `Codec`).
* The positional read starts at the cursor's block (`ReadStartHits`, `ReadAtMisses`).
* The byte-order field is one signed byte and never equals the host's constant, so fixed-width values are
  always swapped whatever was set (`AlwaysSwaps`).
* The comment above the URL encoder lists the unreserved bytes without `=`, the table has it; the model
  follows the table.
* Wake-ups can be lost, in exactly two ways: a refresh or the re-insertion of a due recurring timer lands
  before the reported deadline and notifies nobody (`StaysAwakeExactly`). Both need a sum beyond 2^64 or
  an expiry scan that takes its reading for a clock set back, as it does for any older reading in the
  first hour after time zero (`CalmNeverLoses`, `WrapLosesWakeUp`, `EarlyRolloverLosesWakeUp`).
* The response parser is re-initialised (src/http/http_parser.cc:283-293) for every call that parses a
  chunk's size line, and what a call without a verdict has eaten is gone. A plain size line comes out right
  exactly when the last feed of it begins among its digits, behind zeros only (`PlainLineExactly`): cut
  behind another digit it gives another size and the loop goes on with that (`DigitCutIsMisread`), cut at or
  inside its line end it ends the connection (`LineEndCutIsLost`). Contents may be cut anywhere.
* Scheduling a fiber that is queued already lets two workers execute it at once: both take an entry before
  either has marked it EXEC (`ScheduledTwiceRunsTwice`).
* Resizing the context table to less than it has forgets contexts; it is harmless exactly when they hold
  no live event (`ResizeKeepsInv`).

## Model

| member | source | states |
|---|---|---|
| EventTableInv.AddEventKeepsInv | src/iomanager.cc:442-500 | addEvent grows the table by half of fd iff fd is beyond it, succeeds iff the event is not live and the kernel agrees, aborts iff it is live, fills exactly one slot, and keeps: slot empty iff bit clear, kernel interest equal to the mask (so every epoll_ctl is legal), counter equal to the number of bits |
| EventTableInv.DelEventKeepsInv | src/iomanager.cc:106-142 | succeeds iff the event is live and the kernel agrees; then exactly that slot is discarded and nothing is scheduled |
| EventTableInv.CancelEventKeepsInv | src/iomanager.cc:144-178 | like delEvent, but the slot's registration is consumed by scheduling it once |
| EventTableInv.CancelAllKeepsInv | src/iomanager.cc:180-223 | succeeds iff some event is live and the kernel agrees; then exactly the live events' slots are emptied and their registrations scheduled, READ first; the closing assert cannot fire |
| EventTableInv.DispatchKeepsInv | src/iomanager.cc:358-405 | an error or hang-up wakes every live event of the fd, any other report exactly the live events it names: their slots empty and their registrations are scheduled, READ first; an assert fires iff something would wake and the report names a dead event; else nothing changes |
| EventTableInv.TriggerKeepsCore | src/iomanager.cc:416-437 | the registration in the slot, and no other, becomes the next one fired; its slot is empty and every other slot as before; no other history changes |
| EventTableInv.ConsumedExactlyOnce | src/iomanager.cc:106-223 | in a consistent table every registration is still in its slot, fired once, or dropped once, and never two of these |
| EventTableInv.ResizeKeepsInv | src/iomanager.cc:92-104 | a resize, up or down, keeps the table consistent iff no forgotten context has a live event, and then every slot is as before |
| IOManager.BatchAbortsExactly | src/iomanager.cc:358-405 | a whole epoll_wait batch trips no assert iff each report, when it is handled, wakes nothing or names only live events |
| IOManager.DistinctBatchAborts | src/iomanager.cc:358-405 | when each fd is named once, a batch trips an assert iff some report mixes live and dead events of the table before the batch |
| IOManager.DistinctBatchWakes | src/iomanager.cc:358-405 | when each fd is named once and no report is mixed, a batch empties exactly the slots of the live events its reports are about, all live ones of the fd for an error |
| IOManager.Manager.ContextResize | src/iomanager.cc:92-104 | the in-place resize equals the value operation: kept contexts stay the same objects, new ones are empty, a smaller size forgets the rest |
| IOManager.Manager.AddEvent | src/iomanager.cc:442-500 | the in-place update equals the value operation; nothing is scheduled; the table stays consistent |
| IOManager.Manager.DelEvent | src/iomanager.cc:106-142 | the in-place update equals the value operation; nothing is scheduled |
| IOManager.Manager.CancelEvent | src/iomanager.cc:144-178 | the in-place update equals the value operation, and the task list stays the work of the fired registrations in order |
| IOManager.Manager.CancelAll | src/iomanager.cc:180-223 | the in-place update equals the value operation and never aborts |
| IOManager.Manager.TriggerEvent | src/iomanager.cc:416-437 | the slot's content is appended to the tasks and the slot is empty |
| IOManager.Manager.DispatchAll | src/iomanager.cc:358-405 | the loop over a batch equals the fold of single dispatches and stops where an assert fires |
| ProtocolSteps.StepKeepsInv | src/scheduler.cc:157-282 | every step of workers, fibers, do_io, timeouts and the idle loop that trips no assert and schedules no fiber with a resume keeps the protocol invariant |
| ProtocolTheorems.ReachableInv | src/scheduler.cc:157-282 | the invariant holds in every reachable state, for any number of workers and any interleaving |
| ProtocolTheorems.NoDoubleExecution | src/scheduler.cc:182-260 | no fiber is ever on two workers' stacks, although its wake-up may be queued before it has switched out, when no step schedules a fiber that has a resume already |
| ProtocolWitness.ScheduledTwiceRunsTwice | src/scheduler.cc:190-219 | otherwise it can be: a run in which two workers execute one fiber that was scheduled twice |
| ProtocolTheorems.OneResume | src/scheduler.h:69-105 | at most one queue entry, event slot or worker's hand refers to a given fiber: one resume per addEvent |
| ProtocolTheorems.QueuedWakeUpWaits | src/scheduler.cc:196-201 | a queued fiber is in state EXEC iff it is still on a worker's stack, so the EXEC skip is exactly right |
| ProtocolTheorems.NoFiberForgotten | src/scheduler.cc:211-260 | an unfinished fiber off the stacks has a resume waiting, or is a reset callback fiber, or lost its registration through delEvent |
| ProtocolTheorems.DestructorAssertHolds | src/fiber.cc:245-256 | a fiber that nothing refers to has finished, or sleeps in do_io after delEvent took its registration, where its own frame still holds it: the destructor's state assert cannot fire |
| ProtocolTheorems.CachedFiberIsReset | src/fiber.cc:51-68 | at the loop head the cached callback fiber is null or INIT, on no stack and referred to by nothing: reset's assert holds and a fiber that yielded is never reused |
| ProtocolTheorems.AssertsFireExactly | src/iomanager.cc:221-497 | over every run the asserts on slots and masks, the EXEC asserts of both yields and of addEvent's own fiber, and reset's state assert hold iff callers do not re-add a live event and reports are not mixed |
| ProtocolTheorems.EventsConserved | src/iomanager.cc:106-500 | in every reachable state the counter equals the bits, kernel equals mask, slot empty iff bit clear, and each successful addEvent is registered, fired or dropped, exactly once |
| ProtocolFired.StepQueues | src/iomanager.cc:416-437 | a step that fires registrations queues their work, one task each in order, and no other step fires any |
| ProtocolTheorems.FiredWorkIsQueuedOnce | src/scheduler.h:186-212 | over every run each fired registration has a task of its own with the registered work, and that task is waiting, held or retired, exactly once |
| ProtocolTheorems.TaskConservation | src/scheduler.cc:182-282 | every task is in the queue once, held by one worker, or retired; a pinned task is only held or retired by its worker |
| ProtocolDelivery.QueueIsFifo | src/scheduler.h:145-155 | over every run the queue holds task numbers in the order they were scheduled |
| ProtocolDelivery.ScheduledAsAsked | src/scheduler.h:69-80 | what a caller schedules becomes one task behind all others, with the work and the worker asked for, and keeps both over the rest of the run |
| ProtocolDelivery.OthersAreUnpinned | src/scheduler.h:89-103 | work of fired events, timer callbacks and fibers that yielded READY may run on any worker |
| ProtocolDelivery.PickTakesFirst | src/scheduler.cc:182-208 | a worker takes the oldest entry that is pinned nowhere else and whose fiber is not executing; only that leaves the queue |
| ProtocolDelivery.PickNoneExactly | src/scheduler.cc:182-208 | the scan finds nothing iff there is no such entry |
| ProtocolDelivery.DueTimerHasOneCallback | src/iomanager.cc:335-344 | over every run a timer has come due iff its callback is in one worker's scan or in one task, and it is never in two places |
| ProtocolDelivery.ScanTakesDue | src/iomanager.cc:335-337 | the scan takes exactly the pending timers due at its reading, that very moment included, earliest first |
| ProtocolDelivery.ScanIsScheduled | src/iomanager.cc:338-344 | every callback of a scan becomes a task of its own behind the queue, in deadline order |
| ProtocolOutcome.CallbackEnters | src/scheduler.cc:233-244 | a scheduled callback runs in the worker's reset or new fiber, from the beginning, in the timer's callback iff it is one |
| ProtocolOutcome.FibersLive | src/scheduler.cc:211-260 | no step takes a fiber along any edge but resume, hold, ready, return, throw and reset |
| ProtocolOutcome.FiberLeaves | src/fiber.cc:185-208 | yielding makes a fiber READY, returning TERM, throwing EXCEPT, and nothing else changes |
| ProtocolOutcome.FiberSettles | src/scheduler.cc:221-259 | afterwards READY is at the end of the queue, unfinished on HOLD, a finished callback fiber reset; the worker keeps its callback fiber iff that has finished |
| ProtocolTheorems.FinishedNeverPicked | src/scheduler.cc:217-217 | no queue entry ever refers to a finished fiber: the TERM/EXCEPT drop is dead code |
| ProtocolTheorems.StoppingIsQuiet | src/scheduler.cc:33-38 | stopping() implies that no task waits or is held and no worker is between pick and decrement |
| ProtocolTheorems.StoppingForgetsOnlyUncounted | src/iomanager.cc:240-250 | when the I/O manager may stop, unfinished fibers are only reset callback fibers, delEvent's victims, or in the window between decrement and requeue |
| ProtocolWitness.StoppingWithReadyFiber | src/scheduler.cc:221-225 | that window is reachable |
| ProtocolOutcome.IdleEndsExactly | src/iomanager.cc:240-244 | the idle fiber may end iff stop() was called in the run, no timer can come due, no slot holds anything, nothing is queued and no worker is between pick and decrement |
| ProtocolOutcome.WorkerExitsExactly | src/scheduler.cc:262-275 | a scan that finds nothing ends the worker iff its idle fiber has ended |
| ProtocolOutcome.RunSettings | src/scheduler.cc:286-316 | over any run only time moves the clock, and the two flags are set iff stop() was called |
| ProtocolOutcome.StepsUseTheTable | src/iomanager.cc:106-405 | the protocol refines the fd table: each step does to it exactly what its operation does and no other step touches it |
| ProtocolTheorems.TimedOutAfterDeadline | src/hook.cc:144-191 | ETIMEDOUT is returned only after a timer of the call's own timeout, armed by that call, has come due |
| ProtocolOutcome.CallStarts | src/hook.cc:131-136 | a call starts at its try, unflagged, without a timer |
| ProtocolOutcome.CallArms | src/hook.cc:144-164 | a call with a timeout gets one timer due a full timeout from now, one without gets none |
| ProtocolOutcome.CallRegisters | src/hook.cc:165-178 | on a free event the fiber parks in its own slot iff the kernel agrees, and otherwise the call goes on to fail |
| ProtocolOutcome.CallGoesOn | src/hook.cc:165-194 | after the wake-up the call's own timer is cancelled and then the flag alone decides: ETIMEDOUT iff it is set, another try iff not; a failed addEvent cancels the timer and returns failure; a transfer returns; nothing else changes |
| ProtocolOutcome.CallbackTests | src/hook.cc:151-158 | the callback flags its call and goes on to cancel iff the call has neither returned nor been flagged |
| ProtocolOutcome.FlaggedTransfersExactly | src/hook.cc:133-194 | a flagged call can still end in a transfer, in some continuation, iff it is at its try; otherwise in none, whatever all others do |
| ProtocolOutcome.PendingTimerIsHeld | src/hook.cc:144-184 | over every run a timer that can come due is the one its call will cancel: none outlives its call and a call has at most one |
| ProtocolTheorems.HistoryOnlyGrows | src/hook.cc:144-191 | over any stretch of any run the cancelled flag is set at most once and never reset, results never change, timers leave the pending state once, no task or registration disappears |
| ProtocolTheorems.OwnExactlyWhileParked | src/hook.cc:144-191 | over every run the slot of a call holds the call's own registration iff the call is still parked |
| ProtocolTheorems.TimeoutRemovesExactly | src/hook.cc:151-161 | the callback's cancelEvent removes a registration iff the kernel agrees and its call's slot holds one; what it removes is a stranger's iff the call is no longer parked; a returned call is never parked |
| ProtocolTheorems.OneStepTimeoutRemovesExactly | src/hook.cc:151-161 | if test and cancel were one step, a registration would be removed iff, besides, the call has neither returned nor been flagged; what is removed is still a stranger's iff the call is not parked |
| ProtocolWitness.OneStepTimeoutHitsStranger | src/hook.cc:151-164 | that happens: a reachable state where the one-step callback of a call before addEvent removes another registration |
| ProtocolWitness.LeftoverCancelsLaterCall | src/hook.cc:151-175 | in two steps it fails: a reachable state where the callback of a returned call cancels a later call's event |
| Timers.TimerManager.Find | src/timer.cc:33-46 | the search by (deadline, address) hits exactly the timers in the set, wherever they are |
| Timers.TimerManager.Insert | src/timer.cc:170-185 | the ordered insert equals adding to the bag, and lands in front iff the timer precedes every other one |
| Timers.TimerManager.AddTimer | src/timer.cc:163-185 | the bag gains the timer, a period from now; it notifies iff it is first and nobody was notified since the last question, and the flag is set iff it was or this notifies |
| Timers.TimerManager.Cancel | src/timer.cc:33-44 | succeeds iff the timer is pending with its callback, and then only that timer leaves |
| Timers.TimerManager.Refresh | src/timer.cc:46-62 | an armed timer is due a full period from now, without a notification; all else stays |
| Timers.TimerManager.Reset | src/timer.cc:64-94 | an armed timer has the new period and is due that long after now, or after its old deadline less its old period; callback, recurrence and all other timers stay; unchanged period is a success that changes nothing even when not armed |
| Timers.TimerManager.GetNextTimer | src/timer.cc:112-131 | reports the distance to the earliest deadline of the bag, zero if past, all ones if empty, and unmutes notifications |
| Timers.TimerManager.HasTimer | src/timer.cc:133-137 | true iff the bag is not empty |
| Timers.TimerManager.Split | src/timer.cc:214-222 | lower_bound with a probe at any address plus the equal-deadline skip separates exactly the due timers |
| Timers.TimerManager.ListExpiredCb | src/timer.cc:188-240 | yields exactly the callbacks due, a deadline equal to the reading included (all on rollover), earliest first; keeps the rest; re-inserts exactly the recurring ones a period from now; agrees with the early return; the callback-iff-in-set invariant is kept |
| TimerSpec.RolloverMeans | src/timer.cc:241-252 | the test fires iff the reading is more than an hour older; with a last reading under an hour, iff it is older at all |
| TimerRuns.OneShotFiresOnce | src/timer.cc:188-240 | over every run, a one-shot timer is pending, handed out exactly once, or cancelled, and never two of these |
| TimerRuns.NothingAfterCancel | src/timer.cc:33-44 | after a successful cancel no run ever hands the callback out or makes the timer wait again |
| TimerRuns.StaysAwakeExactly | src/timer.cc:46-240 | one operation, whatever the clock and the periods, keeps every pending timer no earlier than the reported deadline while the flag is clear, iff it is not a refresh or a recurring re-insertion to an earlier one; additions and resets never lose |
| TimerRuns.NoLostWakeUpExactly | src/timer.cc:46-240 | over every run no wake-up is ever lost iff no operation is a losing one |
| TimerRuns.CalmNeverLoses | src/timer.cc:46-62 | an operation never loses when the refreshed and re-inserted deadlines stay within 64 bits and no rollover is seen |
| TimerRuns.NoLostWakeUp | src/timer.cc:112-131 | hence over runs of such operations, while no notification is pending, every timer is due no earlier than the deadline last reported |
| TimerRuns.WrapLosesWakeUp | src/timer.cc:46-62 | overflow breaks it: a reachable state |
| TimerRuns.EarlyRolloverLosesWakeUp | src/timer.cc:241-252 | a misfiring rollover test breaks it: a reachable state |
| ByteArrays.ByteArray.constructor | src/bytearray.cc:33-36 | a fresh array of any block size holds nothing |
| ByteArrays.ByteArray.CursorNode | src/bytearray.cc:418-452 | the cached node is block position / base size, and null iff the position is the capacity |
| ByteArrays.ByteArray.AddCapacity | src/bytearray.cc:606-642 | just enough whole blocks; nothing stored, no cursor moves; a null cursor node becomes the first new block |
| ByteArrays.ByteArray.Write | src/bytearray.cc:418-459 | lays the bytes over the flat contents at the cursor, growing them if needed, wherever block boundaries fall |
| ByteArrays.ByteArray.Read | src/bytearray.cc:461-495 | the next bytes of the flat contents; throws iff there are too few; follows the null node iff nothing is read at full capacity; a failure changes nothing |
| ByteArrays.ByteArray.ReadAt | src/bytearray.cc:497-532 | exact outcome for every argument: wrapped length test, start in the cursor's block, null node past the last block; it delivers the right bytes when position and cursor share a block |
| ByteArrays.ByteArray.ReadStartHits | src/bytearray.cc:504-507 | the positional read starts at its position iff position and cursor share a block |
| ByteArrays.ReadAtMisses | src/bytearray.cc:504-507 | in an array of two one-byte blocks holding 7 and 8, with the cursor at 0, the read at 1 delivers the 7 |
| ByteArrays.ByteArray.SetPosition | src/bytearray.cc:534-555 | refused iff beyond the capacity; otherwise the walk finds the cursor's block and the size grows to the position |
| ByteArrays.ByteArray.Clear | src/bytearray.cc:403-416 | back to one block and no contents |
| ByteArrays.ByteArray.ToString | src/bytearray.cc:644-654 | all unread contents; the cursor stays |
| ByteArrays.ByteArray.GetReadBuffers | src/bytearray.cc:674-709 | the iovecs lie in consecutive blocks and concatenate to the flat slice at the cursor |
| ByteArrays.ByteArray.GetReadBuffersAt | src/bytearray.cc:711-752 | concatenates to the slice at the position, clamped by what is left behind the cursor; inside the contents for positions up to the cursor; null walk iff it passes the capacity |
| ByteArrays.ByteArray.GetWriteBuffers | src/bytearray.cc:754-788 | makes room, changes no contents, and names exactly the memory of the next bytes |
| ByteArrays.ByteArray.ViewsApart | src/bytearray.cc:674-788 | each iovec is non-empty and inside its own block, so no two overlap |
| ByteArrays.ByteArray.GatheredSlice | src/bytearray.cc:674-788 | the iovecs' bytes are the flat slice |
| ByteArrays.ByteArray.Scatter | src/bytearray.cc:754-788 | filling the iovecs in order writes the flat slice |
| Wire.ImageRoundTrip | src/bytearray.cc:72-127 | fixed-width values of any width survive, swapped or not |
| Wire.ImageIsReversed | src/endian.hpp:18-38 | swapped memory is the host's memory backwards |
| Wire.ByteOfImage | src/bytearray.cc:72-127 | swapped, byte i is the i-th most significant; otherwise the i-th least significant |
| Wire.AlwaysSwaps | src/bytearray.h:472-473 | the stored byte order never equals the host's |
| Wire.ZigZagMeaning | src/bytearray.cc:129-151 | with wrap-around the code of v is 2v or -2v-1, the minimum included |
| Wire.ZigZagRoundTrip | src/bytearray.cc:129-161 | decoding inverts encoding on every value of the width |
| Wire.ZigZagOnto | src/bytearray.cc:153-161 | encoding inverts decoding on every code of the width |
| Wire.VarintFits | src/bytearray.cc:169-183 | five bytes suffice for 32 bits and ten for 64 |
| Wire.ByteOfVarint | src/bytearray.cc:169-183 | byte i holds the i-th seven bits from the bottom, with the top bit set on all but the last, and no byte too many |
| Wire.VarintRoundTrip | src/bytearray.cc:169-201 | decoding consumes exactly what encoding wrote, whatever follows, and returns the value |
| Wire.VarintStops | src/bytearray.cc:308-349 | on any bytes decoding takes at most one byte per seven bits and throws only when bytes run out |
| Wire.Layout | src/bytearray.cc:66-244 | fixed widths in two's complement, varints plain or of 2v and -2v-1, strings behind their length, fixed or varint |
| Wire.DecodeEncode | src/bytearray.cc:163-401 | every typed value in range reads back as itself and eats exactly its bytes, except an empty string at the end of the last block |
| Codec.EncodeVarint | src/bytearray.cc:169-183 | the loop over the temporary array never overruns it and produces the varint |
| Codec.WriteItem | src/bytearray.cc:66-244 | a typed write lays its image at the cursor of any array, and an array without spare blocks stays so |
| Codec.ReadVarint | src/bytearray.cc:308-349 | the byte-wise loop equals the decoder on the unread bytes and moves the cursor over what it used |
| Codec.ReadItem | src/bytearray.cc:246-401 | any typed read on any contents: item, exception or null node exactly as the unread bytes and the room decide |
| Codec.RoundTrip | src/bytearray.cc:66-401 | any list of typed values written into a fresh array of any block size reads back as itself and leaves nothing unread, iff it does not end in an empty string while filling its last block |
| Streams.BringsOn | src/stream.cc:5-56 | one transfer fails only when the whole cannot succeed, and otherwise what is left succeeds iff the whole does |
| Streams.FlowsSupply | src/stream.cc:5-56 | any pattern of positive answers brings any length |
| Streams.SocketStream.ReadFixSize | src/stream.cc:5-17 | exactly the next n bytes of the stream iff the network brings them, cut anywhere; a failure has taken a shorter prefix |
| Streams.SocketStream.WriteFixSize | src/stream.cc:31-44 | all bytes go out in order iff the network takes them; otherwise a proper prefix and a failure |
| Streams.SocketStream.ReadTo | src/streams/socket_stream.cc:34-48 | received bytes land at the flat cursor through the blocks' memory and the cursor moves past them |
| Streams.SocketStream.WriteFrom | src/streams/socket_stream.cc:59-73 | the bytes sent are the next unread ones and the cursor moves past them |
| Streams.SocketStream.ReadFixSizeTo | src/stream.cc:19-29 | the next n stream bytes are laid over the contents and the cursor moves by n, iff the network brings them, for every fragmentation |
| Streams.SocketStream.WriteFixSizeFrom | src/stream.cc:46-56 | the next n unread bytes are sent and the cursor moves by n, iff there are as many and the network takes them, for every fragmentation |
| HttpBody.ReadSized | src/http/http_session.cc:50-77 | there is a body iff the network brings what the buffer lacks, and it is exactly the first `length` bytes of buffer followed by stream, whatever the fragmentation |
| HttpBody.ReadChunk | src/http/http_connection.cc:91-110 | it succeeds iff the network brings what the buffer lacks; then exactly the chunk's content is appended, two bytes are dropped, and buffer and stream hold exactly what follows |
| SizeLine.WholeFeed | src/http/httpclient_parser.rl:149-156 | a feed that begins with hexadecimal digits and a whole line end, extensions or not, gives the value of those digits and eats exactly the line |
| SizeLine.TailExactly | src/http/httpclient_parser.rl:150-154 | what may follow the digits is exactly extensions, each ';' name and perhaps '=' value, and a line end with or without CR |
| SizeLine.SizeMeans | src/http/httpclient_parser.rl:150-156 | whatever size a feed yields, it began with digits of that value and such a rest, and exactly they were eaten |
| SizeLine.HeadExactly | src/http/httpclient_parser.rl:128-156 | a fresh parser is in a response head iff the feed begins with "HTTP/" |
| SizeLine.ErrorExactly | src/http/httpclient_parser.rl:149-156 | a feed is refused iff nothing could follow it that makes it a size line or a head |
| SizeLine.TokenChars | src/http/httpclient_parser.rl:121-126 | names and values are visible ASCII without the separators |
| SizeLine.HexOfPrint | src/http/httpclient_parser.rl:95-97 | a number printed in hexadecimal digits of either case is read as itself |
| SizeLine.DigitFeed | src/http/httpclient_parser.rl:149-156 | a feed that ends among the digits, or behind the CR, is eaten without a verdict |
| SizeLine.LineEndFeed | src/http/httpclient_parser.rl:149-156 | a parser started at the line end reports an error |
| SizeLine.HexSuffix | src/http/httpclient_parser.rl:95-106 | losing leading digits keeps the value iff they are zeros |
| HttpChunks.ReadLine | src/http/http_connection.cc:65-89 | the inner loop over feeds finds the size, an error or a failed read exactly as the bytes and the answers decide |
| HttpChunks.ReadChunked | src/http/http_connection.cc:63-111 | the whole loop on the bytes that actually come, right or wrong sizes alike, returns and leaves exactly what the value definition says |
| HttpChunks.PlainLineExactly | src/http/http_connection.cc:65-89 | a plain size line comes out right iff its last feed begins among its digits and the digits before are zeros; it is a line at all iff that feed begins among its digits; then the size is the value of the digits from there on and exactly what follows the line is left |
| HttpChunks.LineFromLastFeed | src/http/http_connection.cc:65-89 | the same value and remainder for lines with extensions whose last feed begins among the digits |
| HttpChunks.BodyOfChunks | src/http/http_connection.cc:63-111 | chunks that arrive are assembled to their contents joined in order, and buffer and stream hold exactly what follows the last, however the contents are cut |
| HttpChunks.ArrivesExactly | src/http/http_connection.cc:63-111 | for plain size lines every size comes out right and every content arrives iff no line is cut but among leading zeros and the network brings the contents |
| HttpChunks.BufferedArrives | src/http/http_connection.cc:63-111 | chunks that are all buffered arrive whatever the network does |
| HttpChunks.ZeroCutIsHarmless | src/http/http_connection.cc:65-89 | "0A" cut after the zero is read as ten |
| HttpChunks.DigitCutIsMisread | src/http/http_connection.cc:65-89 | "1A" cut after the one is read as ten, not twenty-six |
| HttpChunks.LineEndCutIsLost | src/http/http_connection.cc:65-89 | a line cut between CR and LF gives no body although the network brings every byte |
| Url.UrlEncode | src/util.cc:740-781 | the lazily allocated result equals the byte-by-byte definition |
| Url.UrlDecode | src/util.cc:783-823 | the lazily allocated result equals the byte-by-byte definition |
| Url.DigitsRead | src/util.cc:801-806 | the n-th character of 0123456789abcdef, in either case, and no other byte, is the digit n |
| Url.DecodesEscape | src/util.cc:798-807 | a percent sign and two digits i and j of either case decode to 16i+j |
| Url.DecodesPlus | src/util.cc:789-797 | a plus decodes to a space iff asked for |
| Url.UntouchedExactly | src/util.cc:783-823 | decoding leaves a string as it is iff no percent sign in it has two digits behind it and no plus stands for a space |
| Url.EncodesEach | src/util.cc:737-781 | letters, digits and -.=_~ stay, a space becomes a plus iff asked for, any other byte a percent sign and two upper-case digits |
| Url.RoundTrip | src/util.cc:740-823 | plus-decoding inverts both encodings, plain decoding the plain one; plain decoding inverts the plus encoding iff there is no space |
| Url.EncodeIsClean | src/util.cc:740-781 | the output is unreserved bytes, whole hexadecimal escapes and, for the plus form, pluses |
| Url.EncodeAlphabet | src/util.cc:740-781 | no other byte occurs in it |
| Url.EncodeInjective | src/util.cc:740-781 | different strings have different encodings |
| Query.ParseParams | src/http/http.cc:255-276 | the loop inserts exactly the pieces of the query, first one wins |
| Query.PiecesMean | src/http/http.cc:255-274 | in any query, from any place: no '=' gives nothing; else a key up to the first '=', its value up to the next '&' or the end, and on behind the '&' |
| Query.PiecesOfPrint | src/http/http.cc:255-276 | parsing a printed list of pairs gives the list, even when encoded values contain '=' |
| Query.ParseOfPrint | src/http/http.cc:63-276 | for '='-free keys the parsed map finds a key, without regard to case, iff some pair has it, with the first such pair's value |
| Query.FoldPlain | src/http/http.cc:63-66 | for keys without NUL the comparison is plain case folding |
| Query.FoldExactly | src/http/http.cc:63-66 | keys without NUL are one iff they have the same length and differ only in the case of ASCII letters |
| Query.FoldCut | src/http/http.cc:63-66 | what follows a NUL does not tell keys apart |
| Query.Request.InitQueryParam | src/http/http.cc:248-277 | the query is parsed once; the flag bit remembers |

## Left out

- Two places join separate accesses in one step: the first half of the timeout callback (the weak pointer is locked, the flag tested and set) and the I/O manager's stopping test, which reads the timers, the counter and the queue one after the other.
- Liveness: nothing says that a wake-up, a timeout or a tickle happens in the end; the idle loop's bounded wait stands in for missed tickles.
- Tickle pipes, real epoll, sockets, SSL, context switching and pthread primitives are atomic steps or free choices of the environment.
- Two growers of the context table racing, and the window between its read and its write lock: growing is one step.
- Closing and reusing an fd number: a failed `epoll_ctl` leaves the table as it was, and the kernel's interest changes only through it.
- Work before and after the fiber loop (`start`, `stop`, the caller's own thread and its root fiber) and the idle fiber's own state beyond whether it has finished; with them the asserts on main fibers, on thread setup and on system calls.
- The expiry scan and the scheduling of its callbacks are two steps of the protocol; inside it deadlines are unbounded. Their 64-bit arithmetic and rollover are in `TimerSpec`.
- The other hooks (`sleep`, `connect`) use the same event and timer operations in another order and are not modelled.
- A freed timer's address may be used again once nobody refers to the timer; when that happens is left to the caller.
- HttpChunks.ReadChunked: does not follow a size that no 32-bit length holds, nor a feed that begins with a response head, because the length arithmetic overflows in the first and the second needs the rest of the parser; it returns `Beyond` there.
- HttpChunks.PlainLineExactly: states nothing about a cut inside an extension, because what a fresh parser makes of it is the value definition `AfterLine` and has no shorter condition.
- Code that registers its own fiber with `addEvent` other than through `do_io`, or that holds without anything that will resume it.
- Streams.SocketStream.WriteFrom: does not model taking the address of an empty iovec list, because sending nothing has the same result.
- Streams.SocketStream.ReadFixSize: does not model the cut of a length above 2^31 to the `int` result.
- ByteArrays.ByteArray.AddCapacity: does not model the rounding of the floating-point block count for sizes of 2^53 and more.
- ByteArrays.ByteArray.Clear: does not model freeing the blocks, which the garbage collector does.
- Wire.ImageRoundTrip: states floats and doubles only as the 32- and 64-bit patterns the code copies them through.
- Files (`writeToFile`, `readFromFile`), hexadecimal dumps, logging, configuration, addresses, servlets and the connection pool.
- The URI parser and the HTTP parsers for heads: generated tables; the content length is an input here.
- The body and cookie parameters reuse the loop of `ParseParams` with other separators and trimming.
