# Chaining: a verified model of the reactor core

Chaining runs one event loop per thread: other threads hand tasks to the loop
through a locked queue and wake it with an eventfd, timers fire between two
sleeps in `epoll_wait`, and connections read and print through a growable byte
buffer. This project models that core in Dafny and proves what its parts are
for. `dafny verify dfyconfig.toml` checks all of it.

| file | models |
|---|---|
| `Reactor.dfy`, `ReactorProgress.dfy` | any number of producer threads interleaved with the loop, as a step relation: hand-off, wake-ups, sleeping, progress, and the loop's timers as a run of the timer queue |
| `EventLoop.dfy` | `BlockQueue`, the eventfd, and the queueing, draining and firing methods of `EventLoop`, as objects |
| `Drain.dfy` | the drain of the task queue on values, between the objects and the step relation |
| `TimerSpec.dfy`, `TimerRuns.dfy` | timers on values: the ordered queue, the fire-and-rearm round, whole runs |
| `TimerQueue.dfy` | `Timer`, the id counter and `TimerQueue` as objects, proved to act as the values do |
| `Sleep.dfy` | the timeout given to `epoll_wait`, with truncation and narrowing |
| `BufferSpec.dfy`, `Search.dfy` | `Buffer` as a byte queue with a layout: capacity, stream conservation, memory, searching |
| `SharedSpill.dfy` | `readFromFD` called by any number of threads, whose spill area is one |
| `Buffer.dfy` | `Buffer` over a real array |
| `HttpSpec.dfy`, `HttpResponse.dfy` | the response printer, a reader for what it prints, and the class that prints into a `Buffer` |
| `Registry.dfy` | `Channel` and `Epoller` against the kernel's interest list |
| `Sequences.dfy`, `Wrappers.dfy` | helpers |

## Where the code does not do what it is for

Each of these is kept as the code has it, shown by a concrete case, and followed
by the exact condition under which the code does meet the property.

- **Growing the buffer.** `ensureCapacity` resizes to `max(needed, factor * size)`
  as an absolute size. 2000 bytes appended to a default buffer do not fit
  (`CapacityFailsAsWritten`). Room results exactly when `GrowthGuard` holds
  (`CapacityExact`). `Growth` has two values: `AsWritten` is the code; `Intended`
  resizes by that amount instead and needs no condition. Everything about the
  buffer is proved for both, except the memory bound, which is about `AsWritten`.
- **Reading into the buffer.** `readFromFD` appends what spilled over and inherits
  this: 1985 bytes arriving at an empty default buffer cannot be stored, 1984 can
  (`ReceiveFailsAsWritten`). Whatever arrives can be stored exactly in the buffers
  that meet `ReceiveReady`, a condition on size, read index and factor alone
  (`ReceiveExact`).
- **Reading on two loops.** The spill area of `readFromFD` is a static array that all
  threads share without a lock. Two loops that each read one byte more than fits can
  end with the second's byte in the first's buffer (`SpillMixesStreams`). A buffer
  gets its own bytes, whatever they are, if and only if no other call spills between
  its `readv` and its append (`GotExact`; for one call `SpillSurvivesExact`). Then the
  run is, for that buffer, one of its own calls alone (`UndisturbedIsAlone`), which is
  what the results about `BufferSpec` are about. With one loop it always is
  (`OneAtATimeUndisturbed`).
- **Timers while tasks keep coming.** `doPendingTask` drains until it sees the queue
  empty, so a single producer that pushes while each task runs keeps the loop from
  its timers without end (`PushesStarveTimers`, reached from the start and with a
  timer overdue in `OverdueTimerStarves`). Only pushes can: between two rounds the
  loop takes at most three steps for each push and one for each handler reported,
  beyond a number fixed by its state (`RoundBound`).
  A task, on the other hand, cannot be starved by tasks behind it (`TaskRunBound`).
- **Sleeping with an overdue timer.** A deadline missed by 1 ms to 2^31 ms
  gives `epoll_wait` a negative timeout, which means "no time limit"
  (`OverdueBlocks`, which has the exact condition; `OverdueTimerMissed` reaches such
  a state from the start).
  A deadline 2^31 ms away or more is changed by narrowing to `int`.
  The sleep ends in time exactly for an `Expressible` deadline other than the epoch
  (`EndsInTimeExact`), and in the running loop a due timer ends the wait exactly
  when the earliest deadline was one (`DueTimerEndsWait`). `TimeoutExact` says when
  it moreover does not end early; `ClampedExact` is about a clamped timeout.
- **Headers with line ends.** A header value containing CRLF, or a name containing
  `": "`, is read back as something else (`SplitHeaderIsMisread`); `RoundTripExact`
  gives the condition both ways.

Where the code would write past the container, `Append`, `ReadFromFd` and the
printing methods return `inBounds` as false, and the model stops before the copy.
The original has no such value. It is true exactly under the conditions above.

## Assumptions

- Clock readings are inputs. Over the values of `TimerSpec` and `TimerRuns` they may
  go either way, except that the rate and count of repeating timers need readings
  that do not go back within a round (`ClockNonDecreasing`). In `Reactor` one clock
  that never goes back runs through everything (`Tick`, `FireRound`), which
  `system_clock` does not promise.
- The kernel measures the sleep on that same clock, from the reading the timeout was
  computed with: reading the clock and entering `epoll_wait` are one instant.
- Sizes, ids and tick counts are unbounded integers, except that the timeout is
  narrowed to 32 bits. `expandFactor_` is a real number instead of a double.
- A byte is a Dafny `char`; nothing is computed from its value.
- System calls are their effect: the eventfd is a counter, `epoll_ctl` an update
  of an interest map that refuses a second ADD and an unknown MOD or DEL, `readv`
  delivers some bytes or fails.
- One channel per descriptor, and no descriptor closed before its channel. `WakeUp`
  does not keep to this: its destructor closes the eventfd before the channel, a
  member, is destroyed (src/main/WakeUp.cpp:43-48), so that the kernel refuses the
  channel's last two requests, which the code logs.

## Model

| member | source | states |
|---|---|---|
| `Reactor.NoLostWakeUp` | src/main/EventLoop.cpp:84-92 | in every interleaving, when the loop is in `epoll_wait` and some `queueInLoopThread` call has returned with its task still queued, the wait can end at once whatever its timeout and whichever other producers are stalled; queued tasks never outnumber pending signals plus producers about to signal |
| `Reactor.IdleProducersTaskWakes` | src/main/EventLoop.cpp:84-92 | a queued task whose producer is not inside a call ends the wait |
| `Reactor.PushCompletesNothing` | src/auxiliary/BlockQueue.hpp:20-25 | a push alone never makes a returned call wait for its wake-up |
| `Reactor.InvOverRuns` | src/main/EventLoop.cpp:30-46 | the loop invariant holds after every run of steps of any producers and the loop |
| `Reactor.LoopKeepsInv` | src/main/EventLoop.cpp:32-45 | each stretch of loop code keeps the invariant |
| `Reactor.EnvironmentKeepsInv` | src/main/EventLoop.cpp:84-92 | pushes, signals and passing time keep the invariant at any point of the loop |
| `Reactor.ExactlyOnceInOrder` | src/main/EventLoop.cpp:136-142 | tasks run, the one running and the queue are together the global push order: none dropped, repeated or reordered |
| `Reactor.PerProducerOrder` | src/auxiliary/BlockQueue.hpp:20-25 | the tasks of one producer run in the order it pushed them |
| `Reactor.QueueingIsTwoSteps` | src/main/EventLoop.cpp:84-92 | a completed `queueInLoopThread` call leaves the task last in the queue and one more wake-up |
| `Reactor.NeverSpins` | src/main/WakeUp.cpp:33-41 | whenever the loop reads the eventfd its counter is positive, and `try_pop` after a false `empty()` always delivers |
| `ReactorProgress.ReadTakesAll` | src/main/WakeUp.cpp:33-41 | reading the eventfd takes every signal there is: until another is given it is not reported again in any run, and the counter is at most the signals given since |
| `ReactorProgress.SignalsAddUp` | src/main/WakeUp.cpp:23-31 | in a run without such a read the counter grows by exactly the signals given |
| `Reactor.DueTimerEndsWait` | src/main/Epoller.cpp:39-47 | while the loop waits, its timeout belongs to the timers pending now: at every clock reading past the earliest deadline the wait can return with no event if and only if that deadline was not the epoch and survives truncation and narrowing when the timeout is computed |
| `Reactor.WaitNotCutShort` | src/main/Epoller.cpp:39-47 | with no event and no interruption the wait does not end a millisecond or more before an earliest deadline that was in range, and not at all with no timer pending |
| `Reactor.OverdueTimerMissed` | src/main/Epoller.cpp:42-47 | a reachable state in which a timer is due and the loop waits with no time limit |
| `ReactorProgress.DrainBound` | src/main/EventLoop.cpp:136-142 | with tasks waiting throughout, the loop takes at most so many steps, counted by queue length, position and concurrent pushes; so once pushes stop the queue is emptied |
| `ReactorProgress.DrainNeedsOneWait` | src/main/EventLoop.cpp:30-46 | until the queue is empty the loop returns from `epoll_wait` at most once |
| `ReactorProgress.TaskRunBound` | src/main/EventLoop.cpp:136-142 | until the n-th pushed task has been run the loop takes at most so many steps, however many tasks are pushed behind it |
| `ReactorProgress.TaskIsRun` | src/main/EventLoop.cpp:136-142 | so a loop that has taken more steps than that has run it, as the n-th of all |
| `ReactorProgress.NeverStuck` | src/main/EventLoop.cpp:30-46 | outside `epoll_wait`, or with the task of a returned call queued, the loop's own next step is possible; otherwise the producer of every queued task is about to signal |
| `ReactorProgress.OneRoundPerWait` | src/main/EventLoop.cpp:30-46 | every return from `epoll_wait` is followed by one firing round, behind its handlers and ahead of the drain, in any run |
| `ReactorProgress.AnythingMayHappen` | src/main/EventLoop.cpp:30-60 | callbacks, readings and reported handlers are restricted by nothing but the clock and the eventfd |
| `ReactorProgress.RoundBound` | src/main/EventLoop.cpp:43-44 | without a firing round the loop takes at most three steps for each task pushed meanwhile, one for each handler reported, and a number fixed by its state |
| `ReactorProgress.PushesStarveTimers` | src/main/EventLoop.cpp:136-142 | from any drain with one task left, for every n and every later time there is a run of 3n loop steps, with n pushes by one producer, in which no timer fires |
| `ReactorProgress.OverdueTimerStarves` | src/main/EventLoop.cpp:43-44 | the loop can be brought from its start into such a run with a timer already overdue |
| `ReactorProgress.TimersAreARun` | src/main/EventLoop.cpp:94-134 | in any interleaving the loop's timers go through a run of registrations and rounds with a non-decreasing clock per round |
| `ReactorProgress.OneShotInLoop` | src/main/EventLoop.cpp:48-60 | every one-shot timer in the loop fires once, in the first round reaching its deadline |
| `ReactorProgress.RepeatingInLoop` | src/main/EventLoop.cpp:48-60 | every repeating timer the loop ever holds keeps its rate and is never lost |
| `ReactorProgress.UserCodeRegisters` | src/main/TimerQueue.cpp:16-53 | a task or a handler may call `runUntil`, `runAfter` and `runEvery` at will; each call queues a live timer, due when it says or that many milliseconds after the clock reading of that step, repeating exactly for `runEvery` |
| `ReactorProgress.TimerCallRegisters` | src/main/EventLoop.cpp:94-134 | the same call made on another thread queues its timer when its task is run, with the clock read then |
| `ReactorProgress.RoundsBeforeEnd` | src/main/EventLoop.cpp:48-60 | no clock reading of a round, at its start or behind a callback, is later than the clock at the end of the run |
| `ReactorProgress.RepeatCountInLoop` | src/main/TimerQueue.cpp:44-53 | at any point of any run of the loop, a timer registered by a task has fired at most (now - registration) / period times |
| `EventLoops.BlockQueue.Push` | src/auxiliary/BlockQueue.hpp:20-25 | appends behind everything queued |
| `EventLoops.BlockQueue.TryPop` | src/auxiliary/BlockQueue.hpp:44-52 | takes the oldest task, or nothing exactly when there is none |
| `EventLoops.BlockQueue.Empty` | src/auxiliary/BlockQueue.hpp:65-69 | says whether the queue is empty |
| `EventLoops.WakeUp.Signal` | src/main/WakeUp.cpp:23-31 | adds one to the counter, as the signal step of the loop's model does |
| `EventLoops.WakeUp.HandleRead` | src/main/WakeUp.cpp:33-41 | reads until something is there and takes all of it, at once if the counter is positive, as the wake handler's step of the loop's model does; it goes on for ever exactly if nothing is there and nothing gets signalled |
| `EventLoops.EventLoop.QueueInLoopThread` | src/main/EventLoop.cpp:84-92 | on the loop thread the task is run on the spot, ahead of the queue and without a wake-up; otherwise task and wake-up are added together and nothing runs |
| `EventLoops.EventLoop.RequestTimer` | src/main/EventLoop.cpp:94-134 | the `runUntil`, `runAfter` and `runEvery` wrappers: on the loop thread the timer is queued on the spot; from elsewhere a task holding the same call, and a wake-up, are left and the timers stay as they are |
| `EventLoops.EventLoop.RunTask` | src/main/EventLoop.cpp:140 | the task runs once, and does to the timers what it registers, which for a timer call is that call |
| `EventLoops.EventLoop.DoPendingTask` | src/main/EventLoop.cpp:136-142 | with other threads pushing before every lock it takes, ends with the queue seen empty, having run the old tasks and the arrivals once each in order behind all that ran before; queue, history and timers are those of the drain on values |
| `Drains.DrainRunsAll` | src/main/EventLoop.cpp:136-142 | the drain on values runs all that was queued or arrived before its last look, once each and in order, and leaves nothing |
| `Drains.DrainIsRun` | src/main/EventLoop.cpp:136-142 | for any arrivals and clock readings the drain is a run of loop steps, pushes and passing time that leaves the same queue, history and timers |
| `EventLoops.EventLoop.RegisterEach` | src/main/EventLoop.cpp:94-134 | a callback's calls of those wrappers, on the loop thread, add up to `RegisterAll` |
| `EventLoops.EventLoop.FireOne` | src/main/EventLoop.cpp:51-57 | one expired timer: callback, then re-arming and re-insertion if it repeats |
| `EventLoops.EventLoop.ExecExpiredTimesTask` | src/main/EventLoop.cpp:48-60 | the method on live objects performs exactly the specified round and leaves the queue in order |
| `TimerSpec.LessIsStrictTotal` | src/main/Timer.hpp:52-57 | (deadline, id) is a strict order, total on timers with different ids |
| `TimerSpec.InsertContents` | src/main/TimerQueue.cpp:35 | insertion adds one timer and loses none |
| `TimerSpec.InsertKeepsOrder` | src/main/TimerQueue.cpp:82-88 | insertion of a new id keeps the queue strictly sorted with distinct ids |
| `TimerSpec.DrainExact` | src/main/TimerQueue.cpp:72-80 | the drain takes exactly the timers with deadline at or before the one reading, earlier deadlines first and of equal ones the lower id first |
| `TimerSpec.RegisterAllContents` | src/main/TimerQueue.cpp:29-53 | registering adds exactly the requested timers |
| `TimerSpec.AddedIdsAreNew` | src/main/TimerId.cpp:5-10 | ids handed out are at or above the counter before and below it after |
| `TimerSpec.AddedInOrder` | src/main/TimerId.cpp:5-10 | timers registered one after the other get increasing ids, so of those due at the same time the first registered fires first |
| `TimerSpec.RequestIsQueued` | src/main/TimerQueue.cpp:16-53 | each registered timer is in the queue, live, with the deadline and interval asked for |
| `TimerSpec.FireOneKeeps` | src/main/EventLoop.cpp:51-57 | while a timer is out of the queue no callback can collide with it or with the rest of the batch |
| `TimerSpec.RoundKeeps` | src/main/EventLoop.cpp:48-60 | a round, callbacks inserting timers included, keeps the queue strictly sorted, ids distinct and below the counter |
| `TimerSpec.RoundConserves` | src/main/EventLoop.cpp:48-60 | after a round the queue holds exactly the timers not due, the due repeating ones re-armed, and the ones the callbacks added |
| `TimerRuns.RunKeeps` | src/main/TimerQueue.cpp:41-42 | order and id uniqueness hold in every run |
| `TimerRuns.RoundOrigin` | src/main/EventLoop.cpp:48-60 | a timer found after a round was not due, or is new, or is a due repeating one re-armed |
| `TimerRuns.DueFiresOnce` | src/main/TimerQueue.cpp:76-79 | a due timer is in the batch exactly once |
| `TimerRuns.RoundRearms` | src/main/Timer.cpp:43-50 | a due repeating timer goes back with the reading taken behind its own callback plus one interval for its deadline, or with the epoch if cancelled |
| `TimerRuns.CallbackRegisters` | src/main/EventLoop.cpp:51-57 | what a callback registers is in the queue after the round, even if due already: it waits for the next round |
| `TimerRuns.AbsentNeverFires` | src/main/EventLoop.cpp:48-60 | an id that has left the queue never fires again |
| `TimerRuns.OneShotExact` | src/main/TimerQueue.cpp:29-36 | a one-shot timer fires exactly once in any run, in the first round whose reading reaches its deadline |
| `TimerRuns.RepeatRate` | src/main/Timer.cpp:43-50 | the k-th firing after the first comes no earlier than the deadline plus k periods, and consecutive firings are a period apart |
| `TimerRuns.RepeatingStays` | src/main/EventLoop.cpp:53-56 | a repeating timer is never lost and first fires in the first round reaching its deadline, or not at all if none does |
| `TimerRuns.RepeatingNext` | src/main/Timer.cpp:43-50 | each firing is in the first round reaching the deadline then pending; that round leaves the timer due one interval after a reading of its own, and the remaining firings are those of the remaining run |
| `TimerRuns.RepeatCount` | src/main/TimerQueue.cpp:44-53 | registered at s, it has fired at most (T - s) / period times by time T |
| `TimerRuns.RunCancelsNone` | src/main/Timer.cpp:27-36 | registration and firing never produce a cancelled timer |
| `TimerRuns.CanceledFiresEveryRound` | src/main/Timer.cpp:43-50 | a repeating timer cancelled with any deadline pending fires in every round from the first reaching that deadline on, given readings not before the epoch |
| `TimerQueues.TimerIds.FetchAdd` | src/main/TimerId.cpp:7-10 | hands out the counter's value and moves past it |
| `TimerQueues.Timer.constructor` | src/main/Timer.cpp:6-14 | a new timer is not cancelled |
| `TimerQueues.Timer.Reset` | src/main/Timer.cpp:43-50 | a live repeating timer is due one interval after the reading, any other at the epoch |
| `TimerQueues.Timer.Cancel` | src/main/Timer.hpp:31 | sets the flag and nothing else |
| `TimerQueues.TimerQueue.AddTimer` | src/main/TimerQueue.cpp:82-88 | sorted insertion; the assertion that no equivalent timer is queued holds |
| `TimerQueues.TimerQueue.RunUntil` | src/main/TimerQueue.cpp:29-36 | registers a one-shot timer under a fresh id |
| `TimerQueues.TimerQueue.RunAfter` | src/main/TimerQueue.cpp:16-20 | the deadline is the reading plus the delay |
| `TimerQueues.TimerQueue.RunEvery` | src/main/TimerQueue.cpp:44-53 | the first deadline of a repeating timer is one period away |
| `TimerQueues.TimerQueue.GetNextExpiredTime` | src/main/TimerQueue.cpp:63-70 | the minimum of all pending deadlines, the epoch if there is none |
| `TimerQueues.TimerQueue.DrainFront` | src/main/TimerQueue.cpp:76-79 | the loop removes a longest prefix of due timers |
| `TimerQueues.TimerQueue.GetExpiredTimes` | src/main/TimerQueue.cpp:72-80 | the due timers go behind those already collected, the rest stay |
| `Sleep.NextIsEarliest` | src/main/TimerQueue.cpp:63-70 | the front deadline is the least of all |
| `Sleep.TimeoutValues` | src/main/Epoller.cpp:42-47 | the timeout for four cases in numbers: 500 ms ahead, nothing pending, 1 ms overdue, 2^31 ms ahead |
| `Sleep.TimeoutExact` | src/main/Epoller.cpp:42-47 | the sleep ends by the deadline and less than 1 ms early exactly for a deadline that is not the epoch, is under 2^31 ms away and not overdue by whole milliseconds (up to multiples of 2^32) |
| `Sleep.EndsInTimeExact` | src/main/Epoller.cpp:42-47 | the sleep ends by the deadline exactly for a deadline that is not the epoch and whose distance in milliseconds, modulo 2^32, is under 2^31 if ahead and 0 if behind |
| `Sleep.OverdueBlocks` | src/auxiliary/Timestamp.hpp:15-18 | exactly which pending deadlines make the timeout negative: those that cannot be expressed, unless overdue by more than 2^31 ms modulo 2^32 |
| `Sleep.ClampedExact` | src/main/Epoller.cpp:42-47 | a clamped timeout never sleeps past a deadline and agrees with the code wherever the code is right |
| `Sleep.SleepCoversQueue` | src/main/EventLoop.cpp:35-37 | if the earliest deadline can be expressed and is not the epoch, the sleep ends before any pending timer is late; it is unlimited exactly when no timer is pending |
| `BufferSpec.CapacityExact` | src/main/Buffer.cpp:40-55 | room for the request results exactly when the growth guard holds, always for the intended resize; the layout stays in order |
| `BufferSpec.GrowthExact` | src/main/Buffer.cpp:50-54 | where growing makes the room asked for, the new size is the old one times the factor, rounded down; the intended growth adds that or what is missing, whichever is more |
| `BufferSpec.ReservedFrugal` | src/main/Buffer.cpp:40-49 | bytes are moved only without room behind them, and the container grows only if moving is not enough |
| `BufferSpec.GrowthsAreFew` | src/main/Buffer.cpp:40-55 | with a factor of two or more, n growths in a run have made the container at least 2^n times as large, so their number is logarithmic in its final size |
| `BufferSpec.CapacityFailsAsWritten` | src/main/Buffer.cpp:50-54 | a default buffer does not make room for 2000 bytes |
| `BufferSpec.ReceiveExact` | src/main/Buffer.cpp:115-139 | every delivery of the sizes `readv` can make is stored, if and only if the buffer meets a condition on its size, read index and factor |
| `BufferSpec.ReceiveFailsAsWritten` | src/main/Buffer.cpp:127-137 | 1985 bytes read into an empty default buffer do not fit, one fewer do |
| `BufferSpec.ModestRequestsFit` | src/main/Buffer.cpp:50-54 | with a factor of two or more a request up to the container's size always fits |
| `BufferSpec.ApplyIsQueueStep` | src/main/Buffer.cpp:26-82 | every operation is one step of a plain byte queue and keeps the index order |
| `BufferSpec.ReceivedInPlace` | src/main/Buffer.cpp:127-135 | what fits goes behind the readable bytes and moves nothing; otherwise the container is filled and only the rest appended |
| `BufferSpec.StreamConservation` | src/main/Buffer.cpp:115-139 | over every run of appends, receives and retrievals in which each receive is one step, bytes consumed followed by bytes readable are the bytes fed in |
| `SharedSpill.UndisturbedIsAlone` | src/main/Buffer.cpp:115-139 | with any number of threads reading, a buffer whose spilled bytes are never overwritten before their append ends as in a run of its own calls alone, and its stream is what was delivered to it |
| `SharedSpill.OneAtATimeUndisturbed` | src/main/Buffer.cpp:115-139 | reads that never overlap, as with one loop, disturb no buffer |
| `SharedSpill.GotExact` | src/main/Buffer.cpp:117 | a buffer gets the bytes sent to it, whatever bytes of the given sizes all threads are sent, if and only if no other read spills between a `readv` of its own that spilled and the append |
| `SharedSpill.SpillMixesStreams` | src/main/Buffer.cpp:127-135 | two default buffers each sent 961 bytes: the first ends with the last byte of the second |
| `SharedSpill.SpillSurvivesExact` | src/main/Buffer.cpp:117-135 | one call gets its own bytes for all contents of the reads in between exactly if it spilled nothing or they spilled nothing |
| `SharedSpill.GotIsKept` | src/main/Buffer.cpp:115-139 | disturbed or not, the bytes that went into a buffer are those that come out and those still held |
| `BufferSpec.SearchStableOverRuns` | src/main/Buffer.cpp:91-107 | a found delimiter keeps its place in the stream through any run until it is consumed |
| `BufferSpec.ReservedBound` | src/main/Buffer.cpp:50-54 | one growth stays within the factor times what is held |
| `BufferSpec.MemoryBoundOverRuns` | src/main/Buffer.cpp:40-55 | the container never exceeds its initial size or the factor times prepend space plus peak readable size |
| `Search.Find` | src/main/Buffer.cpp:91-95 | the first occurrence, or none anywhere |
| `Search.FindStableUnderAppend` | src/main/Buffer.cpp:103-107 | later bytes do not move a found delimiter |
| `Search.FindAcrossChunks` | src/main/Buffer.cpp:103-107 | a delimiter completed by a second chunk is found as in the concatenation, straddling the seam or inside the chunk |
| `Search.FindAfterRetrieve` | src/main/Buffer.hpp:43-46 | consuming in front of a delimiter shifts it by that much |
| `Buffers.Buffer.constructor` | src/main/Buffer.cpp:17-24 | an empty buffer behind the prepend space, in order exactly if that fits the container |
| `Buffers.Buffer.ReadableSize` | src/main/Buffer.hpp:23-26 | how many bytes are readable |
| `Buffers.Buffer.CanWriteableDirection` | src/main/Buffer.hpp:91-94 | how many bytes fit behind the readable ones |
| `Buffers.Buffer.CanWriteableThroughReforming` | src/main/Buffer.hpp:96-100 | exactly how many would fit after compaction |
| `Buffers.Buffer.ReformingBuffer` | src/main/Buffer.cpp:57-65 | the overlapping move changes the position of the readable bytes and not the bytes |
| `Buffers.Buffer.Resize` | src/main/Buffer.cpp:54 | keeps the common prefix and zero-fills |
| `Buffers.Buffer.EnsureCapacity` | src/main/Buffer.cpp:40-55 | the full effect of the code for any factor, room found or not |
| `Buffers.Buffer.Append` | src/main/Buffer.cpp:31-38 | for any bytes: in bounds exactly under the growth guard, and then they follow the readable ones, which stay as they were |
| `Buffers.Buffer.Retrieve` | src/main/Buffer.hpp:43-46 | moves the read index; the buffer stays in order exactly if that much was readable |
| `Buffers.Buffer.RetrieveAsString` | src/main/Buffer.cpp:74-82 | a request for more than is readable returns and removes nothing; any other returns exactly the first bytes, which are removed |
| `Buffers.Buffer.RetrieveUntil` | src/main/Buffer.cpp:67-72 | drops the bytes before a position strictly inside |
| `Buffers.Buffer.RetrieveAsStringUntil` | src/main/Buffer.cpp:84-89 | splits the readable bytes at a position strictly inside |
| `Buffers.Buffer.FindCrLf` | src/main/Buffer.cpp:91-95 | first CRLF in the readable bytes |
| `Buffers.Buffer.FindCrLfTwice` | src/main/Buffer.cpp:103-107 | first CRLFCRLF in the readable bytes |
| `Buffers.Buffer.ReadFromFd` | src/main/Buffer.cpp:115-139 | for any delivery and any reads of other threads in between: in bounds exactly when what spilled finds room; then the bytes in the container and those the shared area holds at the append arrive in order, which are the ones delivered if no other read spilled; a failed read changes nothing |
| `Buffers.Perform` | src/main/Buffer.cpp:26-139 | any run of calls on a live object, no other thread spilling meanwhile, up to the first that does not fit or takes more than is readable: bytes consumed followed by bytes readable are the bytes held before followed by the bytes fed |
| `HttpSpec.ParseUndoesToString` | src/main/http/http.cpp:174 | the printed status code reads back |
| `HttpSpec.ToStringCanonical` | src/main/http/http.cpp:174 | no leading zero; a three-digit code is printed as three digits |
| `HttpSpec.ToStringOnly` | src/main/http/http.cpp:174 | digits without a leading zero that read as a number are what is printed for it |
| `HttpSpec.DecodeStatusText` | src/main/http/http.cpp:156-178 | the status line reads back as version, code and phrase |
| `HttpSpec.SplitUndoesJoin` | src/main/http/http.cpp:182-188 | head lines without CRLF are recovered by splitting at CRLF |
| `HttpSpec.BlankLineEndsHead` | src/main/http/http.cpp:188-192 | the first CRLFCRLF is the end of the last head line whatever the body holds |
| `HttpSpec.DecodeHeaderLines` | src/main/http/http.cpp:182-187 | header lines in any order give back the header map |
| `HttpSpec.HeadBoundary` | src/main/http/http.cpp:180-193 | `findCRLFDouble` on a printed response without CRLF in a header returns the end of its head, for any body and any number of headers |
| `HttpSpec.RoundTrip` | src/main/http/http.cpp:180-193 | a readable response is recovered from its bytes in every header order |
| `HttpSpec.RoundTripExact` | src/main/http/http.cpp:180-193 | and only a readable one is |
| `HttpSpec.PrintInjective` | src/main/http/http.cpp:180-193 | different responses print differently, an unset and an empty body aside |
| `HttpSpec.SplitHeaderIsMisread` | src/main/http/http.cpp:182-187 | a value containing CRLF does not read back |
| `HttpSpec.DefaultResponseText` | src/main/http/http.cpp:131-135 | the bytes printed for a response as constructed |
| `HttpSpec.PhrasesFree` | src/main/http/http.cpp:63-109 | no reason phrase of the table breaks the status line |
| `HttpResponses.WritesSpellResponse` | src/main/http/http.cpp:156-193 | the sequence of appends spells the response |
| `HttpResponses.WritesAllowed` | src/main/http/http.cpp:180-193 | when printing is certain to find room in the buffer |
| `HttpResponses.HttpResponse.constructor` | src/main/http/http.cpp:131-135 | HTTP/1.1 200 OK with no headers and no body |
| `HttpResponses.HttpResponse.AddHeader` | src/main/http/http.cpp:137-141 | sets or replaces one header |
| `HttpResponses.HttpResponse.SetStatusCode` | src/main/http/http.cpp:124-129 | code and phrase change together |
| `HttpResponses.HttpResponse.SetBody` | src/main/http/http.cpp:149-154 | replaces the body |
| `HttpResponses.HttpResponse.SerializeStatusLine` | src/main/http/http.cpp:156-178 | performs the status line's appends on the buffer, or stops at the one that does not fit |
| `HttpResponses.HttpResponse.SerializeHeaders` | src/main/http/http.cpp:182-187 | performs the headers' appends in the given order, or stops at the one that does not fit |
| `HttpResponses.HttpResponse.SerializeBody` | src/main/http/http.cpp:188-193 | the blank line, then the body if one was set |
| `HttpResponses.HttpResponse.Serialize` | src/main/http/http.cpp:180-193 | for any buffer: in bounds exactly when every append fits, and then the buffer gains exactly the printed response, which reads back if and only if its headers are readable |
| `Registry.Epoller.Update` | src/main/Epoller.cpp:72-87 | record and kernel agree afterwards; ADD or MOD is the one the kernel accepts |
| `Registry.Epoller.RemoveChannel` | src/main/Epoller.cpp:89-96 | the descriptor leaves both sides and the kernel accepts |
| `Registry.Epoller.UpdateOperation` | src/main/Epoller.cpp:98-106 | the kernel takes an ADD of a new descriptor or a MOD of a known one, and refuses otherwise |
| `Registry.Epoller.FillActivatedChannels` | src/main/Epoller.cpp:62-70 | every delivered channel is registered and has its events set |
| `Registry.Epoller.Wait` | src/main/Epoller.cpp:39-60 | asks for the timeout of `Sleep`, delivers nothing if the wait fails, doubles a full event list |
| `Registry.Channel.SetEvent` | src/main/Channel.cpp:17-20 | after a mask change the kernel's mask is the channel's |
| `Registry.Channel.EnableRead` | src/main/Channel.hpp:25-30 | sets EPOLLIN and EPOLLHUP in the kernel's mask and leaves the other bits, on both sides |
| `Registry.Channel.EnableWrite` | src/main/Channel.hpp:32-37 | sets EPOLLOUT and leaves the other bits |
| `Registry.Channel.EnableError` | src/main/Channel.hpp:39-43 | sets EPOLLERR and leaves the other bits |
| `Registry.Channel.DisableReading` | src/main/Channel.hpp:45-50 | clears EPOLLIN and EPOLLHUP and leaves the other bits |
| `Registry.Channel.DisableWriting` | src/main/Channel.hpp:52-57 | clears EPOLLOUT and leaves the other bits |
| `Registry.Channel.DisableError` | src/main/Channel.hpp:59-63 | clears EPOLLERR and leaves the other bits |
| `Registry.Channel.DisableAll` | src/main/Channel.hpp:65-70 | an empty mask, still registered |
| `Registry.Channel.Destroy` | src/main/Channel.cpp:51-55 | never registered or not, the channel is gone from both sides and the kernel refused nothing |
| `Registry.Channel.HandleEvent` | src/main/Channel.cpp:22-44 | which bits call which callback, each exactly once if it is set and not at all otherwise, in the order close, error, read, write |
| `Registry.Operate` | src/main/Channel.hpp:25-70 | any enabling, disabling or destruction among channels sharing a poller changes the kernel's table for its own descriptor only, keeps record, channels and kernel in agreement, and is not refused |
| `Registry.OperateAll` | src/main/Epoller.cpp:72-96 | any sequence of them leaves the kernel with the masks of a plain table that is updated in the same order |

## Left out

- The system calls themselves and their error logging; a failed `readv` or `epoll_wait` is modelled by its effect.
- `stop_`: nothing in the code sets it, so the loop has no last iteration.
- `BlockQueue::pop`, the pointer-returning `try_pop` and `size`: not used by the loop, and `pop` cannot work as written.
- `HttpRequest`: its parsing functions are stubs.
- `TcpConnection`, `Socket`, `ListenSocket`, `InetAddr`, logging and settings: declarations or wrappers of system and library calls.
- `Timer(TimerCallback, IntervalUnit)` and `Timer::isExpired`: unused; the first reads its own uninitialised field, the second compares the wrong way round.
- The overloads taking seconds as a double or a `time_t`: a unit conversion in front of the ones modelled.
- `setErrorCallback`, `isErroring_` and `tie`: the setter overwrites the write callback, the flag is never set, the tie never read; the other flags start out false here.
- What callbacks do beyond registering timers; a task queued from the loop's own thread runs as part of the step that queues it.
- Wrap-around of ids, of the eventfd counter and of `size_t`; a run would need 2^64 of each.
- Destruction order at shutdown.
- The table of reason phrases is transcribed, misspelling included; nothing is proved of it but `HttpSpec.PhrasesFree`.
- `BufferSpec.CapacityExact`: products with the factor are exact reals, so the rounding of a double product is not modelled.
- `Registry.Channel.HandleEvent`: takes the set of callbacks that are present as a parameter, and what they do is not modelled.
- `cancel`: no call of the repository reaches it and the queue hands no timer out, so a queued timer is never cancelled (`TimerRuns.RunCancelsNone`). `TimerRuns.CanceledFiresEveryRound` records what the code would do if one were: `reset` moves it to the epoch, but the loop queues it again all the same.
- `EventLoops.EventLoop.RunTask`: what a task does beyond registering timers is not modelled.
- `SharedSpill.GotExact`: a `readv` and an append are one step each; two of them running at the same moment, which C++ leaves undefined, are not modelled.
- `Reactor.DueTimerEndsWait`: says the wait can end, not how soon the kernel lets the thread run.
