# Verified model of the streaming core

A Dafny model of the concurrent and stateful core of the stream file system: the read throttle, the
buffer pool it paces, the producer that feeds the pool, the poll protocol of the FUSE layer, and the
two-queue buffer circulation. `dafny verify dfyconfig.toml` checks all of it.

Two forms are used. Protocols between threads are step machines: a state, the enabled events, and a
`Next` function; theorems hold for every run, so for every interleaving of those steps ("Left out"
names the steps that are coarser than the source). Objects that are changed in
place are classes, and each of their methods is proved equal to a function of the old state; the
theorems are about those functions.

| module | what it models |
|---|---|
| `ConditionVariable` | the condition variable with a sticky flag, with `notifyOne` as two steps (flag under the mutex, signal after it), spurious wake-ups and timeouts |
| `ThrottleMachine` | the throttle as a machine of three threads: the reader in `wait`, the thread of `throttleLoop`, the producer in `registerTimePeriod` |
| `ThrottleCall` | what a call of `wait`, a clear and a registration do in plain terms, what starts and stops throttling, and the machine's use of its condition variables |
| `ThrottleWakeUp` | which of the three hand-offs can lose a wake-up, and when |
| `Oversleep` | a run from the start in which the third hand-off loses one |
| `ThrottleRelease` | bounds on how long a blocked reader stays blocked |
| `ThrottlePace` | the time slept against the time periods that were registered |
| `ThrottleBudget` | the reads that pass freely after a start or a seek |
| `BufferPoolThrottle` | the throttle's memory as an object over a ring array, tied to the machine |
| `CircularBuffer`, `Chunks`, `Integers` | the ring array with overwriting `push_back`; bytes and the fixed-size chunks they travel in; the widths that wrap around |
| `PoolWindow` | the pool as a value: a window over the unbounded stream of chunks, `read`, `readRandomAccess`, the clears |
| `BufferPool` | the pool as an object over its ring array, proved against `PoolWindow` |
| `SampleProducer` | writes of any size cut into chunks, and the end-to-end theorem on bytes |
| `Lockstep` | pool and throttle side by side: two rings and two read positions that must agree, though every operation changes one after the other |
| `PollTable` | poll handles and end-of-file flags |
| `BufferQueue` | producers and consumers that circulate buffers through two bounded queues |

## Where the code differs from what is said of it

- The header of the throttle's condition variable says that lost wake-ups are prevented. That is
  proved for the notifications themselves. But the throttle thread also sleeps on
  `mCvTimePeriodRegistered` for a condition that the reader can make true without notifying it;
  `OversleepsExactly` says when, `OversleepIsReachable` gives a run, and only the next push or the
  timeout of four seconds ends such a sleep.
- `read` clips the last chunk when the index within the read, not the chunk's own number, is that of
  the last buffer. `ClippedExactly` says for which reads the result is right, `UnclippedRead` is one
  for which it is not.
- The checks of `read` and its copy hold different mutexes, so a push in between can overwrite the
  first chunk of a read that was let through; the ring is then indexed out of bounds.
  `CopyStaysInWindowExactly` says when, `OvertakenRead` is such a read.
- After `clearToLastRead` has cut chunks off a ring that has rotated, the position guard of `read`
  lets chunks through that were overwritten before (`ChangeKeepsGuardExactly`,
  `OverwrittenChunkIsAdmitted`).
- `clearToLastRead` keeps one chunk too many for every push that has rotated the ring since the read
  (`TruncationKeepsTheChunkRead`; `UnreadChunkIsKept` is one such run).
- A seek, or a start, while the throttle thread still sleeps an earlier period does not make the
  reader wait for the period of the chunk it reads: the end of that sleep moves the index on from its
  new place (`TickInFlightReleasesSeek`; `StartingWaitSleepsItsChunk` says what is waited for).
- Pool and throttle come to disagree in four ways, exactly (`StepPartsExactly`): when a push rotates
  the throttle's ring inside `wait` (`RotationInsideWaitParts`), since it moves the throttle's
  position and not the pool's; when a `clearToLastRead` or a `clear` falls between the two halves of
  a push, or the first half of a push between the two halves of those, and costs the throttle the
  new period (`CutInsidePushParts`); when a
  `clear` finds the pool's last read location, which it leaves alone, other than 0
  (`ClearAfterReadParts`); and when an empty read has `wait` keep a position that the ring has moved
  (`EmptyReadParts`).

## Model

| member | source | states |
|---|---|---|
| ConditionVariable.FlagRemembersNotifications | include/streamfs/ConditionVariableHelper.h:38-66 | In every interleaving of notifiers and one waiter, the flag is set iff a notification came after the last return, and a waiter never sleeps on a set flag without a signal still to come. |
| ConditionVariable.ReturnMeansNotified | include/streamfs/ConditionVariableHelper.h:46-66 | A wait without predicate, or with a false one, passes its test iff a notification came since the last return: spurious wake-ups are never taken for one. |
| ConditionVariable.TestReturnsExactly | include/streamfs/ConditionVariableHelper.h:46-57 | A waiter that tests its condition returns iff a notification came since it last returned or its predicate holds, and sleeps otherwise; either way the flag is down. |
| ConditionVariable.TimedWaitSucceedsExactly | include/streamfs/ConditionVariableHelper.h:59-66 | The timed wait reports success, even at its timeout, under the same condition. |
| ConditionVariable.SignalsAreOwed | include/streamfs/ConditionVariableHelper.h:38-44 | A notification is possible at any time and sets the flag; the signals to come are those of the flags set and not yet followed by one. |
| ConditionVariable.NotificationIsNeverLost | include/streamfs/ConditionVariableHelper.h:23-31 | A notification sent before or during a wait ends it: the next test passes, and a sleeper has a signal coming that wakes it to that test. |
| ConditionVariable.RefinesAtomicNotify | include/streamfs/ConditionVariableHelper.h:38-66 | Every run with the two-step `notifyOne` is, under an abstraction, a run of the machine in which it is one step; the throttle machine uses the latter. |
| ThrottleCall.LeavesLoopOnlyReleased | src/BufferPoolThrottle.cpp:141-145 | No step of any thread takes a reader out of the waiting loop unless the index has passed its position or throttling has stopped. |
| ThrottleCall.LiveCall | src/BufferPoolThrottle.cpp:107-118 | A call with throttling disabled or the position within 10 of the newest (as an unsigned difference) keeps the position, stops throttling and returns, and changes nothing else. |
| ThrottleCall.CallWithinBudget | src/BufferPoolThrottle.cpp:120-151 | Any other of the first 29 calls counts, keeps the position and returns. |
| ThrottleCall.LastCallOfBudget | src/BufferPoolThrottle.cpp:146-151 | The 30th sets the throttle index too, and the counter to 31. |
| ThrottleCall.StartingCall | src/BufferPoolThrottle.cpp:126-131 | After them, a call that finds throttling stopped starts it at its position, notifies, and enters the loop. |
| ThrottleCall.RunningCall | src/BufferPoolThrottle.cpp:132-141 | One that finds it running moves the index to its position and starts the budget anew iff it is more than 10 away from the last, and enters the loop either way. |
| ThrottleCall.RunningChangesExactly | src/BufferPoolThrottle.cpp:99-257 | Which steps of which thread stop throttling, and which start it. |
| ThrottleCall.TimesOutExactly | src/BufferPoolThrottle.cpp:223-226 | The throttle thread gives up on a period iff its timed wait ends with none at the index and none announced. |
| ThrottleCall.StopsIdleExactly | src/BufferPoolThrottle.cpp:242-257 | In every run it stops an idle throttling at the end of a turn iff more than 100 ticks in a row, counted in 16 bits, found the position kept at the end of the turn before. |
| ThrottleCall.ClearsStartOver | src/BufferPoolThrottle.cpp:154-182 | A clear leaves the memory of a new throttle; a truncation stops it, resets index and budget, keeps the positions and the periods through the last read one; on an empty ring it does nothing. |
| ThrottleCall.NewestPeriod | src/BufferPoolThrottle.cpp:71-90 | A lap below 500 microseconds is registered as 0, and any other without 500. |
| ThrottleCall.StepsUseConditionVariables | src/BufferPoolThrottle.cpp:138-231 | Every step of the machine is on each of the three condition variables a step of the helper, with the source's predicate, or none. |
| ThrottleWakeUp.RunKeepsNoLostWakeUp | src/BufferPoolThrottle.cpp:99-152 | The invariant over the program counters of all threads: no sleeper on `mCvThrottleChanged` or `mCvStartThrottle` has missed its wake-up, in any run. |
| ThrottleWakeUp.SleepingReaderIsServed | src/BufferPoolThrottle.cpp:138-145 | In every reachable state, a reader asleep though it may go on is one step from being notified, and while it sleeps for a reason the throttle thread is not asleep waiting to be started. |
| ThrottleWakeUp.ReleasedReaderLeaves | src/BufferPoolThrottle.cpp:141-145 | That notification and two steps of its own bring a released reader out of the waiting loop. |
| ThrottleWakeUp.PushNeverReleases | src/BufferPoolThrottle.cpp:85-91 | No push, rotating or not, makes the reader's condition true, so the producer owes it no notification. |
| ThrottleWakeUp.PushUndoesReleaseExactly | src/BufferPoolThrottle.cpp:85-88 | A push takes a release back iff it rotates while the reader is on the oldest chunk and the index just past it (both decrements stop at 0). |
| ThrottleWakeUp.OversleepsExactly | src/BufferPoolThrottle.cpp:120-150 | A step makes the throttle thread sleep on for a new period although there is one to fetch iff it stores an index that points into the periods, with no push about to notify. |
| ThrottleWakeUp.RunOversleepsExactly | src/BufferPoolThrottle.cpp:215-229 | A run has a state in which the throttle thread sleeps on data iff it has such a store during the sleep, with no push about to notify. |
| Oversleep.OversleepIsReachable | src/BufferPoolThrottle.cpp:99-152 | A run from the start: twelve pushes, the read-ahead budget, a throttled read and a read at the live position; a jump back to the first chunk then leaves the throttle thread asleep on data. |
| ThrottleRelease.ReleasedWithinTicks | src/BufferPoolThrottle.cpp:141-145 | A reader stays blocked through at most `mPos - mThrottleIndex` and at most IDLE_LIMIT_COUNT + 2 fetched ticks, whatever is pushed meanwhile. |
| ThrottleRelease.StepLowersRanks | src/BufferPoolThrottle.cpp:230-257 | The ranking step: every tick lowers both the distance to the index and the ticks left to the idle counter, and no other step of any thread raises either. |
| ThrottleRelease.ReleasedWithinSteps | src/BufferPoolThrottle.cpp:188-260 | While the reader is blocked, the throttle thread makes at most a ranked number of steps, plus 21 for every push announced to it and one for every spurious wake-up. |
| ThrottleRelease.StepRankIsBounded | src/BufferPoolThrottle.cpp:188-260 | That rank is below a constant, however far the reader is ahead. |
| ThrottleRelease.BlockedReaderIsNeverStuck | src/BufferPoolThrottle.cpp:188-229 | In every reachable state with a blocked reader the throttle thread has a step it can make, be it the timeout. |
| ThrottlePace.TimeIsConserved | src/BufferPoolThrottle.cpp:71-92 | From any state, with or without a tick in flight, until the index is next stored: time slept, plus the tick in flight, plus the periods the index passed over because the ring rotated while it stood at 0, is the tick in flight at the start plus the registered periods from there to the index, across all rotations. |
| ThrottlePace.PaceIsKept | src/BufferPoolThrottle.cpp:200-240 | From a state between two ticks, if the ring never rotates with the index at 0, the time slept is exactly the sum of the registered periods from the starting position to the index. |
| ThrottlePace.WaitSleepsThroughTheChunkRead | src/BufferPoolThrottle.cpp:138-151 | So a reader whose next step leaves the waiting loop, while throttling runs, has been delayed by every period from the start of the segment through the chunk it read, a tick in flight at the start standing for the first. |
| ThrottlePace.StartingWaitSleepsItsChunk | src/BufferPoolThrottle.cpp:126-151 | The call of `wait` that starts or moves the throttle leaves the loop with throttling running only after every period from its own chunk on has been slept, or, with a tick in flight, that tick and every period from the next chunk on; without rotation at index 0, whatever was pushed meanwhile. |
| ThrottlePace.TickInFlightReleasesSeek | src/BufferPoolThrottle.cpp:132-145 | After a seek with a tick in flight, the end of that tick alone releases the reader. |
| ThrottlePace.ChunkReadAdvances | src/BufferPoolThrottle.cpp:85-92 | Between two calls of `setReadPosition`, the chunk at the read position changes only forward, although the ring rotates underneath it. |
| ThrottlePace.SleptInOrder | src/BufferPoolThrottle.cpp:200-240 | The absolute positions slept within a segment strictly increase, even when the ring rotates under an index that stands at 0. |
| ThrottleBudget.FirstReadsNeverBlock | src/BufferPoolThrottle.cpp:120-150 | In every run the counter stays within READ_AHEAD_COUNT + 1, and the first READ_AHEAD_COUNT eligible calls after a reset never reach the part that can block. |
| ThrottleBudget.NextReadMayBlock | src/BufferPoolThrottle.cpp:120-126 | An eligible call heads for the blocking part iff READ_AHEAD_COUNT eligible calls went before it, however many live ones came between. |
| BufferPoolThrottle.BufferPoolThrottle.constructor | src/BufferPoolThrottle.cpp:27-37 | The initial memory of the machine. |
| BufferPoolThrottle.BufferPoolThrottle.RegisterTimePeriod | src/BufferPoolThrottle.cpp:71-92 | On the ring array: the machine's registration. The newest period is 0 for the first call after a start or a clear and for a lap below 500 microseconds, and else the lap less 500. |
| BufferPoolThrottle.BufferPoolThrottle.SetReadPosition | src/BufferPoolThrottle.cpp:94-97 | Only the read position changes. |
| BufferPoolThrottle.BufferPoolThrottle.Clear | src/BufferPoolThrottle.cpp:154-163 | The machine's clear. |
| BufferPoolThrottle.BufferPoolThrottle.ClearToLastRead | src/BufferPoolThrottle.cpp:165-182 | The machine's truncation, which on an empty ring resets nothing. |
| BufferPoolThrottle.BufferPoolThrottle.Fetch | src/BufferPoolThrottle.cpp:207-213 | Finds the period at the index iff the index is within the ring's contents. |
| CircularBuffer.Ring.PushBack | src/BufferPool.cpp:215 | The contents, oldest first, gain the element; a full ring loses its oldest. |
| CircularBuffer.Ring.At | src/BufferPool.cpp:171 | The i-th oldest element, wherever the head has wandered. |
| CircularBuffer.Ring.EraseEnd | src/BufferPool.cpp:244 | The newest n elements go. |
| Chunks.SliceTakesFromChunk | src/BufferPool.cpp:157-173 | A slice of the byte stream grows by whole pieces of one chunk: what one memcpy of the copy loop appends. |
| PoolWindow.PaddingIsExact | src/BufferPool.cpp:185-188 | For all offsets and sizes the paddings cut the range exactly out of whole chunks: left + size + right is `length` chunks, and chunk `offset` plus left is the byte offset. |
| PoolWindow.ReadEntersExactly | src/BufferPool.cpp:79-108 | In bytes: `readRandomAccess` is refused iff its range starts behind the end (or at it, when the stream is complete), or further back than the capacity, or spans more chunks than it; and waits iff chunks of it have yet to come. |
| PoolWindow.OutOfReachReadsNothing | src/BufferPool.cpp:83-105 | A refused read, in particular one at or past the end of a complete stream, returns 0 and changes nothing, whatever arrives. |
| PoolWindow.EmptyRingReadsNothing | src/BufferPool.cpp:133-137 | So does a copy that finds the ring empty. |
| PoolWindow.CrossedPaddingsExactly | src/BufferPool.cpp:89-94 | The check of the paddings lets two through that cross in a single chunk; the copy is then in bounds iff that chunk is the only one of a complete stream and its clipped bytes fit. |
| PoolWindow.WaitEndsExactly | src/BufferPool.cpp:107-126 | A waiting read goes on iff its chunks arrive or the last buffer does, and nobody aborts; and it leaves the abort flag down. |
| PoolWindow.AbortEndsOneRead | src/BufferPool.cpp:119-123 | An abort makes one waiting read return 0; the next one gets the chunks that arrive. |
| PoolWindow.TruncationEndsAbort | src/BufferPool.cpp:237-247 | A truncation takes the abort flag down unless the ring is empty. |
| PoolWindow.ClearedReadsAsNew | src/BufferPool.cpp:193-203 | After a clear, even of a complete stream, every read is answered as by a new pool. |
| PoolWindow.DefinedMeansInWindow | src/BufferPool.cpp:143-174 | Every index and copy of the loop is in bounds iff the first and last chunk are in the ring and, for a single chunk, its paddings do not cross. |
| PoolWindow.ItemsAreSlice | src/BufferPool.cpp:143-174 | What the copy loop puts out is a slice of the stream, from the requested byte on and of the copied length. |
| PoolWindow.DestinationSuffices | src/BufferPool.cpp:157-173 | A destination for the unclipped request has room for every prefix of the copy, clipped or not. |
| PoolWindow.ReadKeepsItsPlace | src/BufferPool.cpp:163-174 | A read that copies leaves the ring position of its last chunk as the last read location, any other read leaves it alone, and none moves stream or window. |
| PoolWindow.ResidentMeansInWindow | src/BufferPool.cpp:96-113 | A non-empty byte range can be copied iff all of its bytes are in the ring, and then no check refuses it or makes it wait. |
| PoolWindow.ResidentIsRead | src/BufferPool.cpp:129-190 | A resident range before the marked end is put out at once and whole: exactly the stream's bytes, empty and single-chunk ranges included. |
| PoolWindow.UndisturbedAnswer | src/BufferPool.cpp:67-190 | With nothing arriving meanwhile, the count is `size` and the destination starts with the stream's bytes; and no read that returns leaves more than another last read location and a lowered abort flag. |
| PoolWindow.ArrivedIsRead | src/BufferPool.cpp:129-190 | A copy whose chunks have all arrived and whose first is within the capacity of the end returns the range whole, however the chunks came. |
| PoolWindow.ClippedExactly | src/BufferPool.cpp:157-161 | After the last buffer, the count is clipped to the end of the stream iff the range is empty, or ends before the end, or starts in chunk 0 of a stream of two chunks or more (or at byte 0, or with an empty last buffer). |
| PoolWindow.ClippedRead | src/BufferPool.cpp:143-181 | A read from chunk 0 (of two or more, or from byte 0) puts out exactly the stream's bytes up to the marked end. |
| PoolWindow.UnclippedRead | src/BufferPool.cpp:159-161 | A concrete read of the last chunk that returns 9024 bytes although the last buffer holds 20. |
| PoolWindow.GuardIsExact | src/BufferPool.cpp:96-98 | The position guard admits exactly the resident positions and the end iff the window starts at the start of the stream or fills the ring. |
| PoolWindow.CopyStaysInWindowExactly | src/BufferPool.cpp:96-174 | Every read that goes on to its copy, at once or after a wait, with an exact guard at its checks: all its indices are inside the ring iff the stream, at the copy, has not grown by more than the capacity past the read's first chunk (and holds the whole read, which only the mark of a last buffer can prevent). Pushes may come during the wait and between checks and copy. |
| PoolWindow.UndisturbedReadsAreSafeExactly | src/BufferPool.cpp:96-174 | With nothing pushed meanwhile and before a last buffer, every `readRandomAccess` that the checks let through indexes inside the ring iff the guard is exact. |
| PoolWindow.OnlyResidentIsRead | src/BufferPool.cpp:96-126 | And it is let through iff all its bytes are in the ring. |
| PoolWindow.OvertakenRead | src/BufferPool.cpp:96-131 | A concrete read of the oldest chunk, let through at once, that one push before its copy takes out of the ring. |
| PoolWindow.ChangeKeepsGuardExactly | src/BufferPool.cpp:193-252 | Of pushes, aborts, reads, clears and truncations, only a truncation makes an exact guard inexact, and iff it cuts chunks off a ring whose window has left the start of the stream. |
| PoolWindow.RunKeepsGuardExact | src/BufferPool.cpp:193-252 | Over every run without such a truncation the guard stays exact. |
| PoolWindow.OverwrittenChunkIsAdmitted | src/BufferPool.cpp:240-246 | A run from a new pool of two: three pushes, a read of chunk 1, a truncation; then a read of the overwritten chunk 0 is let through at once. |
| PoolWindow.PushesRestoreGuard | src/BufferPool.cpp:240-246 | Whatever truncation has done to it, as many pushes as the ring has free places make it exact again. |
| PoolWindow.AdmittedReadIsExact | src/BufferPool.cpp:107-190 | Within that bound `readRandomAccess`, ready or blocking, puts out the bytes of the positions it asked for, up to a last buffer, although chunks were pushed during the wait and between checks and copy. |
| PoolWindow.ArrivalsExtend | src/BufferPool.cpp:206-222 | Over any run of pushes: the stream only grows at its end, and the window moves no further than the capacity forces it. |
| PoolWindow.WindowMovesByRotations | src/BufferPool.cpp:206-247 | Over any run of pushes, reads and truncations the window's base advances by exactly the rotating pushes. |
| PoolWindow.ChunkReadStays | src/BufferPool.cpp:240-246 | Over any run of pushes and truncations, nothing up to the last read location is cut off. |
| PoolWindow.TruncationKeepsTheChunkRead | src/BufferPool.cpp:240-246 | With r the last chunk read, `clearToLastRead` leaves the stream ending at r + 1 + the rotations since, and drops nothing resident up to r, whatever pushes and truncations came between. |
| PoolWindow.UnreadChunkIsKept | src/BufferPool.cpp:240-246 | A run from a new pool of two: chunk 0 is read, a third push rotates the ring, and a truncation leaves the unread chunk 1. |
| BufferPool.BufferPool.constructor | src/BufferPool.cpp:32-48 | The initial pool. |
| BufferPool.BufferPool.PushBuffer | src/BufferPool.cpp:206-225 | The ring array follows the window over the stream; the consumer is handed the oldest resident chunk. |
| BufferPool.BufferPool.Clear | src/BufferPool.cpp:193-203 | The emptied stream, with the last read location as it was. |
| BufferPool.BufferPool.ClearToLastRead | src/BufferPool.cpp:233-252 | The truncated stream; on an empty ring nothing, not even the abort flag. |
| BufferPool.BufferPool.Locate | src/BufferPool.cpp:145-172 | The ring position computed by the code's own formula is that of the requested chunk, and is in bounds iff the chunk is resident. |
| BufferPool.BufferPool.CopyItems | src/BufferPool.cpp:143-174 | The copy loop writes the pieces of the requested chunks one after the other over the front of the destination, leaves the rest of it, and stops iff the next index is out of bounds. |
| BufferPool.BufferPool.Await | src/BufferPool.cpp:79-126 | The refusals, the wait with whatever arrives during it, the timeout and the abort. |
| BufferPool.BufferPool.Read | src/BufferPool.cpp:67-181 | Reads that are refused, time out or are aborted return 0 and write nothing; others return and write exactly the stream's bytes as the pool stands at the copy, or are undefined iff a chunk is outside the window then. |
| BufferPool.BufferPool.ReadRandomAccess | src/BufferPool.cpp:184-190 | The same for a byte range, with a destination of just `size` bytes. |
| BufferPool.BufferPool.ReadUndisturbed | src/BufferPool.cpp:67-190 | With no other thread at work: a resident range before the marked end comes back whole, with the stream's bytes; a read that is refused or waits in vain returns 0 and writes nothing; and no read that returns changes more than the last read location and the abort flag. |
| SampleProducer.HoldsMore | sample/SamplePlugin.cpp:110-115 | Bytes put into the buffer keep sent chunks and buffer equal, byte by byte, to what was written. |
| SampleProducer.FullBufferIsSent | sample/SamplePlugin.cpp:117-120 | So does sending a full buffer and starting over. |
| SampleProducer.ClosedSpells | sample/SamplePlugin.cpp:86 | With the unfinished buffer sent as the last one, chunks and last size give the written bytes, all of them and no more. |
| SampleProducer.SampleProducer.Write | sample/SamplePlugin.cpp:104-125 | For any size: every byte is taken once and in order, chunks and temporary buffer together hold all that was ever written, and the buffer is never left full. |
| SampleProducer.SampleProducer.Fill | sample/SamplePlugin.cpp:110-115 | The memcpy into the temporary buffer appends to what is pending. |
| SampleProducer.SampleProducer.Flush | sample/SamplePlugin.cpp:86 | One more chunk, marked as the last with the pending bytes as its size. |
| SampleProducer.SampleProducer.Read | sample/SamplePlugin.cpp:192-210 | End to end: after any writes, flushed or not, a range of the written bytes that lies within what was pushed and whose first chunk is still in the ring is returned whole, as it was written. Before the flush every other read returns 0 and writes nothing, and after it every read behind the last chunk. |
| SampleProducer.SampleProducer.ReadWhileWriting | sample/SamplePlugin.cpp:104-210 | End to end with a writer at work during the wait and between checks and copy: which reads are admitted, and that an admitted one returns the written bytes it asked for, also those written after the call, if the stream has not outgrown the capacity past its first chunk, and is undefined otherwise. |
| Lockstep.Start | src/BufferPool.cpp:32-47 | A new pool and its throttle agree. |
| Lockstep.StepPartsExactly | src/BufferPool.cpp:129-252 | With registration and append as two steps, and the pool's and the throttle's part of the clears as two steps: a step of any thread makes the two sides disagree, on the stretch of the stream they hold or on the read position, iff it is one of the listed ones. |
| Lockstep.RunKeepsLockstep | src/BufferPool.cpp:129-252 | Along every run without those steps both rings hold the same stretch, the throttle one chunk ahead while a push is half done, and both sides the same read position. |
| Lockstep.RegisterPartsExactly | src/BufferPoolThrottle.cpp:85-91 | A registration parts them iff it rotates the ring inside `wait` off the oldest chunk, or comes between the two parts of a clear, or between those of a truncation that then cuts it off again. |
| Lockstep.OwingCutPartsExactly | src/BufferPool.cpp:206-252 | A truncation inside a push parts them iff the pool is not empty and the throttle would cut a period off. |
| Lockstep.RotationInsideWaitParts | src/BufferPoolThrottle.cpp:85-88 | A run from the start: two pushes into rings of two, a read of the second chunk, and a third registration inside its `wait`. |
| Lockstep.CutInsidePushParts | src/BufferPool.cpp:211-251 | A run from the start: a truncation inside the second push into rings of four leaves two chunks and one period. |
| Lockstep.ClearAfterReadParts | src/BufferPool.cpp:193-203 | A run from the start: a clear after a read of the second chunk. |
| Lockstep.EmptyReadParts | src/BufferPool.cpp:143-180 | A run from the start: a third push after that read, and an empty read. |
| Lockstep.ClearPartsExactly | src/BufferPool.cpp:193-203 | `clear` parts them iff the last read was not at location 0 or a push is half done. |
| Lockstep.ReadRestoresLockstep | src/BufferPool.cpp:163-178 | The next read of a chunk restores agreement on the position, whatever it was. |
| PollTable.PollInCharacterised | src/fuse/IFuse.cpp:397-402 | Over every trace: a registration is given POLLIN iff the client has no short read (0 <= result < size) later than both its last other read and the last notification of a file for which it then held a handle. |
| PollTable.PollInAfterRead | src/fuse/IFuse.cpp:278-281 | Right after a read, POLLIN is given iff that read was an error or filled the buffer. |
| PollTable.AnonymousChangesNothing | src/fuse/IFuse.cpp:368-378 | Without a context, or with a null handle, nothing changes and no POLLIN is given. |
| PollTable.RegisterReplaces | src/fuse/IFuse.cpp:380-395 | Any other registration is held, destroys the handle it replaces without a notification, and touches nothing else. |
| PollTable.EofMeansExhausted | src/fuse/IFuse.cpp:278-281 | The end-of-file flag of a client is that property of the trace. |
| PollTable.HeldMeansHoldsAt | src/fuse/IFuse.cpp:382-395 | A client holds a handle for a file iff it has registered for it since the file's last notification. |
| PollTable.HandlesAreConserved | src/fuse/IFuse.cpp:382-430 | For every handle, destructions plus one if it is held now equal its registrations, and it is held under at most one file and client; an address may be registered again once it is no longer held. |
| PollTable.OwnHandlesAreFree | src/fuse/IFuse.cpp:382-430 | The condition holds when every registration brings a handle of its own; so each is then destroyed once or held, never both and never lost. |
| PollTable.NotifyAccounts | src/fuse/IFuse.cpp:413-431 | A notification wakes and destroys exactly its own file's handles, each once, and moves no other. |
| PollTable.NotifyOneFirst | src/fuse/IFuse.cpp:420-430 | The erase loop may take the clients in any order. |
| PollTable.Poll.ReadCallback | src/fuse/IFuse.cpp:271-282 | Sets the client's flag by the unsigned comparison, under which an error code is not short. |
| PollTable.Poll.RegisterPoll | src/fuse/IFuse.cpp:362-403 | Destroying and erasing on a copied inner map and assigning in the real one amounts to replacing the handle in place; the answer is the table's. |
| PollTable.Poll.NotifyPoll | src/fuse/IFuse.cpp:405-433 | The erase loop, in whatever order, empties the file's clients, clears their flags, and wakes and destroys their handles. |
| BufferQueue.RunKeepsQueue | include/streamfs/BufferQueue.h:51-97 | For any use: consumed followed by queue contents is what was queued, in order, and likewise acquired and released; no queue outgrows the depth; a thread asleep though its condition holds has a `notify_all` still to come. |
| BufferQueue.NotifyAllWakes | include/streamfs/BufferQueue.h:55-96 | A `notify_all` wakes every thread asleep at its side and changes nothing else. |
| BufferQueue.TimedOutConsume | include/streamfs/BufferQueue.h:77-88 | A timed `consume` whose time is over takes the next buffer if there is one and otherwise changes nothing. |
| BufferQueue.RunKeepsCirculation | include/streamfs/BufferQueue.h:51-113 | With at most `mMaxDepth` buffers and clients that pass on what they hold, each buffer is in exactly one of four places in every state, and only takers ever sleep. |
| BufferQueue.GiversNeverWait | include/streamfs/BufferQueue.h:51-57 | Neither `queue` nor `release` ever finds its queue full. |
| BufferQueue.SomeOperationIsOpen | include/streamfs/BufferQueue.h:51-97 | With at least one buffer, a client that acquires and one that consumes, some thread is entitled to an operation whose condition holds, and is awake or has a `notify_all` coming. |
| BufferQueue.NeverStuck | include/streamfs/BufferQueue.h:59-75 | A producer asleep at one end and a consumer at the other: then an awake thread holds a buffer or is about to notify. |
| BufferQueue.NewQueueCirculates | include/streamfs/BufferQueue.h:47-97 | All of this from a new queue into which one thread releases the buffers. |
| BufferQueue.BufferQueue.Queue | include/streamfs/BufferQueue.h:51-57 | The critical section is the machine's step, and passes iff there is room. |
| BufferQueue.BufferQueue.Acquire | include/streamfs/BufferQueue.h:59-66 | The critical section is the machine's step, and hands the oldest free buffer to the caller. |
| BufferQueue.BufferQueue.Consume | include/streamfs/BufferQueue.h:68-88 | The critical section of both forms is the machine's step, and hands over the next queued buffer. |
| BufferQueue.BufferQueue.Release | include/streamfs/BufferQueue.h:91-97 | The critical section is the machine's step, and passes iff there is room. |

## Left out

- `wait` and `throttleLoop` are step machines, not methods: their steps interleave with the other threads, which a sequential method cannot express. Only the sections under the throttle's mutex are methods.
- Step size of the throttle: the two decrements in `registerTimePeriod`, each load followed by a store (`mThrottleIndex.store(mPos.load())`, `mLastPos.store(mPos.load())`), and each evaluation of a condition over several fields are one step. So a reader that looks between the two decrements, or that loads `mPos` before a rotating registration and `mThrottleIndex` after it, is not modelled; either can read the condition of `wait` as false in a released state. `mMutexTimePeriodBuffer` is not modelled where it only forbids interleavings.
- `abs(mPos - mLastPos)` is the distance of two naturals.
- Widths: `uint64_t` positions and counts, the `uint32_t` lap time and the `int off` of `read` are unbounded; the unsigned differences that can go below zero (`size() - mPos`, the size of a chunk without its paddings, the 16-bit idle count, `result < size`) wrap as in the source.
- Time is a natural number per lap and per sleep; a timed wait may time out at any moment, and in the pool it has timed out when its condition is false after all that arrived.
- A ring of capacity 0: `pushBuffer` takes the front of an empty ring there, which is undefined.
- Destruction: `mExitRequested`, `exitPending` and stopping the producer on an abort.
- A `clear` or `clearToLastRead` of the throttle while its reader is inside `wait`: the header allows them to the consumer thread alone.
- Pool and throttle as one object: the `BufferPool` class does not call the throttle; the two are composed in `Lockstep`. There a read copies and sets its last position in one step, not one position per chunk: the copy holds the mutex of the append, and a registration in the midst of it is as one before it. A read that leaves the ring is not a step there.
- BufferPool.BufferPool.Read: that a waiting read is woken promptly is not claimed, because the producer notifies without the reader's mutex.
- `mReadEnd`, which is written and never read, and the logging.
- The consumer's `newBufferAvailable` is the returned front chunk; what a plugin does with it is its own.
- PollTable.Poll.NotifyPoll: the order in which handles are woken and destroyed, and the result of `fuse_notify_poll`, which is only logged.
- Path parsing, provider and node lookup, `getattr`, `readdir`, the debug and dump files: the poll model takes the resolved file and client as inputs.
- `BufferQueue::clear`, which takes one of the two mutexes and empties both queues.
- `MessageQueue`, `PluginService`, the file reader and the download of the sample plugin, plugin loading, allocator and thread priority: forwarding or platform calls.
