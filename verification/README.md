# A verified model of the reactor and its HTTP/FastCGI front end

The repository is a reactor-style network library with an HTTP and FastCGI front end. This project models its calendar
and time zones, its monitors and the protocols between threads, the timer queue, the output side of a connection, the byte
buffer, the poller, the HTTP parser, the FastCGI records and the formatting of integers, and proves what they promise.

Each module stands for one source file or one part of it. Where the source computes a value, the model is a function. Where it
updates fields, buffers or containers in place, the model is a class whose methods are proved to do one step of a state
machine written on values; the state machine, with any number of threads and any order of steps, is where invariants over all
runs are proved (`RunKeepsInv` in several modules). A step is one critical section, or one stretch of code that no
other thread observes; `Enabled` says when it can happen. The results of system calls are arguments, constrained only by
what the call promises.

| module | what it models |
|---|---|
| `Date`, `UtcTime`, `TimeZone`, `CMath` | day numbers, UTC and local time, C's division |
| `Monitor`, `BoundedBlockingQueue`, `ThreadPool` | monitors with waiting and woken threads, spurious wakeups, barging |
| `EventLoop`, `AsyncLogging` | functor queue and eventfd; double buffering of log lines |
| `TimerQueue`, `Poller` | timers, timerfd; slots, channels and `poll` |
| `NetBuffer`, `NetworkOrder`, `Text`, `TcpConnection` | the byte buffer, big-endian integers, searches, the output side of a connection |
| `HttpMessage`, `HttpParser`, `HttpSplit`, `HttpRoundTrip` | requests, the resumable parser, several calls, round trips |
| `FastCgi` | records and name-value pairs of the FastCGI Specification 1.0, sections 3.3, 3.4, 5.1 and 5.2 |
| `DecimalText`, `LogStream` | decimal text, `convert`, `FixedBuffer` |
| `Wrappers` | values that may be missing |

## Where the code falls short of what one would expect

The model keeps the code as it is.

- Local time does not always convert back. It does exactly when the moment is not in the first pass of a repeated interval, or
  the clock was set back by one hour from daylight saving time to standard time (`TimeZone.LocalRoundTrip`,
  `TimeZone.AlwaysInvertible`; `TimeZone.StandardTimeChangeIsNotInvertible` is an actual zone).
- `weekDay()` is negative for most days before day number -1 (`Date.WeekDayInRange`, `Date.WeekDayOutOfRange`), and
  `tm_yday` is wrong in the calendar's first year (`UtcTime.DayOfYearCountsFromNewYear`, `UtcTime.DayOfYearAtCalendarStart`).
- A bounded queue of capacity 0 lets nothing through, and blocks one taker and one putter for good
  (`BoundedBlockingQueue.NothingPassesWithoutCapacity`, `BoundedBlockingQueue.StuckWithoutCapacity`).
- A timer that an earlier callback of the running batch has cancelled is still called in that batch, though in no later one
  (`TimerQueue.CalledAfterCancelOnlyInItsBatch`).
- A functor that the loop's own thread queues before `loop()` leaves the first poll asleep, unless another thread queues one
  or quits (`EventLoop.FirstPollSleepsExactlyWhen`; `EventLoop.EarlyFunctorWaits` is a run), and `loop()` forgets every
  `quit()` that came before it (`EventLoop.EarlyQuitIsForgotten`; `EventLoop.ForgottenQuit` is a run).
- A channel that has once disabled all events is ignored by `poll` until it is removed, even when it enables events again, and
  a removed channel cannot be added again (`Poller.IgnoredExactlyWhenDisabled`, `Poller.Poller.RemoveChannel`).
- The body of an HTTP request stays in the buffer (`HttpRoundTrip.BodyIsNotRetrieved`, `HttpRoundTrip.SampleBodyStays`), and a call that resumes inside a body
  depends on an uninitialised variable (`HttpSplit.SplitInBody`, `HttpRoundTrip.BodyInTwoCalls`; `HttpRoundTrip.BodyInTwoCallsDiffers`
  is a run). So a body is sure to be taken exactly when no call but the last ends in it
  (`HttpRoundTrip.ChunkedBodyRoundTripExactly`).
- A `Content-Length` that is negative counts as 2^64 more, so that the parser waits for bytes that never come
  (`HttpRoundTrip.ContentLengthDecides`).
- Any line without a colon ends the headers (`HttpRoundTrip.HeadersEndAtColonlessLine`, `HttpRoundTrip.LateFieldIsLeft`). After a refused request the method stays set when it was a known one, and
  then the assertion in `setMethod` fails on the next call (`HttpParser.RefusedRequestKeepsMethod`, `HttpParser.RefusedRequestWithMethod`).
- `ParseFromPhp` takes 8 bytes for an END_REQUEST whatever its header says (`FastCgi.EndRequestLeftover`,
  `FastCgi.PaddedEndIsLeftOver`), and only the header of a record of an unknown kind (`FastCgi.OtherKindLeftover`). The loop
  around it fails an assertion when a record's header but not all of it has arrived (`FastCgi.PartialStream`,
  `FastCgi.SplitRecordFails`). Request ids come back only below 65536 (`FastCgi.RequestIdRoundTrip`).

## Model

| member | source | states |
|---|---|---|
| Date.IntermediatesFit | base/Date.cc:29-42 | the intermediate values of getYearMonthDay fit a 32-bit int exactly up to the day number LAST_DAY |
| Date.JulianDayCountsDays | base/Date.cc:20-27 | the day number counts the days of the Gregorian calendar, with its 4/100/400 leap rule |
| Date.NextDayIsPlusOne | base/Date.cc:20-27 | the next calendar day has the next number |
| Date.DayNumberOrdersDates | base/Date.cc:20-27 | earlier dates have smaller numbers, so no two dates share one |
| Date.DayNumberRoundTrip | base/Date.cc:20-42 | every day number from -32044 on is that of a valid date, which getYearMonthDay returns |
| Date.DateRoundTrip | base/Date.cc:20-42 | every valid date maps to a number that maps back to it |
| Date.EpochDay | base/Date.cc:44 | the constant for 1 January 1970 is the number of that date |
| Date.WeekDayCycles | base/Date.h:95-99 | the weekday advances by one each day from a known Thursday |
| Date.WeekDayInRange | base/Date.h:95-99 | the weekday is one of 0 to 6 exactly from day -1 on and on the Sundays before |
| Date.WeekDayOutOfRange | base/Date.h:95-99 | the day before that is the first without a weekday |
| UtcTime.FillHMS | base/TimeZone.cc:71-77 | hours, minutes and seconds are in range and add up to the second of the day |
| UtcTime.ToUtcTime | base/TimeZone.cc:317-343 | computes the specification function UtcOf, whose properties follow |
| UtcTime.UtcRoundTrip | base/TimeZone.cc:317-358 | fromUtcTime undoes toUtcTime at every time in the calendar's range, before the epoch too |
| UtcTime.UtcFieldsValid | base/TimeZone.cc:317-343 | toUtcTime yields a valid date and time of day, the weekday of that date, no offset, no daylight saving time, and without the flag no day of the year |
| UtcTime.FromUtcRoundTrip | base/TimeZone.cc:317-358 | toUtcTime undoes fromUtcTime on every valid date and time of day |
| UtcTime.DayOfYearCountsFromNewYear | base/TimeZone.cc:337-341 | tm_yday counts the days since 1 January exactly from 306 days after the calendar's first day on, which is the first day of its second year |
| UtcTime.DayOfYearAtCalendarStart | base/TimeZone.cc:337-341 | a time at which it does not |
| TimeZone.LowerBound | base/TimeZone.cc:229-232 | the binary search finds the first transition not before the key |
| TimeZone.FindLocaltime | base/TimeZone.cc:218-250 | by UTC or by local time, the row found is that of the last transition at or before the key, or the first row |
| TimeZone.ToLocalTime | base/TimeZone.cc:272-292 | computes the specification function LocalOf, whose fields LocalIsShiftedUtc describes |
| TimeZone.LocalIsShiftedUtc | base/TimeZone.cc:272-292 | the local time less the offset it reports is the moment; offset and flag are those of the row of the last transition at or before it, or of the first row; weekday and day of the year are those of the local date |
| TimeZone.FromLocalTime | base/TimeZone.cc:294-315 | computes the specification function FromLocalOf, with the one-hour correction |
| TimeZone.SpacedIsSorted | base/TimeZone.cc:34-58 | a table whose repeated intervals do not overlap is sorted by local time as well, as the second search needs |
| TimeZone.LocalSegment | base/TimeZone.cc:294-315 | local clock time leads to the transition in force, or in a first pass to the next one |
| TimeZone.LocalRoundTrip | base/TimeZone.cc:272-315 | a moment survives conversion to local time and back if and only if it is not in a first pass, or the set-back ends daylight saving time by one hour |
| TimeZone.FlaggedReading | base/TimeZone.cc:294-315 | what a local time reads as with either daylight saving flag: the second pass of a repeated interval, and an hour earlier if the flag is set and the row then in force has no daylight saving time |
| TimeZone.SkippedReading | base/TimeZone.cc:294-315 | a local time that a transition skips is read by the offset before it, whatever its flag |
| TimeZone.AlwaysInvertible | base/TimeZone.cc:272-315 | every moment survives if and only if every set-back of the table ends daylight saving time by one hour |
| TimeZone.StandardTimeChangeIsNotInvertible | base/TimeZone.cc:303-313 | a zone that set its standard time back does not convert back |
| BoundedBlockingQueue.RunKeepsInv | base/BoundedBlockingQueue.h:31-55 | in every reachable state waiting takers mean no more items than woken takers, dually for putters, and the items that the run's take calls took out, then the queue, are those its put calls put in, in order |
| BoundedBlockingQueue.WaitingExactly | base/BoundedBlockingQueue.h:31-55 | in every run the threads that wait are those whose call found no item, or no place, and that have not been notified since |
| BoundedBlockingQueue.WokenExactly | base/BoundedBlockingQueue.h:31-55 | the woken threads are those notified while waiting whose call has not gone on since |
| BoundedBlockingQueue.NoLostWakeup | base/BoundedBlockingQueue.h:31-55 | nobody waits beside an item or a free place unless a woken thread is on its way |
| BoundedBlockingQueue.NeverStuck | base/BoundedBlockingQueue.h:31-55 | with capacity, takers and putters are never both blocked with nobody woken |
| BoundedBlockingQueue.NothingPassesWithoutCapacity | base/BoundedBlockingQueue.h:23-55 | without capacity nothing is ever put in or taken out |
| BoundedBlockingQueue.StuckWithoutCapacity | base/BoundedBlockingQueue.h:23-55 | a run without capacity in which both are blocked |
| BoundedBlockingQueue.WokenComeToRest | base/BoundedBlockingQueue.h:31-55 | a measure on threads decreases with every section of a woken thread |
| BoundedBlockingQueue.WokenIsEnabled | base/BoundedBlockingQueue.h:31-55 | a woken thread can always run its section |
| BoundedBlockingQueue.AtRestAllIsServed | base/BoundedBlockingQueue.h:31-55 | at rest a waiting taker means that all items put were taken, a waiting putter that the queue is full |
| BoundedBlockingQueue.BoundedBlockingQueue.Put | base/BoundedBlockingQueue.h:31-41 | one critical section of put is a step of the monitor and ends waiting exactly when the queue is full |
| BoundedBlockingQueue.BoundedBlockingQueue.Take | base/BoundedBlockingQueue.h:43-55 | one critical section of take is a step of the monitor and yields the oldest item, or waits when there is none |
| ThreadPool.RunKeepsInv | base/ThreadPool.cc:71-138 | no wakeup of a worker or a caller is lost, and the tasks that the run's workers started, then the queue, are those its callers had accepted, in order |
| ThreadPool.WaitingExactly | base/ThreadPool.cc:71-132 | in every run the threads that wait are the workers that found no task while the pool ran, and the callers that found no place, that have not been notified since |
| ThreadPool.WokenExactly | base/ThreadPool.cc:53-132 | the woken threads are those notified while waiting, by stop() too, whose call has not gone on since |
| ThreadPool.RunningExactly | base/ThreadPool.cc:31-59 | the pool runs until the first stop() |
| ThreadPool.NoWorkerWaitsAfterStop | base/ThreadPool.cc:53-59 | after stop() no worker waits for a task again |
| ThreadPool.AtRestAllIsStarted | base/ThreadPool.cc:71-138 | with nobody woken, an idle worker means that all accepted tasks were started and no caller waits |
| ThreadPool.ThreadPool.Run | base/ThreadPool.cc:71-89 | without threads the task runs in the caller; otherwise one critical section is a step of the monitor |
| ThreadPool.ThreadPool.Take | base/ThreadPool.cc:113-132 | one critical section is a step; it waits only while running and empty, and returns the oldest task if there is one |
| ThreadPool.ThreadPool.Stop | base/ThreadPool.cc:53-59 | the critical section of stop is a step that wakes every worker |
| EventLoop.NoLostWakeup | net/EventLoop.cc:68-112 | whenever the loop is about to poll with functors pending, the eventfd is readable or another thread is about to write it, unless it is the first poll and all were queued by the loop's thread before loop() |
| EventLoop.SleepsExactlyWhen | net/EventLoop.cc:68-112 | it sleeps beside pending functors if and only if it is in its first poll and no other thread has queued a functor or quit |
| EventLoop.FirstPollSleepsExactlyWhen | net/EventLoop.cc:68-112 | entering loop() does so if and only if its own thread has queued a functor and no other thread has queued one or quit |
| EventLoop.NoEarlyPushNoSleep | net/EventLoop.cc:103-112 | if the loop's thread queues nothing before loop(), no poll sleeps beside pending functors |
| EventLoop.EarlyFunctorWaits | net/EventLoop.cc:103-112 | a run in which a functor queued before loop() leaves the first poll asleep |
| EventLoop.QuitWakesLoop | net/EventLoop.cc:88-93 | while the quit flag is set a poll does not sleep |
| EventLoop.CounterIsUnreadWrites | net/EventLoop.cc:150-164 | on every run the eventfd holds the number of writes since the last handleRead, and poll reports it exactly when there has been one |
| EventLoop.WritersExactly | net/EventLoop.cc:88-112 | on every run the threads that are about to write the eventfd are those that have pushed or quit without having written since, the loop's own only if it pushed while running functors |
| EventLoop.QuitIsSetExactlyWhen | net/EventLoop.cc:68-93 | the quit flag is set if and only if there has been a quit since loop() was entered, or before if none has entered it |
| EventLoop.QuitEndsLoop | net/EventLoop.cc:68-93 | a quit once loop() has been entered stays set, and the loop exits when its turn ends |
| EventLoop.ExitsExactlyWhenQuit | net/EventLoop.cc:68-93 | a turn ends the loop if and only if there has been a quit since it was entered |
| EventLoop.EarlyQuitIsForgotten | net/EventLoop.cc:68-76 | after entering loop() the flag is set if and only if there has been a quit since |
| EventLoop.ForgottenQuit | net/EventLoop.cc:68-93 | a run in which a quit before loop() leaves it asleep |
| EventLoop.PushOrder | net/EventLoop.cc:103-181 | executed, then swapped out, then pending functors are those of the run's push steps in order |
| EventLoop.DrainRunsTheBatch | net/EventLoop.cc:166-181 | a drain runs exactly the functors that were pending at its swap |
| EventLoop.PushedIsRun | net/EventLoop.cc:166-181 | the functors of all push steps before a swap have run, in order, when that drain ends |
| EventLoop.EventLoop.QueueInLoop | net/EventLoop.cc:103-112 | the push is a step, and the caller must write the eventfd exactly when it is another thread or functors are running |
| EventLoop.EventLoop.SwapFunctors | net/EventLoop.cc:166-175 | the swap is a step of the loop |
| EventLoop.EventLoop.RunFunctor | net/EventLoop.cc:177-179 | functors are taken in order |
| AsyncLogging.RunKeepsInv | base/AsyncLogging.cc:29-125 | in every reachable state no assertion of the back end has failed, each buffer has one owner, the file is the text kept and the notices in order, and the text kept or dropped, in flight, queued and current is the lines of the run's append calls that fit a buffer, in order |
| AsyncLogging.OnlyLargeBatchesLose | base/AsyncLogging.cc:87-96 | on every run the text dropped is exactly that of the buffers from the third on of the batches of more than 25, in order, and the notices in the file are exactly those of these batches |
| AsyncLogging.AllKeptExactlyWhenSmall | base/AsyncLogging.cc:87-96 | nothing has been dropped and no notice written if and only if no batch so far had more than 25 buffers |
| AsyncLogging.NothingDropped | base/AsyncLogging.cc:64-125 | until a batch has more than 25 buffers the file followed by what is in flight, queued and current is the lines of the run's append calls in order |
| AsyncLogging.TurnSavesWhatWasAppended | base/AsyncLogging.cc:70-126 | what was appended before a swap has been written or dropped when that turn ends |
| AsyncLogging.BatchIsWhatWasAppended | base/AsyncLogging.cc:29-83 | a batch is exactly what was appended between two swaps, and n buffers of lines that fit hold at least n / 2 buffers' worth of it |
| AsyncLogging.LossNeedsVolume | base/AsyncLogging.cc:29-96 | if the lines fit, text is lost only in a turn before which at least 13 buffers' worth was appended since the swap before |
| AsyncLogging.RunKeepsPacked | base/AsyncLogging.cc:32-49 | on runs whose lines fit, any two neighbours of the queued buffers and the current one hold at least a buffer's worth of text together |
| AsyncLogging.BuffersAreReused | base/AsyncLogging.cc:36-49 | an append makes a new buffer only if there is no recycled one and the line does not fit the current one |
| AsyncLogging.WaitsExactlyWhenNoneQueued | base/AsyncLogging.cc:70-76 | the back end waits exactly when no buffer is queued |
| AsyncLogging.HeadHasNewBuffers | base/AsyncLogging.cc:64-68 | at the loop head both recycled buffers are present and empty, and each has exactly one owner |
| AsyncLogging.AsyncLogging.Append | base/AsyncLogging.cc:29-51 | the front end's critical section is a step of the hand-off, whose effect on all runs the lemmas of this table state |
| AsyncLogging.AsyncLogging.LockBuffers | base/AsyncLogging.cc:70-83 | the back end's critical section is a step that waits exactly when no buffer is queued |
| AsyncLogging.AsyncLogging.CheckBatch | base/AsyncLogging.cc:87-96 | a batch of more than 25 buffers is cut to two, with a notice in the file |
| AsyncLogging.AsyncLogging.RecycleBuffers | base/AsyncLogging.cc:104-124 | recycling is a step: the two new buffers come back empty |
| TimerQueue.HowMuchTimeFromNow | net/TimerQueue.cc:27-39 | the timespec is the distance in microseconds, at least 100, with its nanoseconds in range |
| TimerQueue.RunKeepsInv | net/TimerQueue.cc:102-240 | on every run, with callbacks that add and cancel, the set stays ordered, keys stay expirations, and the alarm stays set |
| TimerQueue.EachTimerOnce | net/TimerQueue.cc:149-240 | no timer occurs twice in the set and the running batch, and each is keyed by its expiration |
| TimerQueue.BatchIsWhatIsDue | net/TimerQueue.cc:170-191 | getExpired takes out exactly the timers due by now, in order |
| TimerQueue.NoneRunsEarly | net/TimerQueue.cc:149-168 | no callback runs before its timer expires |
| TimerQueue.AlarmIsSet | net/TimerQueue.cc:52-63 | outside a batch the timerfd is armed for every timer by its expiration, or 100 microseconds after arming, across adds, cancels, expiry and repeats |
| TimerQueue.AlarmIsForTheFirst | net/TimerQueue.cc:149-228 | the timerfd is only ever armed for the first timer of the set, for its expiration or 100 microseconds from then; a batch reads an alarm that has fired, so that it does not stay readable |
| TimerQueue.CancelledStaysOut | net/TimerQueue.cc:116-139 | a cancelled timer, even one cancelled by its own batch, is never in the set again |
| TimerQueue.BatchBegan | net/TimerQueue.cc:149-168 | a running batch has a step that began it, with no end in between |
| TimerQueue.CancelingExactly | net/TimerQueue.cc:126-133 | the entries reset treats as cancelled are those of the batch whose timers were cancelled since it began |
| TimerQueue.RepeatsAnIntervalLater | net/TimerQueue.cc:193-222 | a timer of a batch is back an interval after the batch began if and only if it repeats and there was no cancel of it since |
| TimerQueue.NoTimerIsLost | net/TimerQueue.cc:102-240 | a timer added and not cancelled since is in the set or the running batch until its callback has been called, and one that repeats for ever |
| TimerQueue.CalledAfterCancelOnlyInItsBatch | net/TimerQueue.cc:116-168 | a cancelled timer is only called in a batch that had begun before the cancel |
| TimerQueue.OneShotIsCalledOnce | net/TimerQueue.cc:149-222 | a timer that does not repeat is called at most once |
| TimerQueue.Timer.Restart | net/Timer.cc:9-19 | a repeating timer expires an interval after now, another becomes invalid |
| TimerQueue.TimerQueue.Insert | net/TimerQueue.cc:224-237 | reports whether the timer is the new earliest one |
| TimerQueue.TimerQueue.AddTimerInLoop | net/TimerQueue.cc:102-114 | is a step of the queue |
| TimerQueue.TimerQueue.CancelInLoop | net/TimerQueue.cc:116-139 | is a step of the queue |
| TimerQueue.TimerQueue.LowerBound | net/TimerQueue.cc:180-185 | the binary search counts the due timers, those due exactly now included |
| TimerQueue.TimerQueue.StartBatch | net/TimerQueue.cc:149-158 | handleRead up to the callbacks is a step of the queue |
| TimerQueue.TimerQueue.RestartExpired | net/TimerQueue.cc:197-210 | the loop of reset updates the timers' expirations and the set together |
| TimerQueue.TimerQueue.FinishBatch | net/TimerQueue.cc:165-222 | handleRead after the callbacks is a step of the queue |
| Poller.RunKeepsInv | net/Poller.cc:52-110 | over any updates, removals and polls, channels and slots are in bijection by descriptor and index, each slot holds its channel's events, and one without events is ignored |
| Poller.UpdateKeepsInv | net/Poller.cc:52-82 | an update keeps this if and only if it is not a first one without events |
| Poller.RemoveKeepsInv | net/Poller.cc:84-110 | swap-and-delete keeps it |
| Poller.IgnoredForGood | net/Poller.cc:66-81 | after any updates a slot is looked at if and only if it was before and no update disabled all events |
| Poller.IgnoredUntilRemoved | net/Poller.cc:66-81 | in every run a disabled channel stays ignored until its removal |
| Poller.IgnoredExactlyWhenDisabled | net/Poller.cc:52-110 | on every run a channel is ignored if and only if it has disabled all its events since its last removal; every other channel's slot holds its descriptor |
| Poller.ChannelsAreThoseAsked | net/Poller.cc:52-110 | on every run the channels are those updated and not removed since, each slot with the events last asked for |
| Poller.ReadySlotsAreReady | net/Poller.cc:32-50 | the scan's slots are all those with events, in order, each once |
| Poller.Poller.UpdateChannel | net/Poller.cc:52-82 | both branches are the step on values, with the source's assertions holding |
| Poller.Poller.RemoveChannel | net/Poller.cc:84-110 | the swap and the back-index are the step on values; the channel's own index stays, so neither it nor one removed before is accepted again, then or after any later update, removal or poll |
| Poller.Poller.FillActiveChannels | net/Poller.cc:32-50 | the early-exit scan lists the channels of the first numEvents ready slots with their events |
| Poller.Poller.Poll | net/Poller.cc:17-30 | given the kernel's count, exactly the ready channels are listed, once each, in slot order |
| NetworkOrder.EncodeRoundTrip | net/Endian.h:22-50 | an integer reads back from its big-endian bytes exactly when it fits the signed type |
| NetworkOrder.DecodeRoundTrip | net/Endian.h:22-50 | bytes read as an integer are written back as the same bytes |
| NetworkOrder.EncodeIsBigEndian | net/Endian.h:22-35 | the k-th byte from the end is the k-th digit of the integer to the base 256 |
| NetBuffer.Buffer.Append | net/Buffer.h:172-177 | concatenates |
| NetBuffer.Buffer.Retrieve | net/Buffer.h:103-114 | drops from the front |
| NetBuffer.Buffer.RetrieveAsString | net/Buffer.h:154-160 | returns what it drops |
| NetBuffer.Buffer.MakeSpace | net/Buffer.h:380-399 | makes room and keeps the content; its assertion holds |
| NetBuffer.Buffer.Prepend | net/Buffer.h:344-350 | puts bytes in front |
| NetBuffer.Buffer.Unwrite | net/Buffer.h:205-209 | drops from the end |
| NetBuffer.Buffer.Shrink | net/Buffer.h:352-359 | keeps the content, with room for reserve bytes |
| NetBuffer.Buffer.FindFirstCRLF | net/Buffer.h:70-75 | finds the first CRLF of the content |
| NetBuffer.Buffer.FindEOL | net/Buffer.h:86-90 | finds the first newline of the content |
| NetBuffer.Buffer.ReadFd | net/Buffer.cc:17-49 | the scatter read appends all that was read, in both segments |
| NetBuffer.IntegerRoundTrip | net/Buffer.h:214-342 | an integer prepended, or appended behind any content and before any other, reads back as written once what stands before it is retrieved, and leaves what stands behind it |
| TcpConnection.RunKeepsInv | net/TcpConnection.cc:98-249 | on every run writing interest is on exactly while output waits, and the write side is shut down at most once, only when drained, and once drained if shutdown was asked for |
| TcpConnection.WireIsWhatWasSent | net/TcpConnection.cc:98-149 | on every run the wire and the output buffer are the data of the sends taken, in order, without those and only those that met a fault |
| TcpConnection.NothingLost | net/TcpConnection.cc:98-149 | the wire and the output buffer are everything accepted if and only if no send met a fault |
| TcpConnection.SilentAfterShutdown | net/TcpConnection.cc:151-170 | no byte is written after the write side was shut down, and it is not shut down again |
| TcpConnection.ConnectedExactlyWhenOpen | net/TcpConnection.cc:151-278 | on every run a connection takes sends exactly between its establishment and the first shutdown() or forceClose() |
| TcpConnection.ShutdownTakesEffect | net/TcpConnection.cc:151-249 | after a shutdown() of an open connection every later send is refused, and the write side is shut down once exactly when nothing waits to be written |
| TcpConnection.StepShutsDown | net/TcpConnection.cc:151-249 | the write side is shut down exactly by a shutdown() that finds nothing waiting, or by the write that drains a disconnecting connection |
| TcpConnection.StepOnlyExtendsWire | net/TcpConnection.cc:98-249 | the wire grows by exactly what the kernel took, and write-complete is queued exactly when an attempt to write leaves nothing waiting |
| TcpConnection.TcpConnection.SendInLoop | net/TcpConnection.cc:98-149 | the partial write and the rest in the buffer are the step on values |
| TcpConnection.TcpConnection.SendBuffer | net/TcpConnection.cc:72-92 | sends the other buffer's content and empties it, if connected |
| TcpConnection.TcpConnection.HandleWrite | net/TcpConnection.cc:221-249 | draining, with the pending shutdown, is the step on values |
| TcpConnection.TcpConnection.Shutdown | net/TcpConnection.cc:151-170 | is the step on values, which ConnectedExactlyWhenOpen, ShutdownTakesEffect and StepShutsDown determine |
| TcpConnection.TcpConnection.ForceClose | net/TcpConnection.cc:270-278 | is the step on values, after which by ConnectedExactlyWhenOpen no send is taken |
| HttpMessage.MethodNames | http/HttpRequest.h:44-102 | method names and methods are inverse to each other |
| HttpMessage.MethodsByName | http/HttpRequest.h:44-69 | which name stands for which method, and that no other name does |
| HttpMessage.HttpRequest.AddHeader | http/HttpRequest.h:136-150 | the two loops store the value trimmed as the specification function Trim does, which TrimFindsCore determines |
| HttpMessage.TrimTakesOuterWhite | http/HttpRequest.h:138-149 | white space around a value that neither begins nor ends with any is what is trimmed; what stands inside it stays |
| HttpMessage.TrimFindsCore | http/HttpRequest.h:138-149 | every text is such a value with white space around it, and trimming finds it |
| HttpMessage.HttpRequest.Swap | http/HttpRequest.h:166-175 | exchanges the whole values |
| HttpParser.StoiOfDecimal | http/HttpContext.cc:106 | std::stoi reads back the decimal text of every int |
| HttpParser.StoiReads | http/HttpContext.cc:106 | std::stoi on any text: past white space and a sign, the digits up to the first other character if they are an int, and otherwise an exception |
| HttpParser.EveryTextIsNumeral | http/HttpContext.cc:106 | every text comes apart in that way |
| HttpParser.HttpContext.ProcessRequestLine | http/HttpContext.cc:10-51 | computes the specification function RequestLine, also in what a refused line leaves behind |
| HttpParser.RequestLineSets | http/HttpContext.cc:10-51 | a line of a known method, a target without spaces and HTTP/1.0 or HTTP/1.1 is accepted; the path is the target up to its first question mark, and the query the rest |
| HttpParser.RefusedExactlyWhen | http/HttpContext.cc:10-80 | a request is refused if and only if its first line is complete and is none of those |
| HttpParser.HttpContext.ParseRequest | http/HttpContext.cc:54-142 | the loop terminates and computes the specification function Parse: state, request, leftover bytes, error or exception |
| HttpParser.HttpContext.OnMessage | http/HttpServer.cc:226-234 | a complete request is handed over and the context reset, so the parser is never entered in kGotAll |
| HttpParser.ColonlessLineEndsHeaders | http/HttpContext.cc:86-110 | the headers go on after a line if and only if it has a colon |
| HttpParser.RefusedRequestKeepsMethod | http/HttpContext.cc:10-51 | a refusal changes nothing but the request, in which the method stays set if and only if the line began with a known one |
| HttpParser.RefusedRequestWithMethod | http/HttpContext.cc:10-51 | a request line for which it does |
| HttpSplit.ParseExtends | http/HttpContext.cc:54-142 | parsing a and then going on with b is parsing a followed by b; an error on a is one on both |
| HttpSplit.SplitIndependence | http/HttpContext.cc:54-142 | after a call that pauses outside of a body, a second one with its own time and its own uninitialised variable gives what one call gives, the receive time being that of the call that completed the request line |
| HttpSplit.SplitInBody | http/HttpContext.cc:54-142 | after one that pauses inside a body it does if and only if the variable holds the length again, or both exceed the bytes at hand |
| HttpSplit.ChunkingIsIrrelevant | http/HttpContext.cc:54-142 | however the bytes arrive, in any number of calls with their own times and variables, the outcome is that of one call at the time when the request line was complete, if no call but the last pauses inside a body |
| HttpSplit.NoContentLengthNoPause | http/HttpContext.cc:96-110 | a request without Content-Length never pauses inside a body |
| HttpSplit.NoDivisionNoPause | http/HttpContext.cc:96-139 | nor does one of which no call but the last ends in the body |
| HttpSplit.DivisionFails | http/HttpContext.cc:58-139 | if one does and the variables hold 0, no body is taken |
| HttpSplit.ResumeInBody | http/HttpContext.cc:58-140 | a call that resumes inside a body does what one call would have done if and only if the uninitialised variable holds the length again, or both exceed the bytes at hand |
| HttpRoundTrip.BodyInTwoCalls | http/HttpContext.cc:58-140 | a request with a body that arrives in two calls is taken if and only if the second call's variable happens to hold the length |
| HttpRoundTrip.BodyInTwoCallsDiffers | http/HttpContext.cc:58-140 | a request and values for which it is not |
| HttpRoundTrip.ParseRendered | http/HttpContext.cc:10-142 | a request rendered by RFC 7230 sections 3.1.1 and 3.2, with any white space around its header values, parses back to its method, path, query, version and headers |
| HttpRoundTrip.RequestRoundTrip | http/HttpContext.cc:10-142 | without Content-Length the parse is complete and leaves exactly the bytes that follow |
| HttpRoundTrip.BodyIsNotRetrieved | http/HttpContext.cc:119-139 | with Content-Length the body is the next bytes, which stay in the buffer |
| HttpRoundTrip.ContentLengthDecides | http/HttpContext.cc:96-139 | a Content-Length that is no int is an exception; otherwise so many bytes at hand are the body, or the parser waits for them, a negative length counting as 2^64 more |
| HttpRoundTrip.SampleBodyStays | http/HttpContext.cc:119-139 | a request whose body stays |
| HttpRoundTrip.HeadersEndAtColonlessLine | http/HttpContext.cc:86-110 | the headers are the lines up to the first one without a colon, whatever it holds and whether or not a body follows |
| HttpRoundTrip.LateFieldIsLeft | http/HttpContext.cc:86-110 | a request of which a header line is left behind |
| HttpRoundTrip.ChunkedRoundTrip | http/HttpContext.cc:54-142 | without Content-Length the round trip holds for any number of calls, with any times and variables |
| HttpRoundTrip.ChunkedBodyRoundTrip | http/HttpContext.cc:54-142 | with Content-Length it holds if no call but the last ends in the body |
| HttpRoundTrip.ChunkedBodyRoundTripExactly | http/HttpContext.cc:54-142 | whatever the uninitialised variables hold the body is taken: this is so if and only if no call but the last ends in it |
| FastCgi.PairsRoundTrip | http/FastCgi.cc:52-93 | pairs read back by section 3.4, with lengths of one and of four bytes |
| FastCgi.RecordRoundTrip | http/FastCgi.cc:13-34 | a record reads back by section 3.3 |
| FastCgi.BeginRequestRoundTrip | http/FastCgi.cc:36-50 | the body of a BEGIN_REQUEST reads back as its role and whether the connection is kept, by section 5.1 |
| FastCgi.RecordsRoundTrip | http/FastCgi.cc:95-164 | any sequence of records reads back |
| FastCgi.ParamsRecordRoundTrip | http/FastCgi.cc:128-153 | the Params record reads back as the same request and pairs, its header length being that of the body |
| FastCgi.RequestIdRoundTrip | http/FastCgi.cc:13-34 | the request id reads back exactly when it fits 16 bits |
| FastCgi.MakeNameValueBody | http/FastCgi.cc:52-93 | writes exactly the encoding of the pair, and nothing else, and returns its length |
| FastCgi.Params | http/FastCgi.cc:106-153 | appends the record for the whole list, one or many |
| FastCgi.SendRequest | http/HttpServer.cc:279-289 | what is appended reads back, by sections 3.3, 3.4, 5.1 and 5.2, as a BEGIN_REQUEST for a responder on a kept connection, a PARAMS with exactly the pairs and an empty PARAMS, all with the low 16 bits of the id |
| FastCgi.ParseFromPhp | http/FastCgi.cc:181-237 | takes one record off the buffer as the specification function ParseStep does |
| FastCgi.OnCGIMessage | http/HttpServer.cc:98-140 | the loop terminates with less than a header left and computes the specification function Demux |
| FastCgi.DemuxRoundTrip | http/HttpServer.cc:104-139 | every sequence of complete output records, with any padding, and END_REQUEST records is taken exactly, with each record's id and output in order |
| FastCgi.PartialRecord | http/FastCgi.cc:181-237 | a record whose header has arrived is taken exactly when all of it has |
| FastCgi.PartialStream | http/HttpServer.cc:104-139 | a stream whose last record has arrived in part is taken up to that record if and only if less than its header has arrived, or all of it; otherwise an assertion fails |
| FastCgi.SplitRecordFails | http/FastCgi.cc:189-206 | a record on which it does |
| FastCgi.EndRequestLeftover | http/FastCgi.cc:226-234 | an END_REQUEST takes 8 bytes whatever its header says, so it is consumed exactly if and only if body and padding together have 8 bytes |
| FastCgi.PaddedEndIsLeftOver | http/FastCgi.cc:226-234 | one whose padding is left |
| FastCgi.OtherKindLeftover | http/FastCgi.cc:187-236 | a record of another kind loses its header alone, so it is consumed exactly if and only if it has nothing else |
| DecimalText.DecimalRoundTrip | base/LogStream.cc:35-55 | decimal text is canonical and reads back as the integer |
| DecimalText.CanonicalRoundTrip | base/LogStream.cc:35-55 | canonical text is the decimal text of what it reads as |
| DecimalText.DigitAt | base/LogStream.cc:35-55 | the k-th character from the end is the k-th decimal digit |
| DecimalText.DecimalLength | base/LogStream.cc:98-104 | a 64-bit integer takes at most 20 characters |
| LogStream.Reverse | base/LogStream.cc:52 | reverses in place and touches nothing else |
| LogStream.WriteDigits | base/LogStream.cc:40-45 | the loop writes the digits last first, by truncating remainder and mirrored table, for the most negative value too |
| LogStream.Convert | base/LogStream.cc:35-55 | writes the decimal text and a NUL, returns its length and touches nothing else |
| LogStream.FixedBuffer.Append | base/LogStream.h:37-45 | appends the whole text if it leaves a byte free, and nothing otherwise |
| LogStream.FixedBuffer.FormatInteger | base/LogStream.cc:106-114 | appends the decimal text of any 64-bit value or nothing, never past the end |

## Left out

- System calls: the results of `write`, `readv`, `poll`, `timerfd` and `eventfd` operations are arguments of the methods.
- `readTimeZoneFile`: the table is an argument, with `TimeZone.ValidData` for what the file reader builds.
- `gmtime_r` and `timegm`: the repository's own `toUtcTime` and `fromUtcTime` stand in for them; `tm_zone` and the abbreviations are not modelled.
- `HttpServer::parseFromcgi`, the response sent for a CGI message, and the map from request ids to connections.
- The idle-connection list, `Connector`, `TcpClient`, `TcpServer` and `EventLoopThreadPool`.
- `TcpConnection` after `handleClose`, and `send` and `shutdown` from other threads.
- Entering `loop()` again after it has exited.
- High-water-mark and write-complete callbacks beyond the count of the latter.
- Draining of the queues at `AsyncLogging::stop` and `ThreadPool::stop`, and callers of `run` that wait when the pool stops.
- `LogFile`: the log file is a string that grows; rolling and flushing are not modelled.
- `convertHex`: it works as `convert` does, without a sign; floating-point formatting and the layout of log lines.
- Timers: `interval` is in whole microseconds, one clock stands for CLOCK_MONOTONIC and the time of day, the flag
  `callingExpiredTimers_` starts as false, callbacks are any steps that add or cancel, and cancelling is modelled from `addTimerInLoop` on.
- Channel callbacks and the bits of `revents`: only whether a slot has events matters to the poller.
- Integer widths other than those of the day number, `std::stoi`, the network-order and the 64-bit integers; sizes and indices are unbounded.
- Condition variables and mutexes: a critical section is one step, and a notification wakes any one waiting thread.
