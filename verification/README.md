# hala-rs protocols, verified

This project models the concurrent protocols, the HTTP/1 head parser and the ledgers of the hala-rs
asynchronous runtime in Dafny, and proves what they promise.

- **Ticket queue** (`Queue.dfy`): the lock-free FIFO, one step per atomic access, refines a queue whose operations
  are atomic.
- **Future batcher** (`Batcher.dfy`): one poller and any number of pushers, wakers and closers over that queue; no
  wakeup is lost and no future is lost or returned twice.
- **Locks** (`Locks.dfy`): the spin mutex and the asynchronous mutex built from a lock and a waker table.
- **Event map** (`EventMap.dfy`): registration under the state lock, hand-off to a notifier.
- **HTTP/1 heads** (`HttpSyntax.dfy`, `HttpHead.dfy`, `HttpChunks.dfy`, `HttpPrint.dfy`, `HttpResults.dfy`,
  `HttpParser.dfy`): the resumable parser for requests and responses. `HttpHead` says what one step and the two loops compute; `HttpParser`
  holds the parser object and its loops, proved to compute that; `HttpChunks` proves when the way a stream is cut
  into reads matters; `HttpPrint` proves the round trip with the format of RFC 9112, sections 2.1, 3, 4 and 5, in any
  layout of spaces and newlines; `HttpResults` says what an accepted head is and which error each fault gets.
- **Time wheel and sleep timer** (`TimeWheel.dfy`, `TimeWheelRaces.dfy`, `SleepTimer.dfy`): the wheel as an object
  against a plain list of deadlines, then under every interleaving of its atomic accesses.
- **QUIC bookkeeping** (`QuicConn.dfy`, `QuicRuns.dfy`, `QuicPool.dfy`): stream ids (RFC 9000, section 2.1), accept
  queue, stream credit (section 4.6), closing pipeline, connection pool.
- **UDP group** (`UdpGroup.dfy`, `UdpRaces.dfy`): the object as one caller sees it, then buffer boxes and operations
  under every interleaving of any calls on any threads, abandoned and overlapping ones too.
- **Profile builder** (`Profile.dfy`): interning tables, samples and the built profile.

Objects that run under a lock or in one task are classes whose methods are proved against functions. Objects that
several threads share are state machines: `Exec` runs a sequence of events, each one atomic access of one thread, and
the theorems hold for every sequence. Atomics are sequentially consistent, each operation of a concurrent map is one
step, counters are unbounded. The batcher uses an atomic ready queue, which `TicketQueue.Linearizable` justifies.

Times are nanoseconds since the creation of the wheel, and clocks do not go back. Quiche, sockets, the `http` crate's
checks, allocated addresses and the contents of reads are arguments or events.

## Where the code does not meet the obvious claim

Each has a concrete run and, where the claim can be saved, the exact condition.

- The batcher's assertions on the poll counter fail after a poll that left at one of the two early returns, and only
  then (`PanicsExactlyAfterEarlyReturn`, `SecondPollAfterCloseCanPanic`).
- The HTTP parser restarts its count of newlines at each read. The outcome is that of the uncut input if and only if
  the read that brings the last byte of the blank line brings at least two of its line feeds and no earlier read
  brings more than one (`ChunkingExact`). For CRLFCRLF: no read ends one or two bytes before its end
  (`RoundTripInReads`, `CutInTerminatorFails`). An input that is rejected in one read is rejected the same way in any
  (`RejectionExact`).
- A late time-wheel registration can take other timers with it (`OverlapCanLoseAcceptedTimer`). In every run an
  accepted timer is lost if and only if it was removed this way (`LostExactlyWhenDropped`), and a step removes timers
  if and only if it is one of the two removals of a registration whose tick has passed and whose bucket still exists
  (`LosesExactly`). Nothing is lost when no tick count passes the tick of a registration under way
  (`NoOverlapLosesNothing`).
- A waker stored too late after a false expiry check can miss the delivery: no delivery can precede the store if and
  only if the store is no later than the first moment of the tick after the timer's own (`StoredInTimeExactly`).
- The event map holds one registration per event: a parked wait is unattended if and only if its registration was
  displaced (`HandOff`), and a step strands a wait if and only if it inserts over, or cancels, the registration of a
  wait that was not dropped (`StrandsExactly`, `SecondWaiterStrandsFirst`).
- The QUIC stream credit is too high after a close before the first send, and while nothing was sent under a raised
  limit (`EarlyCloseOverstatesCredit`, `RaisedLimitOverstatesCredit`). `CreditLedger` gives the exact difference in
  every run.
- Overlapping calls of the UDP group can panic, lose a box, or use the buffer of a call that is gone
  (`OverlapCanPanic`, `OverlapCanLoseBox`, `OverlapUsesDeadBuffer`). The box in use is that of the call that made the
  last swap before it was taken (`UsesLastSwapped`).
  `PanicsExactly` says for every step of every run whether it panics, and that a box is lost exactly when another one
  is swapped in between the two exchanges of an operation.
- Only the first `build` of a profile names its sample type and unit, whatever is reported before a later one
  (`SoundExactlyOnce`, `SecondBuildDangles`).
- The doc comment of `timers` (crates/lockfree/src/timewheel.rs:38) speaks of living timers, but nothing decrements
  the counter. It is the number of living timers if and only if no accepted timer has been delivered or lost
  (`CountsLivingExactly`, `DeliveredStillCounted`).
- The string table of a profile can hold "" twice, since the index does not know the empty string at position 0. It
  holds some string twice if and only if some address was first reported with an empty name or file
  (`RepeatsExactly`, `EmptyNameRepeats`). `WellNumbered` and `ReadsBack` hold all the same.

## Model

| member | source | states |
|---|---|---|
| TicketQueue.Linearizable | crates/lockfree/src/queue.rs:37-71 | Every run is a run of the atomic FIFO with the same calls and results: pushes take effect at the tail increment, pops at the head exchange, empty pops at the tail load |
| TicketQueue.StepRefines | crates/lockfree/src/queue.rs:37-71 | One access is at most one move of the atomic queue, and the abstract queue changes as that move says |
| TicketQueue.StepKeepsInv | crates/lockfree/src/queue.rs:37-71 | Each ticket between head and tail has one owner: a push still to fill it or its slot |
| TicketQueue.AtRest | crates/lockfree/src/queue.rs:32-34 | With no call running, `len` is exact and the slots hold the contents in order and nothing else |
| TicketQueue.PopWaitsOnlyForItsPush | crates/lockfree/src/queue.rs:64-70 | A pop spins only while the push of its ticket is between its two steps |
| Batcher.NoLostWakeup | crates/future/src/batching.rs:262-330 | A poller that returned Pending and was not notified sleeps over ready work, or a close, only while a thread is inside the wake that will reach it |
| Batcher.SleepsOnlyWhenIdle | crates/future/src/batching.rs:46-87 | When no wake is under way, a sleeping poller means an empty ready queue and no future woken since its last poll, unless complete |
| Batcher.EveryFutureInOnePlace | crates/future/src/batching.rs:208-220 | Each pushed future is in exactly one place, unknown ids in none, and each completed one is returned once its poll is over, by one wait |
| Batcher.EveryWakeIsActedOn | crates/future/src/batching.rs:109-127 | From the events alone: a future that is woken or pushed is polled afterwards, complete, or still on its way to the poller, as long as no poll was cut short by close |
| Batcher.ResultLeavesNoWaker | crates/future/src/batching.rs:303-310 | A poll that returns a result leaves no waker in the slot |
| Batcher.ClosedPollDoesNothing | crates/future/src/batching.rs:272-274 | A poll of a closed batcher polls no future and returns no result |
| Batcher.AtMostOneAfterClose | crates/future/src/batching.rs:279-282 | After a close at most one more future is polled |
| Batcher.FutureCompletes | crates/future/src/batching.rs:262-330 | A run in which a future is pushed, polled without success, woken, polled again and returned |
| Batcher.PopMissesOnlyCompleted | crates/future/src/batching.rs:279-317 | A popped id with no pending future belongs to a completed one, and a wake that arrives while the future is out of the map stays due for a later pop |
| Batcher.PanicsExactlyAfterEarlyReturn | crates/future/src/batching.rs:266-282 | The entry assertion fails exactly when an earlier poll ended at an early return, the other one never; before close the counter tells whether a poll runs |
| Batcher.SecondPollAfterCloseCanPanic | crates/future/src/batching.rs:272-274 | A run in which polling a closed batcher twice panics |
| Batcher.WakeStepPoller | crates/future/src/batching.rs:276-330 | Every step of the poller keeps the wakeup invariant |
| Batcher.WakeStepThread | crates/future/src/batching.rs:47-71 | Every step of a waking, pushing or closing thread keeps the wakeup invariant, spurious exchange failures included |
| SpinLock.MutualExclusion | crates/sync/src/spin.rs:47-141 | At most one owner, the guard word names its guard, a set flag has an owner, and neither `expect` fails |
| SpinLock.HandsOver | crates/sync/src/spin.rs:57-141 | A run in which the lock passes from one thread to another that spins |
| AsyncMutex.OneGuard | crates/sync/src/maker.rs:188-226 | At most one guard exists in every run |
| AsyncMutex.NoLostWakeup | crates/sync/src/maker.rs:140-148 | A waiting task not yet woken has its waker in the table, and the lock is held or a task is between releasing it and the end of `notify_all` |
| AsyncMutex.NobodySleepsOnAFreeLock | crates/sync/src/maker.rs:243-268 | When all tasks are idle or waiting, the lock is free, the table empty and every waiting task was woken |
| AsyncMutex.TableIsExact | crates/sync/src/maker.rs:205-220 | When futures are polled again or dropped only after their waker fired, the table holds exactly the registrations of tasks that register or wait unwoken |
| AsyncMutex.WaiterGetsTheLock | crates/sync/src/maker.rs:140-148 | A run in which a waiting task is woken by the release and gets the lock |
| AsyncMutex.StepKeepsInv | crates/sync/src/maker.rs:188-268 | Every step keeps: one lock owner, one table owner, registrations of waiters in the table, a non-empty table covered by an owner or a releaser |
| EventMap.HandOff | crates/future/src/event_map.rs:54-57 | A parked wait is attended exactly when not displaced; its waker is in the map under its event or with exactly one notifier about to set the reason and wake it |
| EventMap.EndsWithItsReason | crates/future/src/event_map.rs:53-57 | In every run a wait that ended with a reason had its registration removed by a notifier that was called with that reason on the wait's own event |
| EventMap.NextPollEnds | crates/future/src/event_map.rs:195-208 | A wait whose reason is set ends with it at its next poll |
| EventMap.NotifiedWaitEnds | crates/future/src/event_map.rs:110-122 | A run in which a wait notified with On is woken and ends with On |
| EventMap.RegisteredBeforeUnlock | crates/future/src/event_map.rs:182-193 | Once the state lock is not the wait's any more, its registration exists, unless it was dropped before its first poll |
| EventMap.OneWaiterIsNeverStranded | crates/future/src/event_map.rs:110-122 | With one waiter at a time per event, dropped waits and waiting again included, only dropped waits are ever displaced and every parked wait is attended, in every run |
| EventMap.StrandsExactly | crates/future/src/event_map.rs:182-190 | A step displaces a wait that was not dropped if and only if it inserts over its registration or cancels it |
| EventMap.DisplacedForever | crates/future/src/event_map.rs:101-106 | A displaced wait is never woken, given a reason or completed |
| EventMap.SecondWaiterStrandsFirst | crates/future/src/event_map.rs:184-190 | A run in which a second wait on the same event strands the first |
| EventMap.StepKeepsInv | crates/future/src/event_map.rs:96-209 | Every step keeps the place of every registration: map, one notifier, used up or displaced |
| HttpSyntax.FindConcat | crates/net/http/src/parse.rs:603-633 | A token, name or value scan is decided by its first stop byte, whatever follows; bytes without one only shift it |
| HttpSyntax.AfterSpacesConcat | crates/net/http/src/parse.rs:592-600 | Spaces can be skipped before or after more bytes arrive |
| HttpSyntax.TrimSuffixSpaces | crates/net/http/src/parse.rs:739-749 | The loop drops exactly the trailing spaces and tabs, and nothing if there is nothing else |
| HttpSyntax.VersionOf | crates/net/http/src/parse.rs:636-649 | Inverse of the version texts: some version exactly for its own text |
| HttpSyntax.SkipNewlines | crates/net/http/src/parse.rs:692-722 | The loop measures the whole newline run: two or more newlines are a break, one is skipped, incomplete is never reported |
| HttpSyntax.RunConcat | crates/net/http/src/parse.rs:665-722 | The newline run of two pieces is the run of the first plus the run at the front of its leftover and the second |
| HttpSyntax.RunBytes | crates/net/http/src/parse.rs:665-722 | A newline run holds one line feed per newline and only line-ending bytes, the last one a line feed |
| HttpChunks.DecisionConcat | crates/net/http/src/parse.rs:195-274 | A step that goes on or fails does the same when more bytes follow, and leaves them |
| HttpChunks.DrainSuffix | crates/net/http/src/parse.rs:149-173 | Byte conservation: what the inner loop leaves is the end of what it was given |
| HttpChunks.TerminatorShape | crates/net/http/src/parse.rs:257-265 | The head ends with a whole run of two or more newlines |
| HttpChunks.OneRead | crates/net/http/src/parse.rs:149-177 | What one read does to a parse that would succeed on the whole input: ends the head as it should, ends it too early, leaves it recoverable, or strands the parser |
| HttpChunks.StrandedOverreads | crates/net/http/src/parse.rs:692-736 | A parser that skipped a newline of the terminator can only end the head later than the uncut input would |
| HttpChunks.ChunkingExact | crates/net/http/src/parse.rs:126-187 | For every input that parses in one read and every cut into non-empty reads: same head and same remaining bytes if and only if the cut respects the terminator |
| HttpChunks.RejectionExact | crates/net/http/src/parse.rs:126-187 | For every input that is rejected in one read and every cut into non-empty reads: rejected with the same error |
| HttpChunks.FeedRejects | crates/net/http/src/parse.rs:130-187 | From any state: an input that does not end the head is rejected with the error its bytes contain, else with what stops the stream |
| HttpChunks.EmptyReadEnds | crates/net/http/src/parse.rs:140-145 | An empty read ends the stream: later reads are not made, and without a head the parse fails with Eof |
| HttpPrint.LayoutRoundTrip | crates/net/http/src/parse.rs:126-187 | A well-formed request or response in any layout (runs of spaces and tabs between items and around names and values, CRLF or LF) parses in one read to exactly that head and leaves exactly the body |
| HttpPrint.RoundTrip | crates/net/http/src/parse.rs:126-187 | The same for the layout that RFC 9112 writes |
| HttpPrint.RoundTripInReads | crates/net/http/src/parse.rs:126-187 | In any reads it does so if and only if no read ends one or two bytes before the end of the head |
| HttpPrint.CutInTerminatorFails | crates/net/http/src/parse.rs:692-722 | Every printed head, in two reads that meet one byte before its end, does not come back |
| HttpPrint.SectionRoundTrip | crates/net/http/src/parse.rs:771-812 | Header fields in any layout come back in order and trimmed, with the body untouched |
| HttpPrint.FieldLineReads | crates/net/http/src/parse.rs:771-812 | A field line adds exactly its name and value, whatever spaces and tabs stand before the name, around the colon and at the end |
| HttpPrint.RequestLine | crates/net/http/src/parse.rs:195-254 | A request line with any spaces between takes the parser to the headers with method, URI and version set |
| HttpPrint.StatusLine | crates/net/http/src/parse.rs:430-482 | A status line with any spaces between takes the parser to the headers with version, status and reason set |
| HttpPrint.CrlfCut | crates/net/http/src/parse.rs:692-722 | For CRLFCRLF the cut condition means no read end at one of two offsets |
| HttpResults.ParsedIsFine | crates/net/http/src/parse.rs:195-274 | Every head that any reads give: items pass the checks and have the form of their kind, no header name or value has spaces or tabs around it, no name holds a colon and no value a line end |
| HttpResults.ReadPrintRead | crates/net/http/src/parse.rs:126-187 | A head that was read, printed and read again is the same, unless a name starts with a newline |
| HttpResults.TokenFault | crates/net/http/src/parse.rs:195-236 | A missing or invalid method or URI gives its own error |
| HttpResults.VersionFault | crates/net/http/src/parse.rs:636-649 | Eight bytes that are no version give the version error |
| HttpResults.StatusFault | crates/net/http/src/parse.rs:763-769 | An invalid status gives its own error |
| HttpResults.FieldFault | crates/net/http/src/parse.rs:801-809 | A field line, in any layout, with an invalid name or value gives the error of the name first, else of the value |
| HttpResults.VersionDigits | crates/net/http/src/parse.rs:638-645 | Versions are written HTTP/, digit, dot, digit |
| HttpParser.FeedSuffix | crates/net/http/src/parse.rs:130-187 | Byte conservation over all reads: the bytes left at the end are the end of the input |
| HttpParser.HeadParser.Parse | crates/net/http/src/parse.rs:126-187 | The outer loop terminates, computes the specified result for requests and responses, ends with the stream's own error or a full buffer when that comes first, and conserves bytes |
| HttpParser.HeadParser.DrainBuffer | crates/net/http/src/parse.rs:149-173 | The inner loop terminates, as states left and buffered bytes decrease, and computes the specified result |
| HttpParser.HeadParser.Advance | crates/net/http/src/parse.rs:384-408 | One turn of the inner loop is one specified step |
| HttpParser.HeadParser.ParseHeaders | crates/net/http/src/parse.rs:257-274 | Blank line, skipped newline, header line or wait, as specified |
| HttpParser.HeadParser.ParseHeaderLine | crates/net/http/src/parse.rs:771-812 | Computes the specified header, whose meaning is HttpPrint.FieldLineReads and HttpResults.ParsedIsFine; nothing is consumed while the line is incomplete |
| HttpParser.IntoBytes | crates/net/http/src/body.rs:29-59 | The body reader yields the cached bytes and then the stream up to its end, or the read error or full buffer that comes first |
| HttpParser.ReadMessage | crates/net/http/src/body.rs:18-59 | Head and body together: the body is exactly what the parse left, the end of the input, when the stream ends well |
| TimeWheel.HashedTimeWheel.NewTimer | crates/lockfree/src/timewheel.rs:44-94 | Refused exactly when its tick has passed, else appended to the list of deadlines and counted |
| TimeWheel.HashedTimeWheel.NextTick | crates/lockfree/src/timewheel.rs:97-129 | Returns the timers of all ticks passed and keeps no bucket below the new tick |
| TimeWheel.Perform | crates/lockfree/src/timewheel.rs:26-130 | The object, given any sequence of calls on a monotone clock, agrees with the sequence specification that the next four rows are about, deliveries included |
| TimeWheel.DeliveredByFirstAdvance | crates/lockfree/src/timewheel.rs:97-129 | Over all sequences of calls on a monotone clock: a call delivers a timer if and only if the timer was accepted and the call is the first advance past its tick |
| TimeWheel.DeliveredOnce | crates/lockfree/src/timewheel.rs:116-126 | No call delivers a timer twice and no two calls deliver the same one |
| TimeWheel.DeliveredInOrder | crates/lockfree/src/timewheel.rs:116-126 | A call delivers in order of ticks, and within a tick in order of registration |
| TimeWheel.ListIsExact | crates/lockfree/src/timewheel.rs:44-129 | The list always holds exactly the accepted timers that no advance has passed, none overdue |
| TimeWheel.NeverAhead | crates/lockfree/src/timewheel.rs:105-105 | On a monotone clock the assertion `current <= ticks` cannot fail |
| TimeWheelRaces.SafeUnderRaces | crates/lockfree/src/timewheel.rs:44-129 | Under every interleaving: never early, never twice, tick ranges consecutive and disjoint, the assertion never fails, `timers` counts accepted registrations |
| TimeWheelRaces.NeverEarly | crates/lockfree/src/timewheel.rs:45-49 | From the events alone: a timer is delivered only after the moment of its call plus the duration it asked for |
| TimeWheelRaces.AcceptedIsNotStuck | crates/lockfree/src/timewheel.rs:67-89 | Under every interleaving an accepted timer in a bucket has its tick still to come or the bucket owed by a running `next_tick` |
| TimeWheelRaces.NoOverlapLosesNothing | crates/lockfree/src/timewheel.rs:65-89 | When no tick count passes the tick of a registration under way, accepted timers are in their bucket or delivered, nothing is dropped, and a bucket below the tick is owed by a running `next_tick` |
| TimeWheelRaces.LostExactlyWhenDropped | crates/lockfree/src/timewheel.rs:44-129 | In every run a pushed or accepted timer is in its bucket or delivered if and only if no registration removed it |
| TimeWheelRaces.LosesExactly | crates/lockfree/src/timewheel.rs:67-89 | In every run a step loses timers if and only if a registration whose tick has passed removes a bucket that still exists, and then it loses that bucket |
| TimeWheelRaces.RefusedInAnyRun | crates/lockfree/src/timewheel.rs:51-89 | A registration that returns None, at any exit and in any interleaving, is of a timer whose deadline has passed |
| TimeWheelRaces.OverlapCanLoseAcceptedTimer | crates/lockfree/src/timewheel.rs:67-71 | A run in which a late registration removes a shared bucket with an accepted timer in it |
| TimeWheelRaces.CountsLivingExactly | crates/lockfree/src/timewheel.rs:38-41 | In every run the counter is the number of accepted timers not delivered or lost if and only if none was |
| TimeWheelRaces.DeliveredStillCounted | crates/lockfree/src/timewheel.rs:38-41 | A run after which no timer lives and the counter is 1 |
| SleepTimer.MioTimer.Start | crates/io/src/mio/timer.rs:43-55 | Start time and wheel tick recorded; a refused timer is already expired |
| SleepTimer.MioTimer.IsExpired | crates/io/src/mio/timer.rs:57-73 | True exactly when started with the duration over or less than a tick of it left |
| SleepTimer.EndsWithinATick | crates/io/src/mio/timer.rs:57-73 | The check is true exactly from less than one tick before the end on |
| SleepTimer.DeliveredIsExpired | crates/lockfree/src/timewheel.rs:97-129 | A timer the wheel delivers is expired, then and ever after |
| SleepTimer.RefusedIsExpired | crates/lockfree/src/timewheel.rs:51-63 | A timer the wheel refuses is expired |
| SleepTimer.DeliveredInAnyRunIsExpired | crates/lockfree/src/timewheel.rs:44-129 | The same in every interleaving of registrations and ticks |
| SleepTimer.RefusedInAnyRunIsExpired | crates/lockfree/src/timewheel.rs:51-89 | So is every timer whose registration returns None, in every interleaving |
| SleepTimer.StoredInTimeExactly | crates/io/src/mio/driver.rs:108-125 | No delivery can precede the store of a waker if and only if the store is no later than the first moment of the tick after the timer's own |
| SleepTimer.StoredBeforeDelivery | crates/io/src/mio/driver.rs:108-125 | A waker stored at most a tick after a false check is stored before the delivery |
| SleepTimer.LateStoreCanMissDelivery | crates/io/src/mio/driver.rs:113-122 | For every later store there is a delivery before it |
| QuicConn.RawQuicConnState.constructor | crates/net/quic/src/state/conn.rs:103-130 | Streams readable at the start are queued, the peer's ones registered |
| QuicConn.RawQuicConnState.HandleIncomingStream | crates/net/quic/src/state/conn.rs:197-214 | A peer stream seen for the first time is queued |
| QuicConn.RawQuicConnState.Accept | crates/net/quic/src/state/conn.rs:746-763 | The oldest queued stream, nothing when closed or empty |
| QuicConn.RawQuicConnState.OpenStream | crates/net/quic/src/state/conn.rs:782-793 | The next id, registered as unsent |
| QuicConn.RawQuicConnState.RecordSend | crates/net/quic/src/state/conn.rs:569-582 | A stream of ours that sent is no longer unsent: see QuicRuns.UnsentExactly |
| QuicConn.RawQuicConnState.CloseStream | crates/net/quic/src/state/conn.rs:798-823 | An unsent stream is forgotten, any other one enqueued for its FIN |
| QuicConn.RawQuicConnState.HandleDroppingStreams | crates/net/quic/src/state/conn.rs:300-354 | The loop keeps blocked ids in order and moves all others to half closed |
| QuicConn.RawQuicConnState.HalfClosedResponse | crates/net/quic/src/state/conn.rs:356-395 | The loop ends with closed exactly on fin or error |
| QuicConn.RawQuicConnState.HandleHalfClosedStreams | crates/net/quic/src/state/conn.rs:397-410 | Exactly the ids whose answers do not end stay half closed |
| QuicRuns.OpenedIds | crates/net/quic/src/state/conn.rs:782-793 | In every run the ids of `open_stream` are distinct with the type bits of the first |
| QuicRuns.AcceptedIds | crates/net/quic/src/state/conn.rs:746-763 | When initially readable streams are the peer's: each peer stream is accepted at most once, in first-seen order, and never equals an opened id |
| QuicRuns.OwnParityAccepted | crates/net/quic/src/state/conn.rs:120-127 | An id of our parity is queued for accept if and only if it was readable at the start |
| QuicRuns.FirstSeenOrder | crates/net/quic/src/state/conn.rs:197-214 | The reference list orders streams by first report |
| QuicRuns.UnsentExactly | crates/net/quic/src/state/conn.rs:579-582 | From the events alone: an id is unsent if and only if it was opened and no send of it was taken, and no close called, since |
| QuicRuns.CloseExactly | crates/net/quic/src/state/conn.rs:803-810 | Closing a stream forgets it when nothing was sent on it since it was opened, and otherwise appends it to the dropping queue |
| QuicRuns.CreditLedger | crates/net/quic/src/state/conn.rs:890-910 | In every run the real room is the reported credit plus late first sends plus the stream held back, minus ids given up, minus the unused number 0 |
| QuicRuns.CreditSound | crates/net/quic/src/state/conn.rs:890-910 | With no early close, and something sent or the limit unchanged, positive credit puts the next id below the peer's limit |
| QuicRuns.CreditSoundExactly | crates/net/quic/src/state/conn.rs:890-910 | With no early close that fails exactly when nothing was sent, the limit was raised and it is one more than the streams opened |
| QuicRuns.CreditSoundInGeneral | crates/net/quic/src/state/conn.rs:798-807 | With early closes, it holds exactly when the ids given up do not outweigh the late first sends and the credit |
| QuicRuns.Capacity | crates/net/quic/src/state/conn.rs:901-909 | With in-order first sends under the initial limit, and none that quiche counted without taking, one stream fewer than the limit is offered |
| QuicRuns.CheckThenOpen | crates/net/quic/src/conn_pool.rs:38-59 | Credit read first and a stream opened later, with anything but another open between: the id is below the limit |
| QuicRuns.EarlyCloseOverstatesCredit | crates/net/quic/src/state/conn.rs:803-808 | A run with positive credit and no room, after a close before the first send |
| QuicRuns.RaisedLimitOverstatesCredit | crates/net/quic/src/state/conn.rs:901-906 | The same after a raised limit with nothing sent |
| QuicRuns.ClosingConserved | crates/net/quic/src/state/conn.rs:300-410 | In every run exactly the enqueued ids are in the dropping queue, half closed or drained, and the queue keeps the order of the calls |
| QuicRuns.ClosedInOnePlace | crates/net/quic/src/state/conn.rs:300-410 | When no id is enqueued twice, each is in exactly one of these places, once |
| QuicRuns.BlockedKeepsOrder | crates/net/quic/src/state/conn.rs:348-351 | Ids whose FIN is blocked keep their relative order |
| QuicRuns.RoundMembers | crates/net/quic/src/state/conn.rs:306-351 | After a round an id stays queued exactly for a blocked FIN and is half closed exactly for a sent or failed one |
| QuicRuns.HalfClosedLeaves | crates/net/quic/src/state/conn.rs:397-410 | An id leaves half closed if and only if a fin or error is reported after its data |
| QuicPool.RawConnPool.FindAvailable | crates/net/quic/src/conn_pool.rs:44-77 | The search loop: any open connection with credit, else closed ones removed and a new connection, refusal or connect error |
| QuicPool.FindKeepsSize | crates/net/quic/src/conn_pool.rs:64-77 | The pool never outgrows its size, reused connections had credit, and refusal happens exactly when all open ones are out of credit and fill it |
| QuicPool.HoldsWhatItMade | crates/net/quic/src/conn_pool.rs:64-76 | In every run the pool holds exactly the connections it made and no later search found closed and removed |
| QuicPool.ReusesWhatItMade | crates/net/quic/src/conn_pool.rs:46-60 | While such a connection is open with credit, the next call reuses an open connection with credit |
| QuicPool.FullPoolRefuses | crates/net/quic/src/conn_pool.rs:68-72 | A run of a pool of one that connects and then refuses |
| QuicPool.ReportsAgree | crates/net/quic/src/conn_pool.rs:52-60 | The reports the next row starts from are the credits of the connections themselves, from their runs |
| QuicPool.RefusedExactlyWhenFull | crates/net/quic/src/conn_pool.rs:98-106 | Over every run with connections under their first limit, closes and failed connects included: refused exactly when the open connections carry (limit - 1) * max_conns streams, however connections were picked |
| UdpGroup.GroupSide.constructor | crates/net/udp/src/group.rs:153-158 | One operation per socket |
| UdpGroup.GroupSide.PollOp | crates/net/udp/src/group.rs:181-236 | The two assertions hold while a call is live; a blocked operation restores the slot, any other frees its box |
| UdpGroup.GroupSide.WaitPoll | crates/future/src/batching.rs:279-317 | The poll goes on past blocked operations and returns at the first ready one |
| UdpGroup.ReturnsFirstReady | crates/future/src/batching.rs:284-317 | A poll returns if and only if some woken operation is ready: the socket and the answer of the first one, with the box of the slot |
| UdpGroup.GroupSide.RecvFrom | crates/net/udp/src/group.rs:319-337 | A whole call, returned or given up, computes the specified side |
| UdpRaces.BoxesConserved | crates/net/udp/src/group.rs:171-337 | In every run on any threads, however calls overlap, are given up or panic: no box is freed twice, and a live box is in the slot, with exactly one call, or lost |
| UdpRaces.OpsConserved | crates/net/udp/src/group.rs:153-158 | In every run each socket has exactly one operation: with the batcher, with one call, or lost with one that panicked; the batcher has one per socket when no call holds one |
| UdpRaces.PanicsExactly | crates/net/udp/src/group.rs:181-212 | Every panic: another poll runs or never left; no call began since a box was used up; another box was swapped in since the load, or any since the first exchange; another call was turned away during the poll. A box is lost exactly in the fourth case |
| UdpRaces.NeverPanics | crates/net/udp/src/group.rs:317-337 | With calls that do not overlap no assertion fails, no box is lost, and each call uses, and returns through, its own buffer only |
| UdpRaces.UsesLastSwapped | crates/net/udp/src/group.rs:181-203 | In every run the box an operation uses is that of the call that made the last swap before it was taken, there or gone |
| UdpRaces.OverlapCanPanic | crates/net/udp/src/group.rs:317-318 | A run of two overlapping calls in one task that panics |
| UdpRaces.OverlapCanLoseBox | crates/net/udp/src/group.rs:207-212 | A run in which a swap between the two exchanges panics the operation and loses its box |
| UdpRaces.OverlapUsesDeadBuffer | crates/net/udp/src/group.rs:320-322 | A run in which an operation uses the buffer of a call that was given up |
| UdpRaces.CallIsRun | crates/net/udp/src/group.rs:319-337 | A call of the object, made while no other polls, is a run of these steps with the same result |
| Profile.StringTable.Insert | crates/pprof/src/profiler/report.rs:101-110 | Known text keeps its number, new text gets the next |
| Profile.FnTable.Push | crates/pprof/src/profiler/report.rs:62-84 | A new function gets the next id, its strings are interned, and the assertion holds |
| Profile.GperfReport.Frame | crates/pprof/src/profiler/report.rs:249-278 | A known address adds its id, a new one a function and a location of the same number; the assertion holds |
| Profile.GperfReport.AddOne | crates/pprof/src/profiler/report.rs:149-213 | The loop over the frames and the sample compute the specified book |
| Profile.GperfReport.Finish | crates/pprof/src/profiler/report.rs:130-145 | The vectors move to the profile, the indices stay |
| Profile.InternOk | crates/pprof/src/profiler/report.rs:101-110 | The number resolves to the text, and all earlier numbers resolve as before |
| Profile.WellNumbered | crates/pprof/src/profiler/report.rs:227-242 | After any reports and one build: string 0 is empty, function and location i have id i + 1, no address has two locations |
| Profile.RepeatsExactly | crates/pprof/src/profiler/report.rs:93-111 | The first profile's string table repeats a string if and only if some address was first reported with an empty name or file, and nothing but "" is ever repeated |
| Profile.EmptyNameRepeats | crates/pprof/src/profiler/report.rs:93-111 | One frame with an empty name is enough |
| Profile.ReadsBack | crates/pprof/src/profiler/report.rs:246-297 | Every sample reads back: one id per frame naming a location that decodes to the first symbol reported for the address, label and value those of the report, the value exactly below 2^63 and modulo 2^64 in the signed range above |
| Profile.EqualIdsEqualAddresses | crates/pprof/src/profiler/report.rs:56-60 | Two ids in any samples are equal exactly when the addresses are |
| Profile.SoundExactlyOnce | crates/pprof/src/profiler/report.rs:227-242 | Over any rounds of reports and builds a profile names its sample type and unit if and only if it is the first one built |
| Profile.SecondBuildDangles | crates/pprof/src/profiler/report.rs:227-242 | A second build with nothing reported in between has no string at all |
| Profile.HexRoundTrip | crates/pprof/src/profiler/report.rs:281-288 | A label text gives back its number |

## Left out

- Memory orderings weaker than sequential consistency, counter wrap-around, allocation failure and panics inside user
  futures.
- HttpParser.HeadParser.Parse: when the buffer is full (`ParseBufOverflow`) is not derived, since it depends on how
  `BytesMut` grows; it may come before any read, like a read error.
- HttpParser.IntoBytes: likewise for the body limit.
- Validation of methods, URIs, status codes, header names and values by the `http` crate: any predicates over bytes.
- The two parsers of crates/net/http/src/parse.rs differ in their states only; one object with a kind models both.
- The reason phrase of a response is part of the head here; the source parses it into a field that it does not hand
  out with the response (crates/net/http/src/parse.rs:417-421).
- TicketQueue.AtRest: `len` is claimed at rest only, since it reads two counters in two steps.
- Batcher.PopMissesOnlyCompleted: the second half is claimed for runs without an early return, since such a return
  drops an id it has popped.
- Duplicating and dropping wakers of batched futures: a future's waker may be used any number of times in the model.
- Order within a bucket of the time wheel under races: buckets are sets there.
- Registration of sleep timers with pollers and the driver around it, other than the expiry check.
- The `cancel` branch of the asynchronous mutex for dropped lock futures: the source has no drop handler for them.
- Dropping a whole event map (`Destroy`), and notifying several events at once, which is a loop of single ones.
- Which waiting QUIC tasks are notified and when; `handle_stream_events` reports one stream per call, so reports
  are events in any order. The start instants of half-closed streams are not used by the source and not modelled.
- Calls on a closed connection in runs: they fail and change nothing, as the class contracts say.
- QuicPool.RefusedExactlyWhenFull: for connections under their first limit with first sends in order, which is where
  `QuicRuns.Capacity` gives the credit; limits of at least 2, since a new connection is used without asking for its
  credit.
- The write side of the UDP group, `send_to_on_path`, and address look-up: the first is the same protocol, the second
  bypasses it. The batcher of the group is never closed, so its early returns are not steps of UdpRaces.
- Profile.ReadsBack: up to the first build. Numbers are unbounded except the sample value, whose cast to `i64` wraps.
- The driver, sockets, TLS, listener, retry tokens, reverse proxy, executor, macros, heap profiler counters and the
  parking_lot mutex: plumbing, foreign code, or only easy members.
