# A verified model of evio's self-contained algorithms

The repository builds and exercises the evio I/O library. Five of its algorithms are written out
completely in the repository itself. This project models them in Dafny and proves what they are
for, over every execution, every stream and every size, where the repository itself tries
small fixed instances.

* **The lock-free buffer reset** (`ResetHandshake`, `ResetInvariant`, `ResetTheorems`, `GetArea`,
  `ReadPass`, `ResetProgress`).
  A producer rewinds a shared block while a consumer reads it, with two atomics and no lock. The
  model is a state machine with release/acquire views: store histories, a view per thread, stores
  that carry views, and a modification order of `m_resetting` in which the consumer's 0 may land
  before or after the producer's 1. It runs for any number of resets and consumer passes, with the
  characters in the block. `GetArea` is the chunked read in place, over an array, and `ReadPass`
  shows that every consumer pass of the state machine, in every interleaving, is such a read. `ResetProgress` shows
  that the handshake goes on: any block can be emptied, rewound and written again, for ever.
* **The epoll echo pipeline** (`EchoSystem`, `EpollEcho`). `EchoSystem` says what one dispatched
  event does; `EpollEcho` is the program, with its objects, handlers, loops and assertions, and is
  proved to do exactly those transitions and to end with every byte echoed.
* **The pipelining HTTP server** (`HttpScan`, `HttpHeader`, `HttpMessage`, `HttpText`,
  `HttpRequest`, `HttpReply`, `HttpServer`, `HttpConnection`, `HttpRun`,
  `HttpTiming`). Two character machines,
  the request generators that they invert, the reply queue with its timers and close flags, and
  the framing of replies (sections 5, 6.2 and 9.3.2 of RFC 9112).
* **The lock-free list** (`LockFreeList`, `ListProgress`), with compare-exchange push and take-all, refines an
  atomic stack under the memory orders of the source, and every execution can be completed.
* **The baton between controller and worker threads** (`Baton`): one mutex, one flag and one
  condition variable in both directions.

Threads that run concurrently are steps of a state machine, since a Dafny method runs alone.
Objects that only one thread changes are classes: `GetArea.Consumer`, `EpollEcho.Epoll`,
`HttpScan.Parser`, `HttpHeader.Header`, `HttpConnection.PendingReply` and
`HttpConnection.TcpConnection`. Their methods are proved against functions, and lemmas state what
the source promises about those functions.

## What turned out differently

* **Line 47 of `src/genmc_reset_algo.c`.** The detection is right with the relaxed second load of
  `m_last_pptr` (`ResetTheorems.Detection`). But when characters are attached to the offsets, that
  load does not make the producer's plain writes visible, and the copy can race with them:
  `ResetTheorems.RelaxedReloadRaces` is an execution that ends with a wrong character, and
  `ResetTheorems.RaceCondition` says exactly when a copy is not ordered after its write, and
  `ResetTheorems.CopyKeepsPrefix` that these are exactly the copies that can break the order of the
  characters. With an acquire load there is no race.
* **The end-of-message matcher** restarts after a mismatch without looking at the mismatching
  character again, so it misses `CR CR LF CR LF` (`HttpScan.MissesAfterDoubleCr`).
  `HttpScan.FiresExactly`: it is right on a stream
  exactly if every end of message in it starts with the last of an odd number of CRs.
* **The guard of a reset.** `m_last_gptr` equal to pptr proves an empty block only if that value was
  stored since the last reset (`ResetTheorems.LastGptrGuard`); after a reset the old value can equal
  pptr again (`ResetTheorems.LastGptrRepeats`). The model's guard is on `m_total_read`.
* **`burst_size` 0.** `watched_count` then never reaches 0; for any other size it does
  (`EchoSystem.FinishesExactly`). Nothing is ready any more after two events
  (`EchoSystem.ZeroBurstBlocks`), so that the main loop is left with its timed return only.
* **"blocked permanently".** For any other size the main loop takes that return only when
  `epoll_wait` was late although something watched was ready (`EpollEcho.Epoll.Mainloop`): the
  program has no such state of its own.
* **A failing write under EPOLLOUT** in the client's handler would stop the echo for good
  (`EchoSystem.FailedWriteStalls`, `EchoSystem.StalledForever`); everything else relies on writes
  to make progress when the socket was reported writable.
* **Negative request or sleep numbers** come back modulo 2^64 (`HttpRequest.ReadRequests`), and
  request number 0 counts as no request, as in the source.
* **`Thread::step`** waits forever exactly when the worker's test function returns inside it
  (`Baton.NoLostWakeup`), as one step() too many does for every test function
  (`Baton.StepTooMany`).

## Model

| member | source | states |
|---|---|---|
| ResetInvariant.InitialInv | src/genmc_reset_algo.c:15-20 | the start state (any amount written and read, not resetting) satisfies the invariant |
| ResetTheorems.StepInv | src/genmc_reset_algo.c:22-70 | every store, load, write and copy of either thread, in any interleaving and with any store the memory model lets it load, keeps the invariant |
| ResetTheorems.RunInv | src/genmc_reset_algo.c:22-70 | so does every run, with any number of resets and consumer passes |
| ResetInvariant.AllReadMeansAcknowledged | src/genmc_reset_algo.c:15-18 | the guard of a reset (everything written has been read) holds only when the consumer has acknowledged the previous reset, so two are never pending |
| ResetInvariant.LoadedFlag | src/genmc_reset_algo.c:41-47 | a loaded 1 is the pending reset and shows the rewound pptr; a loaded 0 teaches nothing |
| ResetInvariant.NotResetting | src/genmc_reset_algo.c:44-56 | a second 0 means that cur_pptr is of the round being read, or that the reset is acknowledged |
| ResetInvariant.ClearInv | src/genmc_reset_algo.c:62-63 | the relaxed store of 0, before or after the producer's 1 in modification order, keeps the invariant |
| ResetTheorems.Detection | src/genmc_reset_algo.c:41-67 | reset seen: cur_pptr was stored after the latest reset, none of whose characters was read; not seen: cur_pptr is of the round being read, and equals gptr if that round was reset meanwhile |
| ResetTheorems.OneReset | src/genmc_reset_algo.c:50-60 | both assertions of the consumer thread, for any initial fill and any list of later stores |
| ResetTheorems.ReadsContinue | src/genmc_reset_algo.c:61-67 | the next character copied is the next one written, and its cell still holds it: nothing is skipped, repeated or overwritten, over any number of resets |
| ResetTheorems.CopiesArePrefix | src/genmc_buffer_reset_test.c:282-314 | the copied characters are those written, in order, but for racy ones; with an acquire reload nothing is racy |
| ResetTheorems.CopyKeepsPrefix | src/genmc_buffer_reset_test.c:282-314 | a copy keeps the copied characters a prefix of the written ones, whatever it returns, if and only if the reload acquires, did not happen or returned the same store, or the character precedes the store that line 42 of the algorithm acquired |
| ResetTheorems.ReachablePublished | src/genmc_buffer_reset_test.c:183-188 | m_total_read never shrinks, is what was read between two reads of the consumer, and the store of it that the producer acquired covers all that it rewound over |
| ResetTheorems.OverwritesWhatWasRead | src/genmc_reset_algo.c:15-30 | a write overwrites only characters whose copies are ordered before it, through a store of m_total_read that the producer acquired, and no character of its own round |
| ResetTheorems.LastGptrGuard | src/genmc_buffer_reset_test.c:147-151 | m_last_gptr equal to pptr means that everything was read if and only if the loaded value was stored in the present round |
| ResetTheorems.LastGptrRepeats | src/genmc_buffer_reset_test.c:147-151 | a reachable state in which the newest m_last_gptr equals pptr although a character is unread |
| ResetTheorems.RaceCondition | src/genmc_reset_algo.c:44-48 | a copy is ordered after its write if and only if the reload acquires, did not happen or returned the same store, or the character precedes the store that line 42 acquired |
| ResetTheorems.RelaxedReloadRaces | src/genmc_reset_algo.c:47-47 | an execution with the relaxed reload in which the copied character is not the written one |
| ResetTheorems.Accounting | src/genmc_reset_algo.c:82-86 | the data size computed from the last stores and gptr is what was written minus what was read; pptr is what was written minus m_total_reset |
| ResetTheorems.LatestExists | src/genmc_reset_algo.c:84-86 | m_resetting has a last store in every state the accounting applies to |
| ResetProgress.PollRewinds | src/genmc_reset_algo.c:15-26 | the producer rewinds exactly when the loaded total is everything that was written, with something in the block: pptr is at the start, m_total_reset is what was written, and a store of the block start is the newest m_last_pptr |
| ResetProgress.ToIdle | src/genmc_reset_algo.c:38-70 | from every state of every execution the consumer can come to the end of its pass |
| ResetProgress.ReadEverything | src/genmc_reset_algo.c:66-67 | a pass that loads the newest stores reads all that was flushed, whether it finds a reset or not |
| ResetProgress.Emptied | src/genmc_buffer_reset_test.c:147-168 | whatever is in the block, the consumer can read it and the producer then rewinds |
| ResetProgress.WritesOn | src/genmc_buffer_reset_test.c:170-178 | from every reachable state some run writes one more character, for every capacity above 0 |
| ResetProgress.RewindsAgain | src/genmc_reset_algo.c:22-30 | and some run rewinds the block once more |
| ResetProgress.ManyResets | src/genmc_reset_algo.c:22-30 | for every n there is an execution with n resets |
| ResetProgress.EarlyDetection | src/genmc_reset_algo.c:41-64 | a reachable state in which the consumer cleared m_resetting before the producer set it, whose store can then land before or after |
| GetArea.Consumer.UpdateGetArea | src/genmc_reset_algo.c:61-64 | gptr goes to the block start exactly on a reset; available is cur_pptr minus gptr |
| GetArea.Consumer.Detect | src/genmc_buffer_reset_test.c:190-205 | looks a second time exactly when the first look found an empty buffer |
| GetArea.Consumer.Copy | src/genmc_buffer_reset_test.c:210-219 | copies min(n, available) characters from gptr on, in order, and touches nothing else |
| GetArea.Consumer.Xsgetn | src/genmc_buffer_reset_test.c:183-229 | the characters delivered, gptr, m_last_gptr and m_total_read after a read of at most n characters |
| ReadPass.CopyLoop | src/genmc_buffer_reset_test.c:210-219 | the copy loop, with the characters that the cells hold, is a run of the handshake for any number of characters |
| ReadPass.Pass | src/genmc_buffer_reset_test.c:207-229 | after any detection that found something, a read of at most n characters can go through and delivers the next ones written |
| ReadPass.EveryLook | src/genmc_buffer_reset_test.c:190-229 | every pass of the consumer, in every interleaving: with the offset it loaded last as cur_pptr and its clearing of m_resetting as the reset, it starts where update_get_area leaves gptr, copies min(n, available) characters of the block from there (racy ones may differ), and publishes exactly if something was available |
| ReadPass.ReadAtOnce | src/genmc_buffer_reset_test.c:190-229 | a first look that found something does what Xsgetn requires and does on what that pass loaded, whatever a second would see |
| ReadPass.ReadAtSecondLook | src/genmc_buffer_reset_test.c:195-229 | so do a first look that found nothing and a second one, on what each loaded, with the producer running in between |
| ReadPass.Read | src/genmc_buffer_reset_test.c:190-229 | Xsgetn, given the looks that the passes of a run loaded and the same block, leaves gptr and m_total_read as the run does and delivers the copied characters, but for racy ones |
| EchoSystem.InitialGood | src/epoll_bug.c:393-403 | the sockets as main sets them up satisfy the invariant |
| EchoSystem.StepGood | src/epoll_bug.c:208-287 | every dispatched event, with any short reads and writes, keeps byte flow (trlen2 <= twlen2 <= trlen1 <= twlen1 <= burst_size, each difference the bytes in between), the ledger, and the client's watching of EPOLLOUT exactly while it has backlog; and moves a byte or drops a watched bit, so that the measure decreases |
| EchoSystem.RunGood | src/epoll_bug.c:181-231 | so does every run; no run is longer than 8 * burst_size + 4 events |
| EchoSystem.StaysReported | src/epoll_bug.c:208-229 | what was reported in a batch is still watched and ready when its turn comes, given IN before OUT per object |
| EchoSystem.NeverSticks | src/epoll_bug.c:186-189 | while watched_count is not 0 some watched event is ready, for any positive pipe capacities |
| EchoSystem.Dispatchable | src/epoll_bug.c:208-227 | and whatever is ready can be handled |
| EchoSystem.Drained | src/epoll_bug.c:208-230 | when watched_count is 0, all four totals equal burst_size, both pipes are empty and all sockets are closed |
| EchoSystem.Finishes | src/epoll_bug.c:208-227 | from every reachable state watched_count can be brought to 0 |
| EchoSystem.FinishesExactly | src/epoll_bug.c:208-227 | watched_count can reach 0, where the main loop returns, if and only if burst_size is not 0 |
| EchoSystem.ZeroBurst | src/epoll_bug.c:339-361 | with burst_size 0 the client stays watched in every run |
| EchoSystem.ZeroBurstBlocks | src/epoll_bug.c:363-378 | after two events such a run has no event left, with two bits watched and nothing ready |
| EchoSystem.FailedWriteStalls | src/epoll_bug.c:372-373 | a write that took nothing would leave a backlog without EPOLLOUT |
| EchoSystem.StalledForever | src/epoll_bug.c:341-359 | from there no run ever echoes another byte or brings watched_count to 0 |
| EpollEcho.Epoll.constructor | src/epoll_bug.c:393-401 | main up to the main loop makes the initial state |
| EpollEcho.Epoll.CountBits | src/epoll_bug.c:124-131 | the loop counts the bits that are given |
| EpollEcho.Epoll.Add | src/epoll_bug.c:115-134 | watched_events and watched_count grow by exactly the new bits; the assertion is the precondition that every caller meets |
| EpollEcho.Epoll.Remove | src/epoll_bug.c:157-179 | they shrink by exactly these bits, the descriptor is closed when none is left, and the result says whether anything is watched |
| EpollEcho.Epoll.ListenRead | src/epoll_bug.c:289-310 | accepting watches both bits of the new socket |
| EpollEcho.Epoll.AcceptWriteEvent | src/epoll_bug.c:238-266 | what the write loop moved into pipe 1: all of the burst that the chunk sizes allow unless a write was short, and then nothing after it; false exactly when the burst is written |
| EpollEcho.Epoll.AcceptReadEvent | src/epoll_bug.c:268-287 | what the read loop took from pipe 2, up to the first read that gave nothing; false only after end of file |
| EpollEcho.Epoll.ClientReadEvent | src/epoll_bug.c:339-361 | what the read loop took from pipe 1, up to the first read that gave nothing; EPOLLOUT is added exactly when there was no backlog before, and is never added twice |
| EpollEcho.Epoll.ClientWriteEvent | src/epoll_bug.c:363-378 | what was echoed: the whole backlog unless the write was short; EPOLLIN is removed exactly when the whole burst is echoed; the assertion is the precondition |
| EpollEcho.Epoll.Dispatch | src/epoll_bug.c:210-227 | one reported bit does exactly the transition of EchoSystem, and the loop goes on exactly while something is watched |
| EpollEcho.Epoll.DispatchBatch | src/epoll_bug.c:208-229 | every bit of a batch is dispatched once, from the last entry to the first and IN before OUT, still valid in its turn, unless the loop returns |
| EpollEcho.Epoll.Subtract | src/epoll_bug.c:192-197 | the difference of two clock readings, normalised |
| EpollEcho.Epoll.Mainloop | src/epoll_bug.c:181-231 | the main loop terminates: with all totals equal to burst_size, pipes empty and sockets closed, or by its timed return, which it takes exactly when epoll_wait was late, and then something watched was ready |
| EpollEcho.Echo | src/epoll_bug.c:393-412 | so does the whole program, for any positive burst_size and pipe capacities; with a kernel that reports within a second it always echoes everything |
| HttpScan.Parser.constructor | tests/HtmlPipeLineServerFixture.h:37-37 | a new matcher is at the start of its pattern |
| HttpScan.Parser.Reset | tests/HtmlPipeLineServerFixture.h:38-38 | back to the start of the pattern |
| HttpScan.Parser.Feed | tests/HtmlPipeLineServerFixture.h:49-59 | one step of the matcher; never reads past the pattern when reset after each match |
| HttpScan.IsEndMeans | tests/HtmlPipeLineServerFixture.h:248-252 | what an end of message is: an occurrence of CR LF CR LF that no earlier one overlaps |
| HttpScan.InStepNext | tests/HtmlPipeLineServerFixture.h:49-59 | the matcher follows partial matches after an odd number of CRs only, and fires at an end of message exactly if its run of CRs is odd |
| HttpScan.FiresExactly | tests/HtmlPipeLineServerFixture.h:49-59 | on a stream the matcher fires exactly at the ends of message if and only if each starts with the last of an odd number of CRs |
| HttpScan.MissesAfterDoubleCr | tests/HtmlPipeLineServerFixture.h:49-59 | on CR CR LF CR LF the matcher does not fire at all, and the run of CRs is even |
| HttpScan.FiresWithoutDoubleCr | tests/HtmlPipeLineServerFixture.h:49-59 | it fires correctly on every stream without two consecutive CRs |
| HttpHeader.Header.constructor | tests/HtmlPipeLineServerFixture.h:66-67 | a new header machine is fresh |
| HttpHeader.Header.Reset | tests/HtmlPipeLineServerFixture.h:67-67 | so is one after reset |
| HttpHeader.Header.FeedChar | tests/HtmlPipeLineServerFixture.h:82-131 | one step of the machine, in all six states |
| HttpHeader.ParseLineMeans | tests/HtmlPipeLineServerFixture.h:82-131 | the per-line parser returns a field if and only if the line is that field's key, colon, space, value and CR |
| HttpHeader.Resynchronises | tests/HtmlPipeLineServerFixture.h:129-130 | within a line the machine depends on that line only: every LF is a resynchronisation point |
| HttpHeader.MatchesHeaderLines | tests/HtmlPipeLineServerFixture.h:82-131 | the machine over a stream equals the per-line parser: it matches exactly at the ends of header lines, with their key and value |
| HttpMessage.ScanIsBoth | tests/HtmlPipeLineServerFixture.h:223-263 | the two machines, fed and reset together, do on any stream what each does alone |
| HttpMessage.ScanMessage | tests/HtmlPipeLineServerFixture.h:223-263 | a message of any lines is reported as its header fields in order, then its end, and leaves both machines fresh |
| HttpText.StrToULRoundTrip | tests/HtmlPipeLineServerFixture.h:258-262 | strtoul reads back every printed int or unsigned long, modulo 2^64 |
| HttpText.StrToULReads | tests/HtmlPipeLineServerFixture.h:258-262 | strtoul on any decimal number, with space and a sign before and other characters after, saturating |
| HttpText.NumberLengths | tests/HtmlPipeLineServerFixture.h:293-298 | how long printed ints and unsigned longs can be |
| HttpRequest.ReadAppend | tests/HtmlPipeLineServerFixture.h:208-272 | what is read does not depend on how the stream is cut into chunks |
| HttpRequest.ReadIsInterpret | tests/HtmlPipeLineServerFixture.h:246-263 | reading is interpreting the header fields and message ends in order |
| HttpRequest.FieldsAsk | tests/HtmlPipeLineServerFixture.h:255-263 | of any header fields the last X-Sleep and X-Request count, and any X-must-close |
| HttpRequest.ReadMessage | tests/HtmlPipeLineServerFixture.h:208-272 | any message with well-formed fields is read as one wanted reply, as these fields ask |
| HttpRequest.ReadRequest | tests/HtmlPipeLineServerFixture.h:510-543 | one generated request is read back as exactly one reply with its number, sleep and must-close flag |
| HttpRequest.ReadRequests | tests/HtmlPipeLineServerFixture.h:208-272 | so is any list of them, concatenated: one each, in order |
| HttpRequest.NonNegativeMeaning | tests/HtmlPipeLineServerFixture.h:510-543 | a number comes back unchanged if and only if it is not negative |
| HttpReply.ContentLengthIsExact | tests/HtmlPipeLineServerFixture.h:20-29 | the printed Content-Length is the length of what follows the head |
| HttpReply.SizesFit | tests/HtmlPipeLineServerFixture.h:291-298 | both size assertions hold for all counters, instances and request numbers |
| HttpReply.HeadEndIsFirst | tests/HtmlPipeLineServerFixture.h:20-29 | the client's head ends at the first CR LF CR LF; the client is defined without the server's machines |
| HttpReply.HeadEndOfMessage | tests/HtmlPipeLineServerFixture.h:20-29 | the head of a message ends at its empty line, whatever follows |
| HttpReply.ReplyContentLength | tests/HtmlPipeLineServerFixture.h:20-29 | the number that the client reads in the Content-Length line is the length of what follows the head |
| HttpReply.ReplyFields | tests/HtmlPipeLineServerFixture.h:20-29 | what a client finds in the head under Content-Length, X-Connection, X-Request and X-Reply |
| HttpReply.ContentNumbers | tests/HtmlPipeLineServerFixture.h:293-297 | the numbers in the content are those of the reply, the connection and the request, in this order |
| HttpReply.SplitFirst | tests/HtmlPipeLineServerFixture.h:20-29 | one reply in front of anything is split off whole by its Content-Length |
| HttpReply.SplitReplies | tests/HtmlPipeLineServerFixture.h:20-29 | concatenated replies split back into exactly these replies |
| HttpServer.DrainOrder | tests/HtmlPipeLineServerFixture.h:315-383 | process_replies writes awake replies only, from the front, without a gap, until it has to wait, and nothing once closed |
| HttpTiming.DrainExactly | tests/HtmlPipeLineServerFixture.h:315-383 | process_replies, exactly: of the replies before the first sleeping one those up to a must-close one are written, it closes exactly if there is such a must-close one, and the rest stays queued |
| HttpTiming.DrainClosesAwake | tests/HtmlPipeLineServerFixture.h:327-337 | it closes only for a must-close reply that neither sleeps nor has a sleeping one before it |
| HttpTiming.EnqueueWaits | tests/HtmlPipeLineServerFixture.h:299-311 | behind a sleeping reply, or with a sleep, queue_reply writes nothing and leaves one more reply, with that sleep, request, close flag and number |
| HttpTiming.EnqueueWrites | tests/HtmlPipeLineServerFixture.h:299-311 | on an idle connection and without a sleep it writes the reply at once, closes after it if it must, and only closes if it has no request |
| HttpTiming.TimedOutFirst | tests/HtmlPipeLineServerFixture.h:415-422 | the expiry of the first timer writes the first reply or closes |
| HttpTiming.TimedOutBehind | tests/HtmlPipeLineServerFixture.h:415-422 | the expiry of a later timer wakes that reply and nothing else |
| HttpTiming.FailedCloses | tests/HtmlPipeLineServerFixture.h:274-280 | a read error empties the queue, closes and writes nothing |
| HttpServer.CloseFront | tests/HtmlPipeLineServerFixture.h:331-381 | a must-close reply is the last that is written, and is written only if it has a request |
| HttpServer.EnqueueInv | tests/HtmlPipeLineServerFixture.h:291-312 | queueing a reply keeps order and settledness, and changes nothing that was written |
| HttpServer.TimedOutInv | tests/HtmlPipeLineServerFixture.h:415-422 | so does the expiry of the timer of any reply in the queue |
| HttpConnection.PendingReply.constructor | tests/HtmlPipeLineServerFixture.h:144-145 | a new reply is awake, with no flag set |
| HttpConnection.PendingReply.SetSleeping | tests/HtmlPipeLineServerFixture.h:165-177 | sets the sleep, or wakes up for 0 |
| HttpConnection.PendingReply.Wakeup | tests/HtmlPipeLineServerFixture.h:152-152 | the reply is awake and otherwise unchanged |
| HttpConnection.PendingReply.TimedOut | tests/HtmlPipeLineServerFixture.h:415-422 | an expiry does what HttpServer.TimedOut says; a cancelled timer does nothing |
| HttpConnection.TcpConnection.constructor | tests/HtmlPipeLineServerFixture.h:204-206 | a new connection is in the initial state of a run |
| HttpConnection.TcpConnection.HandleRead | tests/HtmlPipeLineServerFixture.h:208-281 | a completed read, an aborted one and a failed one do what HttpServer.Receive, nothing and HttpRun.Failed say |
| HttpConnection.TcpConnection.HandleChar | tests/HtmlPipeLineServerFixture.h:223-263 | one character of the loop |
| HttpConnection.TcpConnection.QueueReply | tests/HtmlPipeLineServerFixture.h:291-312 | exactly one reply, formatted with the next m_reply (wrapping around) and flagged as requested, is queued and the queue processed |
| HttpConnection.TcpConnection.ProcessReplies | tests/HtmlPipeLineServerFixture.h:315-383 | the loop over the queue does what HttpServer.Drain says |
| HttpRun.StepContinues | tests/HtmlPipeLineServerFixture.h:208-422 | every read, error and timer expiry keeps the order of replies and leaves the connection settled |
| HttpRun.RunContinues | tests/HtmlPipeLineServerFixture.h:208-422 | after any run the queued replies are those to the stream read so far, however it was cut and whenever timers expired |
| HttpRun.RepliesInOrder | tests/HtmlPipeLineServerFixture.h:291-422 | for generated requests: what was written is a prefix of their replies up to the first must-close one, none written asleep; and the connection is closed, idle or waits for its first reply's timer |
| HttpRun.AllRepliesWritten | tests/HtmlPipeLineServerFixture.h:291-422 | once all was read and all timers expired, exactly these replies were written |
| HttpRun.ClientReadsReplies | tests/HtmlPipeLineServerFixture.h:366-369 | a client that frames by Content-Length reads back exactly the replies written, which are a beginning of those to be written |
| HttpTiming.WrittenExactly | tests/HtmlPipeLineServerFixture.h:208-422 | after any run without a read error, of the requests before the first whose timer is still to expire those up to a must-close one are answered, reply i with request number i, and the connection is closed exactly if there was such a must-close one; with a read error no more than that was written |
| HttpTiming.ErrorCloses | tests/HtmlPipeLineServerFixture.h:274-280 | after a read error the connection is closed for good |
| HttpTiming.TimersFinish | tests/HtmlPipeLineServerFixture.h:415-422 | from every settled state the expiry of the timers leads to a closed connection or an empty queue |
| HttpTiming.EveryRequestAnswered | tests/HtmlPipeLineServerFixture.h:208-422 | whenever all generated requests were read, the remaining timers bring all replies that are due onto the wire |
| LockFreeList.StepRefines | src/genmc_sll_test.c:27-54 | every load, compare-exchange, exchange and deletion is a step of a stack with atomic push and take-all, in which every node is in exactly one place and all chains are acyclic and disjoint |
| LockFreeList.RunRefines | src/genmc_sll_test.c:27-54 | so is every execution of any number of producers and consumers |
| LockFreeList.NeverDeletedTwice | src/genmc_sll_test.c:44-51 | the assertion never fails, and the consumer's read of next happens after the producer's write |
| LockFreeList.FewFailures | src/genmc_sll_test.c:32-34 | no producer's compare-exchange fails more than N - 1 + M times except spuriously |
| ListProgress.FailureUpdates | src/genmc_sll_test.c:33-33 | a failing compare-exchange writes the found value to node->next and changes nothing else |
| ListProgress.RetrySucceeds | src/genmc_sll_test.c:33-34 | having found the newest value, the retry can succeed |
| ListProgress.FailuresCounted | src/genmc_sll_test.c:32-34 | the failures counted are the compare-exchanges of the run that found another value than expected |
| ListProgress.FewRealFailures | src/genmc_sll_test.c:32-34 | there are at most N - 1 + M of them per producer |
| ListProgress.FailureHappens | src/genmc_sll_test.c:32-34 | a run in which one happens |
| ListProgress.EveryRunCompletes | src/genmc_sll_test.c:59-75 | from every state of every execution all threads can come to their end |
| LockFreeList.AllAccountedFor | src/genmc_sll_test.c:76-91 | after all threads ended, list and deleted nodes together are all nodes |
| LockFreeList.CountList | src/genmc_sll_test.c:76-83 | the loop over the list ends and counts it |
| LockFreeList.CountDeleted | src/genmc_sll_test.c:85-89 | the loop over the nodes counts the deleted ones |
| LockFreeList.FinalCount | src/genmc_sll_test.c:59-95 | the final assertion holds after every execution |
| Baton.StepInv | src/epoll_states.cxx:101-149 | every step of controller and worker, spurious wake-ups included, keeps the invariant |
| Baton.RunInv | src/epoll_states.cxx:101-149 | so does every run |
| Baton.Alternation | src/epoll_states.cxx:101-149 | controller code and worker code never run at the same time, and m_state is stable while the controller runs |
| Baton.StepReturnsNextPause | src/epoll_states.cxx:128-149 | the k-th step() returns the state of the worker's next pause |
| Baton.NoLostWakeup | src/epoll_states.cxx:101-149 | never both sleep; nothing but a spurious wake-up can happen exactly if the worker returned inside a step(), which asked for one pause more than there is |
| Baton.AllStepsReturn | src/epoll_states.cxx:101-149 | for every test function there is an execution in which each of its pauses is answered by a step() |
| Baton.StepTooMany | src/epoll_states.cxx:139-149 | and one in which one more step() waits with the worker gone |
| Baton.StepWithoutPause | src/epoll_states.cxx:101-149 | an execution in which the first step() waits with the worker gone: the test function never pauses |

## Left out

* Everything inside the evio, threadpool, utils and libcwd submodules, and the tests that only call them.
* The bodies of `update_put_area`, `update_get_area`, `sync_egptr`, `store_last_gptr` and `get_data_size` are not part of this model. The reset steps are those of `src/genmc_reset_algo.c`. The producer's guard is modelled as an acquire load of `m_total_read`, which `src/genmc_buffer_reset_test.c:226` stores last, being equal to what was written, with something in the block. The repository says that the guard reads `m_last_gptr` instead (`src/genmc_buffer_reset_test.c:147-151`), which is stored just before. Over several resets that value can repeat (`ResetTheorems.LastGptrRepeats`), so a guard on it needs more than equality with pptr; `ResetTheorems.LastGptrGuard` says what makes the two guards equal. What the unseen code adds to ensure it is not modelled.
* ResetTheorems.CopiesArePrefix: with the relaxed reload of the source the prefix is proved for the characters that did not race with their write, because the others can be wrong (ResetTheorems.RelaxedReloadRaces); ResetTheorems.CopyKeepsPrefix says exactly which.
* The reset model has one memory block, as the tests have; switching between blocks is not modelled.
* Memory is release/acquire with views, without load buffering: a load returns a store that was executed before. A release sequence continues through read-modify-writes only, as in C++20, which allows more executions than C11 does.
* EpollEcho.Epoll.Mainloop: the kernel is its contract (FIFO byte counts, level-triggered readiness, progress right after a report, epoll_wait empty only after its timeout and a bounded number of times); the printing of stalls, EPOLLHUP, EPOLLERR and other failing system calls are not modelled.
* EpollEcho.Epoll.ListenRead: the event object of the accepted socket exists from the start, instead of being allocated when the connection is accepted.
* Byte counters of the echo are unbounded; the proved bound by burst_size is what keeps the C types from wrapping.
* HttpConnection.TcpConnection.QueueReply: m_reply wraps around after INT_MAX, where C++ leaves the overflow undefined.
* HttpConnection.PendingReply: timers are the sleep they are armed for, without real time; a popped reply's timer is cancelled with it. Line 374 of the fixture, which reads `r` after `pop_front`, is taken as the reply just popped.
* Writes to the HTTP socket complete in order and without error; Boost.Asio, the accept loop of `tcp_server` and the debug output are left out.
* `Thread::pause` with `no_wait`, `stop()`, exceptions and signals in `src/epoll_states.cxx`: alternation is given up there on purpose. Baton.NoLostWakeup states when a step is left waiting.
* `MyDecoder::end_of_msg_finder` in `src/tls_socket.cxx` and the probing loop of `tests/test_set_XXXsockbuf.h`.
