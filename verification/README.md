# Verification of the alarm path and of the HTTP codecs and protocols under it

qalarm takes alarms from any number of threads, queues them in a lock-free ring, and lets one worker
thread filter them by rate and hand them to interceptors and exporters; the HTTP exporter rests on the
vendored `src/httplib.h`. This project models the parts of that program whose correctness is hard to see
and proves what they promise, for every input, every run and every schedule:

- **The ring** (`src/queue.h`). `RingProtocol` is a step system: one atomic load, store, compare-exchange,
  construction or move of one thread per step, any number of producers, one consumer. `RingSafety` has its
  invariant, `RingFifo` the refinement of an unbounded FIFO queue, `RingLap` the exact role of the lap
  hypothesis. `MpscQueue` is the same ring as an object over an array, with the source's loops, and with
  other threads' steps allowed between any two of its accesses.
- **The limiter and the worker** (`src/alarmer.cpp`). `Limiter` has `check` and its scheduling theorems,
  `AlarmPath` the system of producers, ring, worker, interceptors, exporters and shutdown, `Alarmer` the
  worker's loops as methods.
- **Query strings and multipart forms** (`src/httplib.h`). `HttpText` and `QueryText` hold the text helpers
  and the query printer and parser; `MultipartForm` and `MultipartHeaders` the form serializer and streaming
  parser as functions, `MultipartRoundTrip` their round trip, `MultipartTrace` what the parser can report
  about any text at all, `MultipartExact` the exact condition of the round trip, `MultipartLoss` what arrives
  otherwise, `MultipartRefusal` what a refusing callback changes; `MultipartParser` the parser as an object with
  its compacting buffer.
- **Streams and chunked bodies** (`src/httplib.h`). `SocketStream` is the buffered stream and the line
  reader; `ChunkedText` what goes over the wire; `ChunkedTransfer` the writer over partial sends and the
  reader over short receives.
- **Thread pool and client** (`src/httplib.h`). `ThreadPool` and `ClientSocket` are step systems, with
  `ClientRuns` for what holds in every run of the second, `ClientErrors` for its retry and `ClientSchedules` for
  whole requests as schedules; `PoolSections` and `ClientSections` are the objects, method by method, tied to
  the steps they carry out.
- **Ranges and base64** (`src/httplib.h`): `Ranges`, `Base64`.

`Basics` and `ModularIndex` hold what the others share.

Atomic operations are taken to be sequentially consistent: steps of threads interleave, and each sees the
effects of all before it. Characters stand for bytes: a byte string is a string of characters below 256.

Where code and expectation part ways, the code is modelled and the difference is a theorem:

- The ring's indices carry no lap counter. With `capacity` claims between a producer's load of `head_` and
  its compare-exchange the ring overruns (`RingLap.OneLapOverruns`); with fewer it never does. No schedule at
  all overruns it exactly if there is at most one producer (`RingLap.NoOverrunJustWhenAlone`).
- `TryEmplace` can refuse a value on an empty ring (`RingLap.StaleRefusal`). A refusal means that the ring is
  full exactly if whole laps were claimed since the producer loaded `head_`
  (`RingLap.RefusalMeansFullJustAfterWholeLaps`), and a caller can rely on it exactly if it is the only
  producer (`RingLap.RefusalsMeanFullJustWhenAlone`).
- A limiter spaces alarms whatever its clock does, but with a clock that jumps back it need not let through
  as many as it could. For given times and levels it is optimal under every assignment of ids if and only
  if there is no trap: three readings of which the third is a window away from the second but not from the
  first (`Limiter.OptimalJustWhenTrapFree`).
- A form arrives whole if and only if its opening boundary line comes whole in the first segment with anything
  in it (`MultipartExact.RoundTripJustWhenOpeningComesWhole`). Otherwise parts are lost although no call of
  `parse` fails; if none arrives the body is not found valid (`MultipartLoss.WhatArrives`).
- The writer of a chunked body can report success for a body without a terminator: a reader gets a whole
  body exactly if the provider called `done` before the loop ended (`ChunkedText.CompleteJustWhenDone`). An
  empty write ends the loop (`ChunkedText.EmptyWriteLeavesBodyOpen`), and so does a server that begins to
  shut down between two calls of the provider (`ChunkedText.ShutdownLeavesBodyOpen`). Where `unsigned long`
  is narrower than the sizes of strings, a chunk as long as its largest value or longer is refused
  (`ChunkedText.DecodeUndoesEncode`).
- A pool without workers accepts jobs and shuts down without running them (`ThreadPool.ShutdownKeepsItsPromise`).
- The check in `ClientImpl::send` that a request to be retried has failed holds in every run exactly if no
  call is given an `Error` variable that already holds that error, or that another call is using
  (`ClientErrors.RetryCheckHolds`). Only a new connection resets the error, so a request over a connection
  that was kept alive can succeed and keep it, and so can one whose callback passes the variable on. Whether
  this client speaks TLS matters only where nothing else sets the variables (`ClientErrors.RetryCheckHoldsAlone`).
- `stop` during a request is honoured unless that request makes another one, from a callback or for a redirect
  (`ClientRuns.StopIsHonoured`, `ClientRuns.OnlyInnerRequestsOverride`); such a request forgets the stop and can
  leave a socket open (`ClientSchedules.StopCanBeLost`).
- Byte ranges past the end, which section 14.1.2 of RFC 9110 cuts off at the end, are refused
  (`Ranges.OneRange`).

## Model

| member | source | states |
|---|---|---|
| RingSafety.InitInv | src/queue.h:14-48 | the ring the constructor leaves, both indices zero and every slot unused and not ready, satisfies the invariant |
| RingSafety.StepInv | src/queue.h:82-185 | every step of every thread, under the lap hypothesis for that step, keeps the invariant: each slot is held by its one unpublished producer, or holds its own claim's value, or is empty and not ready |
| RingSafety.RunInv | src/queue.h:82-185 | so does every lap-free run |
| RingSafety.ClaimIsFresh | src/queue.h:98-106 | a producer whose compare-exchange succeeds within a lap saw `head_` unchanged: nothing was claimed in between |
| RingSafety.ReadyMeansNext | src/queue.h:130-135 | a slot the consumer finds ready holds the next claim's value, not yet taken |
| RingFifo.RingIsSafe | src/queue.h:95-138 | in every lap-free run of any number of producers: at most capacity - 1 claims are undelivered, equal indices mean empty and adjacent ones mean full, no slot without an object is ever moved from, queued slots hold their claims, spare slots are empty |
| RingFifo.FullCheckIsExact | src/queue.h:102-103 | on fresh indices the full check is true exactly if capacity - 1 claims are undelivered |
| RingFifo.SnapshotIsExact | src/queue.h:165-171 | the bulk pop's snapshot, computed from wrapped indices, is the number of undelivered claims |
| RingFifo.ScanSeesPublication | src/queue.h:173-182 | during the scan a slot reads ready exactly if the next claim is published, although `tail_` still lies before emptied slots |
| RingFifo.StepRefines | src/queue.h:82-185 | each step acts on an unbounded FIFO as an enqueue at the successful compare-exchange, a dequeue of the front at a move, or nothing |
| RingFifo.RunRefinesFifo | src/queue.h:82-185 | the effects of a run, in order, are a legal history of one FIFO, which ends as what the ring holds |
| RingFifo.LogsAreHistories | src/queue.h:98-135 | the log of claims and the log of moved-out values are that history's enqueues and dequeues |
| RingFifo.DeliveredInClaimOrder | src/queue.h:124-185 | from the empty ring, what was moved out followed by what is queued is all that was enqueued, in claim order, each once |
| RingFifo.ProducerOrder | src/queue.h:95-138 | what was popped from one producer is a prefix of what that producer sent, in its program order |
| RingFifo.DestroysTheQueue | src/queue.h:50-55 | with no call running, the destructor destroys exactly the queued values |
| RingLap.FewerThanALapIsSafe | src/queue.h:100-106 | with fewer than capacity claims in between, a successful compare-exchange means the full check made earlier would pass now |
| RingLap.OneLapOverruns | src/queue.h:98-106 | for every capacity, and from two producers on, a run with exactly capacity claims in between reaches equal indices with capacity undelivered values, and TryPop then finds nothing |
| RingLap.NoOverrunJustWhenAlone | src/queue.h:95-111 | in all runs, lap-free or not, fewer than capacity claims are undelivered, if and only if there is at most one producer |
| RingLap.FreshRefusalMeansFull | src/queue.h:101-105 | a producer whose head is fresh is refused exactly if the ring is full |
| RingLap.StaleRefusal | src/queue.h:101-105 | for every capacity, and from two producers on, a lap-free run refuses a value on an empty ring |
| RingLap.RefusalMeansFullJustAfterWholeLaps | src/queue.h:101-105 | a refused producer meets a full ring if and only if the claims made since its load are whole laps |
| RingLap.RefusalMeansFullJustWhenFresh | src/queue.h:101-105 | within a lap of the load, if and only if there were none |
| RingLap.RefusalsMeanFullJustWhenAlone | src/queue.h:101-105 | in all lap-free runs every refusal means full, if and only if there is at most one producer |
| MpscQueue.MPSCQueue.constructor | src/queue.h:14-48 | for the capacities the buffer is sized for, a valid empty ring |
| MpscQueue.MPSCQueue.TryEmplace | src/queue.h:95-111 | with any steps of other threads between its accesses, either exactly one claim of the value is made and published and the call logged, or no trace is left and the full test was true of a `head_` and a later `tail_` read during the call; undisturbed, it succeeds exactly if there is room |
| MpscQueue.MPSCQueue.TryPop | src/queue.h:124-138 | true with the next claim's value and that claim consumed, or false and nothing changed; a front published before the call is never missed |
| MpscQueue.MPSCQueue.TryPopBulk | src/queue.h:163-185 | returns exactly the next claims in order with one store of `tail_` and producers running in between, at least every one published without a hole when the call began |
| MpscQueue.MPSCQueue.Drain | src/queue.h:173-182 | the scan stops only at its snapshot or at a claim not yet published |
| Limiter.RateLimiter.constructor | src/alarmer.cpp:12-17 | the table holds the six levels' windows and no id has been seen |
| Limiter.RateLimiter.Check | src/alarmer.cpp:105-119 | lets a message through exactly if its id is new or its own level's window has passed, and then remembers the time |
| Limiter.IdsAreIndependent | src/alarmer.cpp:105-119 | what is let through for an id depends only on the messages with that id |
| Limiter.AdmittedAreSpaced | src/alarmer.cpp:113-118 | for any clock, readings let through for an id increase by at least the later one's window |
| Limiter.AtMostOnePerWindow | src/alarmer.cpp:12-17 | at most L/3 + 1 of them lie in any interval of L seconds |
| Limiter.GreedyKeepsUp | src/alarmer.cpp:108-118 | without traps, letting through as early as possible keeps up with any other spaced choice |
| Limiter.TrapFreeIsOptimal | src/alarmer.cpp:105-119 | for readings without traps, any ids and any levels, what is let through for an id is a longest properly spaced subsequence of the messages with that id |
| Limiter.OptimalJustWhenTrapFree | src/alarmer.cpp:105-119 | for given times and levels that is so under every assignment of ids if and only if there is no trap |
| Limiter.LimiterIsOptimal | src/alarmer.cpp:105-119 | in particular for every clock that does not run backwards |
| Limiter.BackwardClockIsNotOptimal | src/alarmer.cpp:106-118 | with a clock that jumps back, one message can be let through where three would have kept their distance |
| AlarmPath.NextInv | src/alarmer.cpp:22-58 | every event of producers, worker and shutdown keeps the end-to-end invariant |
| AlarmPath.RunPathInv | src/alarmer.cpp:22-58 | so does every run under the lap hypothesis |
| AlarmPath.EveryAlarmHasOneFate | src/alarmer.cpp:22-49 | each accepted alarm is in exactly one place: queued, being processed, suppressed, handed to all, or discarded with the queue |
| AlarmPath.AlarmPathIsCorrect | src/alarmer.cpp:22-58 | in every such run the checked alarms are a prefix of the claim order, every sink has the limiter's filter of that prefix, what each producer was told is accepted is among its claims in order, and every alarm has one fate |
| Alarmer.AlarmWorker.Turn | src/alarmer.cpp:24-36 | one turn checks at most one alarm with that turn's clock, and does check one if the front was published |
| Alarmer.AlarmWorker.Work | src/alarmer.cpp:22-37 | after any number of turns and any schedule, every sink has the filter of a prefix of the claims |
| Alarmer.AlarmWorker.DestroyQueue | src/queue.h:50-55 | what was checked and what the destructor destroys are together all accepted alarms |
| HttpText.TrimBounds | src/httplib.h:2567-2576 | the bounds enclose the text without outer blanks |
| HttpText.SplitText | src/httplib.h:2590-2615 | calls back for each trimmed, non-empty piece between delimiters, in order |
| HttpText.SplitJoin | src/httplib.h:2595-2615 | splitting undoes joining for pieces that are non-empty, free of the delimiter and of outer blanks |
| QueryText.EncodeQueryParam | src/httplib.h:2459-2478 | the percent encoding of a value |
| QueryText.DecodeUrl | src/httplib.h:2512-2547 | the decoding of a text, with `%uXXXX` and plus signs |
| QueryText.DecodeEncode | src/httplib.h:2512-2547 | decoding undoes encoding for every byte string, whether plus means space or not |
| QueryText.EncodedIsPlain | src/httplib.h:2464-2473 | an encoded value has no delimiter and no blank, and is empty only for the empty value |
| QueryText.ParamsToQueryStr | src/httplib.h:4301-4311 | prints key, equals sign and encoded value, with ampersands in between |
| QueryText.ParseQueryText | src/httplib.h:4313-4334 | the parameters of a query text, each distinct piece once |
| QueryText.PrintIsInjective | src/httplib.h:4301-4311 | different printable parameters print differently |
| QueryText.ParseQueryOfPrint | src/httplib.h:4301-4334 | parsing a printed list gives that list without repetitions |
| QueryText.QueryRoundTrip | src/httplib.h:4301-4334 | parsing undoes printing exactly if no pair occurs twice |
| MultipartForm.SerializeFormData | src/httplib.h:4743-4756 | the serialized form, for any items; with `finish` false, that without its closing line |
| MultipartHeaders.LinesApply | src/httplib.h:4473-4517 | the header lines of an item, read one by one, give its name, file name and content type |
| MultipartHeaders.DispositionApplies | src/httplib.h:4483-4515 | a printed disposition line gives back the name and the file name |
| MultipartRoundTrip.SerializeIsTail | src/httplib.h:4713-4756 | what the serializer writes is what the parser's states expect, one after the other |
| MultipartRoundTrip.ContentEnds | src/httplib.h:4525-4547 | the boundary cannot overlap itself: a content free of it ends at its first occurrence |
| MultipartRoundTrip.LoopSim | src/httplib.h:4439-4566 | one call of `parse`, wherever its text is cut, leaves unread exactly what it has not reported, and with nothing to come it has reached the end |
| MultipartRoundTrip.ParseUndoesSerialize | src/httplib.h:4422-4569 | for every segmentation whose first segment covers the opening line, the callbacks hear of exactly the items sent, in order and with their whole content, and the body ends valid |
| MultipartRoundTrip.SegmentationDoesNotMatter | src/httplib.h:4434-4569 | any such segmentation is indistinguishable from one single call |
| MultipartRoundTrip.ShortOpeningIsForgotten | src/httplib.h:4441-4447 | a first segment that ends inside the opening line leaves the parser as new |
| MultipartLoss.WhatArrives | src/httplib.h:4441-4447 | for every segmentation of a body whose opening line occurs only where a part begins: no call of `parse` fails, exactly the parts from the first whose opening line comes in one segment arrive, and the body is found valid exactly if any part arrives |
| MultipartTrace.ReportedIsThere | src/httplib.h:4434-4569 | for any text and any segmentation, serialized or not: if no call of `parse` fails and the body is found valid, every entry reported is shown by the text, in order: its content is the stretch behind an empty line and in front of the next boundary, or the begin of that stretch for a last entry still being read, and an entry without header lines has no description |
| MultipartExact.LaterOpeningMisleads | src/httplib.h:4441-4564 | a parser that starts at a later opening line, which a content or a content type can show by chance, never reports all contents together with the first description |
| MultipartExact.RoundTripJustWhenOpeningComesWhole | src/httplib.h:4434-4569 | for every form the serializer can send and every segmentation: the body is found valid and exactly what was sent is reported, if and only if the first segment with anything in it holds the whole opening line |
| MultipartRefusal.RefusalEndsTheParse | src/httplib.h:4434-4569 | for any text and any segmentation, if the callbacks refuse one call and the parse comes to it, it fails, the body is not found valid, and the callbacks have heard exactly what they would have heard up to that call; otherwise nothing changes |
| MultipartParser.MultipartFormDataParser.BufFind | src/httplib.h:4617-4638 | the first occurrence of a text in the buffered part |
| MultipartParser.MultipartFormDataParser.BufAppend | src/httplib.h:4640-4656 | moving the unread part to the front in place and appending loses nothing |
| MultipartParser.MultipartFormDataParser.Parse | src/httplib.h:4434-4569 | one call of the parser object is one step of the parser as a function |
| MultipartParser.MultipartFormDataParser.ParseAll | src/httplib.h:4434-4569 | so is a whole body, segment by segment |
| SocketStream.SocketStream.Read | src/httplib.h:5503-5547 | whatever recv returns, what is read followed by what is still ahead is what was ahead before |
| SocketStream.SocketStream.ReadMany | src/httplib.h:5503-5547 | any sequence of reads returns a prefix of the stream and leaves the rest ahead |
| SocketStream.LineReader.Append | src/httplib.h:2669-2680 | adds one character to the line, in the fixed buffer or in the growing one |
| SocketStream.LineReader.Getline | src/httplib.h:2643-2667 | the line is the stream cut after its first line feed or at its end, wherever it is kept, and no byte is lost |
| SocketStream.LineOfWithBreak | src/httplib.h:2647-2664 | a text without a line feed, followed by one, is the line of any stream that starts so |
| ChunkedText.FromIToHex | src/httplib.h:2331-2339 | the lower-case hexadecimal digits of a size |
| ChunkedText.SizeReadsBack | src/httplib.h:3926-3928 | strtoul reads every printed size back |
| ChunkedText.BlankLine | src/httplib.h:3939-3951 | a line compares equal to CRLF exactly if it is CRLF, even though strcmp stops at NUL |
| ChunkedText.DecodeIsPrefixFree | src/httplib.h:3914-3967 | whatever decodes is settled by the text up to the end of its terminator: no shorter text is taken for a whole body and nothing later matters |
| ChunkedText.GroupingDoesNotMatter | src/httplib.h:4169-4262 | however a provider spreads its writes over calls, the same bytes are sent |
| ChunkedText.DecodeUndoesEncode | src/httplib.h:3914-3967 | decoding undoes encoding for all lists of non-empty pieces and stops at the end of the terminator, exactly if every piece is shorter than the largest value of `unsigned long` |
| ChunkedText.TruncationIsNoticed | src/httplib.h:3914-3967 | an encoded body cut anywhere before its end is refused |
| ChunkedText.ReaderGetsWhatWasWritten | src/httplib.h:4160-4263 | what a provider writes before it is done is what a reader delivers |
| ChunkedText.CompleteJustWhenDone | src/httplib.h:4160-4263 | for any calls of a provider: what was sent decodes to the writes before `done`, if and only if `done` was called up to the call that ends the loop and the writes before it are below the size limit; in every other case it does not decode |
| ChunkedText.EmptyWriteLeavesBodyOpen | src/httplib.h:4169-4194 | an empty write ends the loop with success and the body without terminator |
| ChunkedText.ShutdownLeavesBodyOpen | src/httplib.h:4248-4263 | so does a shutdown between two calls of a provider that is not done |
| ChunkedTransfer.WriteData | src/httplib.h:4069-4077 | over partial sends, all of the data in order, or a prefix of it and false |
| ChunkedTransfer.ChunkedWriter.SinkWrite | src/httplib.h:4169-4194 | one chunk for a non-empty piece, nothing for an empty one, which ends the loop |
| ChunkedTransfer.ChunkedWriter.SinkDone | src/httplib.h:4198-4240 | the last chunk and an empty trailer |
| ChunkedTransfer.ChunkedWriter.WriteContent | src/httplib.h:4248-4263 | success means that exactly the provider's coding was sent; on a socket that works the outcome and the bytes are as specified |
| ChunkedTransfer.ReadContentWithLength | src/httplib.h:3866-3886 | in pieces of any size, exactly the next bytes of the stream go to the receiver, all of them exactly if there are that many |
| ChunkedTransfer.ReadTrailer | src/httplib.h:3948-3966 | the trailer is skipped to its blank line |
| ChunkedTransfer.ReadContentChunked | src/httplib.h:3914-3967 | over any short reads, success means that the receiver got exactly the decoded content and the stream stands behind the terminator; on a socket that works it succeeds exactly if the text decodes |
| ChunkedTransfer.Transfer | src/httplib.h:4160-4263 | writer and reader together, over partial sends and short receives: success on both sides means that the receiver got the provider's pieces, and on sockets that work both succeed |
| ThreadPool.StepInv | src/httplib.h:666-743 | every step of callers, workers and the closing thread keeps the invariant: one owner of the mutex, order and bound of the queue, tickets, no lost wakeup |
| ThreadPool.RunInv | src/httplib.h:666-743 | so does every run |
| ThreadPool.PoolIsSafe | src/httplib.h:679-729 | jobs are taken in the order they were accepted, once each; the bound is kept; with jobs queued and all workers asleep a notification is pending |
| ThreadPool.OneWorkerPerJob | src/httplib.h:722-727 | no job is run twice or by two workers |
| ThreadPool.ShutdownKeepsItsPromise | src/httplib.h:692-705 | when shutdown has returned, every job accepted before the flag has finished, in every run exactly if the pool has a worker |
| ThreadPool.LateJobCanBeLost | src/httplib.h:692-705 | in a pool of any size a job accepted after the flag can be lost although shutdown has returned |
| ThreadPool.SomeoneCanStep | src/httplib.h:666-743 | unless every call has returned, the workers sleep or are gone and no job is left to a living worker, some thread can step: no deadlock |
| ThreadPool.PoolComesToRest | src/httplib.h:666-743 | the threads by themselves take a bounded number of steps, and where none can step all is at rest |
| PoolSections.Pool.PushJob | src/httplib.h:681-686 | the locked part of enqueue: refuses exactly at the bound, else appends |
| PoolSections.Pool.TakeJob | src/httplib.h:720-723 | the locked part of a worker: leaves only when the flag is set and nothing is queued, and never takes the front of an empty list |
| PoolSections.Pool.SetShutdown | src/httplib.h:694-697 | sets the flag and nothing else |
| PoolSections.Pool.MayGoOn | src/httplib.h:717-718 | the wait's predicate |
| ClientSocket.StepInv | src/httplib.h:6967-7064 | every step of every thread inside send, its callbacks and stop keeps the invariant: mutexes, count, stop requests, no socket overwritten |
| ClientRuns.RunInv | src/httplib.h:6967-7064 | so does every run |
| ClientRuns.CountIsActiveCalls | src/httplib.h:7022-7045 | the count of requests in flight is the number of active calls of the thread that holds the request mutex, no other thread has one, and the recorded thread is that one while the count is positive |
| ClientRuns.ClosesOnlyItsOwn | src/httplib.h:6912-6929 | wherever the socket is closed, nothing is in flight or the recorded thread closes it itself, and no other thread has a request on it |
| ClientRuns.SocketChanges | src/httplib.h:6986-7002 | an open socket only ever gives way to none, by such a step, and a closed one to a new one |
| ClientRuns.CountingIsSafe | src/httplib.h:7022-7043 | the checks around the count hold: it never drops below zero and a positive one belongs to the calling thread |
| ClientRuns.StopIsHonoured | src/httplib.h:8066-8087 | after a stop that finds requests in flight, if no request looks at the socket in between, the socket is closed as soon as nothing is in flight |
| ClientRuns.OnlyInnerRequestsOverride | src/httplib.h:6978-6998 | while requests are in flight only a request made inside one of them, by the same thread, looks at the socket and forgets a stop |
| ClientSchedules.StopCanBeLost | src/httplib.h:6983-6998 | a run in which such a request, of a callback or of the client itself, forgets the stop: in the end nothing is in flight and a socket is open |
| ClientErrors.TidyCallsAreSafe | src/httplib.h:6967-6974 | the check that a request to be retried has failed holds in every run in which each call is given a variable that does not hold the error and that nothing else uses until the call returns |
| ClientErrors.RetryCheckHolds | src/httplib.h:6970-6972 | it holds in every run if and only if calls are never given a variable that holds the error, or one that is in use |
| ClientErrors.RetryCheckHoldsAlone | src/httplib.h:6970-6972 | where only this client sets the variables, if and only if that is so or there is no TLS |
| ClientErrors.ForeignStaleError | src/httplib.h:6967-7064 | with or without TLS, a variable in which another client left the error fails the check over a connection that was kept alive |
| ClientErrors.ForeignSharedError | src/httplib.h:6967-7064 | so does one that another client is given while a request uses it |
| ClientErrors.OwnStaleError | src/httplib.h:6967-7064 | with TLS, a request fails twice, another one opens a connection that is kept alive, and a third, sent with the first one's error, succeeds on it and fails the check |
| ClientErrors.OwnSharedError | src/httplib.h:6967-7064 | with TLS, a callback sends a request with the variable of the one it runs inside; the inner one fails twice, the outer one succeeds and fails the check |
| ClientRuns.SomeoneCanStep | src/httplib.h:6967-7064 | as long as a call has not returned some thread can step: no deadlock between the two mutexes |
| ClientSections.Client.BeginRequest | src/httplib.h:6978-7028 | the start of a request, from liveness check to count, as the steps of the protocol, with the program's checks in place; the caller's error is reset exactly if the request opens a new connection |
| ClientSections.Client.EnsureSocket | src/httplib.h:6983-7017 | the open socket stays if it is alive and gives way to a new one otherwise |
| ClientSections.Client.EndRequest | src/httplib.h:7038-7053 | the end of a request: the count drops by one and the socket is closed if a stop, the response or a failure asks for it |
| ClientSections.Client.StopNow | src/httplib.h:8066-8087 | sets the flag if something is in flight and closes the socket otherwise |
| ClientSections.Client.CloseInRequest | src/httplib.h:7111-7114 | closing in the middle of one's own request meets the check |
| ClientSections.Client.CloseSocket | src/httplib.h:6912-6929 | under the program's check, the socket is closed |
| Ranges.RangeError | src/httplib.h:4758-4811 | false exactly if the check does not apply or there are at most 1024 ranges, all inside the content, strictly ascending, at most two beginning before an earlier one's end; the ranges are replaced by their positions, up to the first refused one |
| Ranges.AcceptableStep | src/httplib.h:4790-4806 | one more range is acceptable exactly if it passes the loop's three tests |
| Ranges.AcceptedIsBounded | src/httplib.h:4813-4821 | the assertions on accepted ranges hold, each part lies in the content, and together they are at most three times the content less three |
| Ranges.BoundIsReached | src/httplib.h:4758-4811 | that bound is reached for every content of three bytes or more |
| Ranges.OneRange | src/httplib.h:4778-4794 | a single range is accepted exactly if the standard selects something for it and it names nothing past the end, and then the positions are the standard's |
| Ranges.EmptyRangeIsRefused | src/httplib.h:4778-4781 | a range with both positions missing is always refused |
| Base64.Base64Encode | src/httplib.h:2375-2401 | equals the encoding by groups of 24 bits, with the accumulator wrapping at 32 bits |
| Base64.GroupsAreNumbers | src/httplib.h:2386-2391 | the four digits of a group are those of its 24-bit number |
| Base64.ShiftIn | src/httplib.h:2386 | whatever overflowed, the low sixteen bits are the last two bytes |
| Base64.EncodedLength | src/httplib.h:2375-2401 | the output has four characters for every three bytes begun |
| Base64.DecodeUndoesEncode | src/httplib.h:2375-2401 | a decoder gives back every input |
| Base64.CodesUndoesDecode | src/httplib.h:2375-2401 | and accepts nothing but encodings |

## Left out

- RingSafety.StepInv: memory orders weaker than sequential consistency, cache-line layout, `malloc` and `std::align` are not modelled.
- MpscQueue.MPSCQueue.constructor: capacities below 256, for which the source sizes its buffer by the smaller number, are not modelled; the step system takes any capacity from 2 on.
- MpscQueue.MPSCQueue.TryEmplace: the blocking `Emplace` and `Pop` are in the step system only, because whether they return depends on the other threads.
- `MPSCQueue::Front` and the `Pop` without argument: nothing calls them.
- Liveness of the worker's polling, and delivery of alarms still queued at shutdown: the program discards them.
- Limiter.RateLimiter.Check: seconds are unbounded integers; the conversion of the clock to `time_t` is not modelled.
- Message formatting, JSON, message ids as hashes, time zones: the id is an uninterpreted key that does not depend on the level.
- Interceptors and exporters are logs of what they are handed; HTTP, Redis and log back ends are not modelled.
- MultipartForm.SerializeFormData: item providers and random boundaries are not modelled; regular expressions only as far as the serializer's own header lines need them.
- MultipartRoundTrip.ParseUndoesSerialize: a form without items, which the parser never finds valid, is excluded.
- MultipartLoss.WhatArrives: forms whose contents show the opening line by chance are excluded; after a cut opening line such a form can make the parser report entries nobody sent.
- QueryText.ParseQueryText: the multimap is the sequence in which parameters are inserted; the order among equal keys is the multimap's own.
- QueryText.DecodeUrl: `encode_url`, which neither escapes the percent sign nor passes a NUL, is not modelled.
- ChunkedTransfer.ChunkedWriter.SinkDone: trailers are not written, and compressors are the one that does nothing.
- ChunkedTransfer.ReadTrailer: the field lines of a trailer are skipped without being reported.
- ChunkedTransfer.WriteData: a send of a non-empty buffer is taken to send at least one byte or to fail.
- ChunkedTransfer.ReadContentWithLength: progress callbacks, and the readers that skip a body or read to the end of the connection, are not modelled.
- SocketStream.SocketStream.Read: sizes above what the platform's signed size can hold are not modelled.
- ThreadPool.StepInv: jobs that throw are not modelled, nor is a second call of shutdown.
- PoolSections.Pool.PushJob: the object's methods are the sections that run with the mutex held; their interleaving is in the step system.
- ClientSections.Client.BeginRequest: the same holds for the client; the TLS session beside the socket, and the destructor, are not modelled.
- ClientSocket.StepInv: callbacks that throw are not modelled, and callbacks that run while the socket mutex is held, such as the logger during a proxy's CONNECT, make no call of the client.
- Ranges.RangeError: lengths and positions are within the signed size type.
- Base64.Base64Encode: the accumulator's overflow is taken to wrap.
- Header parsing, routing, files, TLS, compression and the request methods of `src/httplib.h` would add only easy members or foreign calls.
