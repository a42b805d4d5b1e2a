# harmony-http: a verified model of its state machines and codecs

harmony-http is an HTTP/2 application server. Its own code is the glue between nghttp2, OpenSSL,
libpq and libev. This project models that glue in Dafny, with the foreign libraries as
nondeterministic oracles, and proves what the glue keeps over every run.

Code that works in place is modelled in place: `Buffer`, `HttpSession`, `Session`, `LazyClient`,
`QueryPrepared`, `EventStream`, `StringStream`, `HttpRequest`, `HttpStream`, `HttpRouter`,
`WorkerThread`, `EventDispatcher`, `MemBlock`, `Worker` and the JSON `Writer` are classes, and the
loops of the source are loops with invariants. Each method is proved equal to a step of a small state
machine, or to a specification function; the lemmas are about runs of those steps and about those
functions.

## Parts

| Files | What they are about |
|---|---|
| `Buffer.dfy`, `OutputPump.dfy` | The 64 KiB output buffer and the pump that moves nghttp2's frames through it into TLS |
| `PipelineRules.dfy`, `Pipeline.dfy`, `LazyClient.dfy`, `Worker.dfy`, `DbConnection.dfy` | The PostgreSQL pipeline: two ways of matching results with queries, the session, stream liveness, prepare-then-execute |
| `EventStream.dfy`, `EventCuts.dfy`, `EventReader.dfy`, `EventDispatcher.dfy` | Server-sent events: resumable writing, pause and resume, which cuts throw, a reader for the format, the registry |
| `StringStream.dfy` | Bodies sent from memory |
| `RoutePath.dfy`, `RouteTrie.dfy`, `RouteTable.dfy`, `RouteMeaning.dfy`, `Router.dfy`, `SharedCaptures.dfy` | The route trie, its meaning as a table of routes and as text, named parameters, and the one capture vector of a worker thread |
| `RequestBody.dfy`, `RequestFrames.dfy` | Delivery of request bodies to coroutines, from frames to the handler; one dispatch per stream |
| `HttpDate.dfy`, `Json.dfy`, `JsonReader.dfy`, `JsonRows.dfy`, `Base64.dfy`, `Percent.dfy`, `MemBlock.dfy` | Codecs, the calendar and the bump allocator |
| `Options.dfy`, `Sequences.dfy`, `Numerals.dfy` | A value that may be missing; regrouping concatenations; bytes and digits |

## How the libraries are modelled

- nghttp2 is the queue of frames it is ready to send. One `nghttp2_session_mem_send` gives any number
  of DATA frames to `send_data_cb`, which may answer would-block (the frame is offered again later),
  and then at most one non-empty chunk. It may fail at any call.
- `SSL_write` takes any non-empty prefix, would block, or fails. After a would-block the model refuses
  any call but the same one again (same position, same bytes).
- libpq is a queue of wire items on their way and a queue of received ones. `PQconsumeInput` moves any
  number. A result is followed by a NULL, a sync mark is not. The server aborts from a failure to the
  next sync point.
- `gmtime_r` is the broken-down time, which is proved unique. `strptime` is a reader of the fixed
  29-character form. `snprintf` cuts to the size it is given.
- `char` is signed, as on x86-64. `size_t`, the stream serial and the 16-bit handler index wrap where
  the model says so.

## Where the code departs from its intent

The model follows the code. Each of these is a proved statement below.

- `EventStream::send` calls `substr` with an underflowed position when a piece ends inside the prefix,
  or begins after the payload. `SafeCut` is the exact condition under which it does not throw,
  `Send` proves it is exact for one piece, `NeverThrowsExactlyWhen` for a whole event,
  `ShortFirstPieceBreaks` gives a run that throws.
- A `RouteNode` that is terminal for one method answers for another one that only passes through it,
  from a slot of `route_index` nobody wrote. `AnswerOfBest` says exactly when, `UnnestedTableReadsGarbage`
  gives a table of two routes.
- Handler indices are cut to 16 bits: `RouterAnswers` states the index modulo 65536.
- All requests of a worker thread share one `thread_local` capture vector, which every dispatch clears
  (src/httprouter.h:76-79, src/httprouter.cc:254). A handler that is suspended while another request is
  dispatched reads that request's level by `get_param`, or past the end (`AnotherRequestsLevel`,
  `ThenTheLatestDispatch`). Its own levels are safe until the next dispatch
  (`OwnLevelsUntilTheNextDispatch`), and for good exactly if the route has no placeholder for the name
  (`SafeExactlyWhenNotAsked`).
- The end of a body is signalled by a DATA frame with END_STREAM only (src/httpsession.cc:508-512). After
  trailers, or for a request without a body, `data()` and `body()` wait forever
  (`TrailersNeverEndTheBody`, `NoBodyNeverEnds`, `ClosedWaitsForEver`).
- A second `body()` returns the body only if the first one was called after the end of the request
  (`SecondBodyReturnsExactlyWhen`). Otherwise it waits forever.
- In `base64_decode_to_file` the counter `j` never advances, so the file also gets a zero byte for
  every missing byte of the last group: it equals the original exactly when the length is a multiple
  of three (`FirstBytesAreTheOriginal`).
- Numeric columns are written as PostgreSQL prints them, so `NaN` and `Infinity` get into the JSON: a
  table reads back exactly if every numeric cell is a JSON number (`TableReadsBackExactlyWhen`).
- Object keys are not escaped: a key reads back exactly when it needs no escape
  (`KeyReadsBackExactlyWhen`).
- A stream serial is handed out again after 2^64 streams (`SerialReusedExactlyWhen`).
- A DATA frame falls through into the HEADERS case; the dispatch guard still holds (`DispatchedOnce`).

Choices made where the code reads uninitialised memory: `methods` of a node starts empty and
`terminal` starts false (src/httprouter.cc:46-51). `dispatched_` may be empty when `read` looks at its
front (src/dbsession.cc:245); the model then has no front query and its stream counts as not alive.
In `src/test_db.cc:103` the same look has no such reading, so there a dispatched query is required.

## Model

| member | source | states |
|---|---|---|
| Buffers.Buffer.Write | src/buffer.h:53-59 | appends exactly the part that fits to the unread bytes and reports its length; what was already drained stays in place |
| Buffers.Buffer.Drain | src/buffer.h:89-95 | removes exactly the given number of bytes, or all there are, from the front of the unread bytes |
| Buffers.Buffer.DrainReset | src/buffer.h:98-105 | the in-place shift keeps the remaining bytes in order and gives back all the drained room |
| OutputPump.MemSentConserves | src/httpsession.cc:118-149 | one request for frames: what was written, the chunk and the frames left are the frames there were, for any room and any would-block |
| OutputPump.FilledConserves | src/httpsession.cc:118-149 | a whole refill: appended bytes, new pending slice and frames left are the old pending slice and frames, in order |
| OutputPump.NextConserves | src/httpsession.cc:332-352 | every step keeps accepted ++ unread ++ pending ++ frames, except a submission, which appends one frame; accepted bytes are never taken back |
| OutputPump.RunConserves | src/httpsession.cc:118-149 | over every run, accepted ++ unread ++ pending ++ frames is the submitted frames in order: no loss, repetition or reordering |
| OutputPump.FragmentationIsInvisible | src/httpsession.cc:332-352 | two runs with the same submissions, however the connection cut them, have accepted comparable prefixes of one byte string, and that whole string once drained |
| OutputPump.RefillStopsExactlyWhen | src/httpsession.cc:342-350 | a refill of the empty buffer comes back empty exactly when nothing is pending and no frame is left that fits the buffer |
| OutputPump.DataReadsBack | src/httpsession.cc:631-648 | by section 6.1 of RFC 9113 the header, the padding length, the data and the zeros are read off the octets of a DATA frame |
| OutputPump.HttpSession.SendData | src/httpsession.cc:622-651 | the space check refuses exactly the frames that do not fit, writing nothing; else the whole frame is written and no buffer assertion fails, for any padding |
| OutputPump.HttpSession.MemSend | src/httpsession.cc:131-145 | is called only with no slice pending, and does what one nghttp2 request means for room and frames |
| OutputPump.HttpSession.FillWb | src/httpsession.cc:118-149 | the loop computes the refill, and fails exactly if nghttp2 failed |
| OutputPump.HttpSession.FillOnce | src/httpsession.cc:120-145 | one iteration flushes the pending slice, or what fits of it, before it asks for more |
| OutputPump.HttpSession.SslWrite | src/httpsession.cc:75-96 | drains exactly what TLS accepted; after a would-block nothing has moved and the watcher is on, so the next call is the same call |
| OutputPump.HttpSession.Write | src/httpsession.cc:332-360 | -1 exactly if TLS failed, nghttp2 failed, or nothing is unread and nghttp2 wants neither to read nor to write; without a failure the call is a run of accepts and refills; a would-block gives 0 with the watcher on and the same write to be retried; otherwise nothing is left but a DATA frame of more than 65536 octets |
| OutputPump.HttpSession.Rounds | src/httpsession.cc:335-352 | the loop ends, by a failure, by exactly one would-block, or with an empty buffer after a refill |
| OutputPump.HttpSession.AcceptedIsPrefix | src/httpsession.cc:332-352 | at every moment the peer has received a prefix of the submitted frames |
| PipelineRules.AnswersSnoc | src/dbsession.cc:315-345 | sending one more query, and its sync, extends the well-formed answers and what they owe by that query's own |
| PipelineRules.AbortedExactlyWhen | src/dbsession.cc:266-271 | a query is aborted exactly when an earlier one failed with no sync point in between |
| PipelineRules.NothingAbortsWhenEveryQuerySyncs | src/dbsession.cc:357-419 | as the session marks every query a sync point, no failure reaches another query |
| PipelineRules.EagerEqualsLazy | src/dbsession.cc:292-310 | popping at the NULL and popping sync points at their mark hand over the same at every moment, for any sync flags and arrivals: in order, each query its own outcome as the server sent it, all of them in the end |
| PipelineRules.DueIsAnswered | src/dbsession.cc:258-276 | what is due is, in order, each sent query with the very outcome the server gave it, those with an empty query left out |
| PipelineRules.ReadTogether | src/test_db.cc:101-173 | one read by each rule keeps them at the same query, the eager one at most a sync mark behind or one query ahead |
| PipelineRules.RunTogether | src/test_db.cc:153-173 | that relation, and what is due, over every run of sends and arrivals |
| Pipeline.MatchedTail | src/dbsession.cc:243-294 | the next item is the front query's own result or the one stray mark, and taking it keeps the answers matched |
| Pipeline.MatchedSnoc | src/dbsession.cc:326-345 | dispatching a query keeps the outstanding answers matched with the dispatched queries |
| Pipeline.Session.SendQuery | src/dbsession.cc:357-365 | submits one query, marked as a sync point, behind all others |
| Pipeline.Session.SendPrepared | src/dbsession.cc:380-405 | records the name as prepared at once and submits the prepare behind all other queries |
| Pipeline.Session.HandleResult | src/dbsession.cc:201-219 | the handler gets exactly the outcome of the result if its stream is alive, and nothing otherwise; it may submit, prepare and execute more queries, queued in order and recorded as prepared |
| Pipeline.Session.ReadResults | src/dbsession.cc:256-291 | the inner loop takes one result and its NULL, or one mark, and calls at most one handler, the front query's |
| Pipeline.Session.ReadRound | src/dbsession.cc:243-296 | one round is the eager rule; the front query finishes with the outcome read, and its handler is called with that outcome, once, exactly if its stream is alive |
| Pipeline.Session.Read | src/dbsession.cc:232-313 | fails exactly if PQconsumeInput failed; else it is the eager rule on whatever arrived; completed ++ dispatched ++ queued stays the submission order, the finished queries are the results taken from the server in order, and the handlers called are those of the finished queries with a live stream, with their outcomes |
| Pipeline.Session.DispatchBatch | src/dbsession.cc:326-345 | up to twenty queries move to the dispatched ones in order |
| Pipeline.Session.Write | src/dbsession.cc:315-355 | fails exactly if a flush or a send failed; without a would-block the whole queue is dispatched in order with one flush before each batch and the watcher stops; with one, whole batches were dispatched and the watcher is left as it was |
| LazyClients.AwaitedTail | src/test_db.cc:101-156 | the next item is always the front query's own result or its own mark, so the assertion on sync points holds |
| LazyClients.LazyClient.ReadRound | src/test_db.cc:101-156 | one round is the lazy rule: a sync point is popped only at its mark |
| LazyClients.LazyClient.Read | src/test_db.cc:92-176 | fails exactly if PQconsumeInput failed; else it is the lazy rule on what arrived |
| LazyClients.LazyClient.DispatchFront | src/test_db.cc:215-232 | the front of the queue goes out, with a sync only if it is a sync point, and becomes the last dispatched query |
| Workers.SerialReusedExactlyWhen | src/worker.cc:212-215 | two streams share a serial exactly when a multiple of 2^64 streams lies between them |
| Workers.SerialsDiffer | src/worker.cc:212-215 | fewer than 2^64 streams never share a serial |
| Workers.Worker.AddStream | src/worker.cc:212-215 | until the counter wraps, the serial handed out was never used by a live or dead stream |
| Workers.Worker.RemoveStream | src/worker.cc:217-219 | the serial is alive no longer and no other changes |
| DbConnections.QueryPrepared.Start | src/dbconnection.cc:74-96 | sends exactly the execute of a prepared name, or exactly the prepare of another one with a file, recorded at once, or nothing |
| DbConnections.QueryPrepared.Resume | src/dbconnection.cc:85-95 | sends exactly the execute after a prepare that did not fail, and otherwise ends with nothing sent |
| DbConnections.NextKeeps | src/dbconnection.cc:74-96 | every step of any coroutine, and any other query of the session, keeps the order of prepares and executes |
| DbConnections.PreparedOnceAndFirst | src/dbconnection.cc:54-96 | over any interleaving, at most one prepare per name comes from the coroutines and every execute they send has a prepare of its name before it |
| DbConnections.NextSends | src/dbconnection.cc:74-96 | what each call and each wake of a coroutine puts on the wire, and where it suspends, written out |
| DbConnections.RunPrepares | src/dbconnection.cc:79-83 | over every run a name is prepared exactly if some code prepared it or a call found its file |
| DbConnections.RunExecutes | src/dbconnection.cc:85-95 | over every run the executes of the coroutines are exactly, in order, one per call of a prepared name and one per wake after a prepare that did not fail |
| EventStreams.PieceOfText | src/eventstream.cc:53-69 | whatever the prefix loop writes in one turn is the next part of the event's text |
| EventStreams.TailOfText | src/eventstream.cc:74-82 | the payload slice and the newlines are the next part of the event's text |
| EventStreams.EventStream.SendPrefix | src/eventstream.cc:43-72 | the fast path and the resumable loop write the same bytes and reach the same position; the loop ends |
| EventStreams.EventStream.Send | src/eventstream.cc:20-94 | throws exactly if the cut is not safe; else writes exactly the promised length of the event's text and pops the event exactly at its end |
| EventStreams.EventStream.Submit | src/eventstream.cc:96-129 | queues the event last and resumes a deferred stream from position 0 |
| EventStreams.EventStream.DataRead | src/eventstream.cc:139-156 | pauses and defers exactly on an empty queue, otherwise promises the smaller of the limit and what is left of the head event |
| EventStreams.EventStream.Give | src/httpsession.cc:622-651 | the length promised by an earlier read is still valid for the head event, and that much of it is written |
| EventStreams.NextKeeps | src/eventstream.cc:96-129 | deferred exactly when paused; paused only with an empty queue and position 0; a promise never exceeds the head event |
| EventStreams.RunConserves | src/eventstream.cc:20-94 | from any state, written ++ still to write is what was to write ++ the submitted events |
| EventStreams.EveryRun | src/eventstream.cc:20-156 | for every interleaving and every cutting: a prefix of the events in order is on the wire, all of it once the queue is empty, and no event waits in a deferred stream |
| EventStreams.ShortFirstPieceBreaks | src/eventstream.cc:74 | a first piece of three octets makes the slice throw |
| EventStreams.WholeEventsAreSafe | src/eventstream.cc:43-92 | a piece that takes in a whole event never throws and pops it |
| EventCuts.NeverThrowsExactlyWhen | src/eventstream.cc:43-92 | an event asked for and given in any pieces never throws exactly if the first piece reaches the end of the prefix and no cut falls between the two final newlines; sent whole, it leaves the queue |
| EventCuts.SendableStepByStep | src/eventstream.cc:43-92 | asking for and giving pieces from any position goes through exactly if each piece is a safe cut |
| EventReader.ReadsBack | src/eventstream.cc:22-25 | text of events without CR or LF reads back, by section 9.2 of the HTML Living Standard, as the same events |
| EventReader.ClientSeesTheEvents | src/eventstream.cc:20-94 | whatever the cuts, once the queue is empty a client sees exactly the submitted events in order |
| EventDispatchers.PlacedAddsOne | src/eventdispatcher.cc:12-26 | taking the first free slot adds exactly one subscription, and the vector grows only if every slot is taken |
| EventDispatchers.ClearedRemovesAll | src/eventdispatcher.cc:33-41 | clearing removes all subscriptions of the stream and no other |
| EventDispatchers.RunMeans | src/eventdispatcher.cc:8-41 | over every run the registry holds the current subscriptions with multiplicity, in exactly as many slots as the channel ever needed at once |
| EventDispatchers.RemovedIsNowhere | src/eventdispatcher.cc:33-41 | a removed stream occurs in no vector until it subscribes again |
| EventDispatchers.SubmittedQueues | src/eventdispatcher.cc:43-52 | a stream with n subscriptions queues the event n times behind what it had and is resumed if it was deferred |
| EventDispatchers.EventDispatcher.Subscribe | src/eventdispatcher.cc:8-31 | the registry changes by one subscription, in the first free slot |
| EventDispatchers.EventDispatcher.Remove | src/eventdispatcher.cc:33-41 | every slot of every channel with the stream is cleared, the others stay |
| EventDispatchers.EventDispatcher.Publish | src/eventdispatcher.cc:43-52 | each subscribed stream gets the event as often as it is subscribed; no other stream and no slot changes |
| StringStreams.StringStream.DataRead | src/httpsession.cc:392-421 | offers what is left up to the limit and flags the end exactly when that is all |
| StringStreams.StringStream.Send | src/stringstream.cc:28-36 | writes exactly the next part of the body |
| StringStreams.FramesCarryTheBody | src/stringstream.cc:28-36 | for every body and all frame limits, payloads concatenate to the body, lengths sum to the content length, only the last frame ends the stream, and enough frames always end it |
| StringStreams.FramesKeepTheLimits | src/httpsession.cc:400 | no payload is longer than its limit and every frame but the last one fills it |
| StringStreams.EmptyBodyIsOneFrame | src/httpsession.cc:400-408 | an empty body is one empty final frame |
| RoutePaths.LevelsOfJoin | src/httprouter.cc:74-77 | splitting a path gives back the levels it was joined from |
| RouteTrie.InsertPath | src/httprouter.cc:68-144 | insertion by text is insertion of the parsed pattern |
| RouteTrie.Match | src/httprouter.cc:147-249 | a failed match leaves the captures unchanged, a successful one appends exactly the captures of its answer, through all backtracking |
| RouteTrie.IsFloat | src/httprouter.cc:182-207 | accepts exactly digits with at most one dot |
| RouteTable.InsertKeeps | src/httprouter.cc:68-144 | insertion keeps every node equal to what the table says of its pattern: terminal, method mask, last index, children in order of first registration |
| RouteTable.BuildRepresents | src/httprouter.cc:68-144 | the trie of any table represents that table |
| RouteTable.BelowCorrect | src/httprouter.cc:218-248 | below a node the search finds the best candidate: children in order before the node itself, and pruning by method loses none |
| RouteTable.LookupCorrect | src/httprouter.cc:147-249 | for every table, method and path: no match exactly if there is no candidate, else the answer of the best one |
| RouteTable.WinsOneWay | src/httprouter.cc:218-236 | two different patterns cannot beat each other, so the best candidate is unique |
| RouteTable.AnswerOfBest | src/httprouter.cc:226-236 | an unwritten slot is read exactly when the best candidate has no route of the method; captures are the parameter levels of the best candidate |
| RouteTable.RouterAnswers | src/httprouter.cc:147-249 | for tables where a pattern that is a prefix of another is registered for its method too: a match exactly if some route of the method matches a prefix of the levels, with the captures of the deepest, first-registered one and its index, exact up to 65536 routes |
| RouteTable.UnnestedTableReadsGarbage | src/httprouter.cc:226-236 | without that hypothesis GET /a can answer from a slot nobody wrote |
| RouteMeaning.ConstantLevel | src/httprouter.cc:107-110 | a level not wrapped in braces matches itself alone and captures nothing |
| RouteMeaning.StarLevel | src/httprouter.cc:186-189 | a star matches everything and captures nothing |
| RouteMeaning.LabelLevel | src/httprouter.cc:88-97 | a label in braces matches every level and captures it |
| RouteMeaning.IntLevel | src/httprouter.cc:99-102 | `:int` matches exactly the strings of decimal digits and captures them |
| RouteMeaning.FloatLevel | src/httprouter.cc:103-104 | `:float` matches exactly the strings of decimal digits with at most one dot and captures them |
| RouteMeaning.OtherTypeLevel | src/httprouter.cc:97-105 | any other type matches every level and captures it |
| RouteMeaning.OneRoute | src/httprouter.cc:68-144 | one registered one-level route answers exactly the requests of its method whose first level it accepts, with its capture |
| RouteMeaning.OneConstantRoute | src/httprouter.cc:147-249 | the route of a plain level answers a one-level path exactly if that is the level |
| RouteMeaning.FirstRegisteredAnswers | src/httprouter.cc:218-224 | of two one-level routes the first registered one answers what both accept |
| RouteMeaning.DeeperAnswers | src/httprouter.cc:218-236 | a longer route answers what it matches, the shorter one everything else that begins with it |
| Routers.HttpRouter.AddRoute | src/httprouter.h:114-126 | the router stays the trie of its table, which grows by the route |
| Routers.HttpRouter.DispatchRoute | src/httprouter.cc:251-255 | clears the vector it is given, finds the route of the table and leaves its captures there |
| Routers.GetParam | src/httprequest.h:70-83 | the loop returns the capture at the first opening brace followed by the name |
| Routers.ParamByName | src/httprequest.h:70-83 | with the captures of a match of a clean pattern, a name gives the path level at the first placeholder that starts with it, and nothing exactly if there is none |
| Routers.AskedIsTheFirst | src/httprequest.h:75-81 | the level that a name asks for is the first one that opens a brace followed by the name |
| SharedCaptures.DispatchedParameter | src/httprouter.cc:251-268 | from request to parameter, for nested tables of clean routes: matched exactly if some route of the method matches a prefix of the levels, by the best such route in its latest registration, whose stored text and captures give each name its own path level |
| SharedCaptures.OwnLevelsUntilTheNextDispatch | src/httprequest.h:70-83 | over every run of dispatches and reads of one thread, a request reads its own path levels by name while no dispatch has come after its own |
| SharedCaptures.ThenTheLatestDispatch | src/httprouter.h:76-79 | after other dispatches it reads the captures of the latest one through the names of its own route |
| SharedCaptures.SafeExactlyWhenNotAsked | src/httprouter.cc:254 | a read stays right after every possible dispatch of another request exactly if the route has no placeholder for the name |
| SharedCaptures.AnotherRequestsLevel | src/httprouter.h:76-79 | one route and two requests: the first reads the level of the second, or past the end |
| SharedCaptures.WorkerThread.Dispatch | src/httprouter.cc:251-268 | a step of the thread: it matches exactly if the table has an eligible route, and replaces the captures for all requests |
| SharedCaptures.WorkerThread.GetParam | src/httprequest.h:70-83 | reads the shared vector through the route of the request |
| RequestBodies.HttpRequest.Data | src/httprequest.cc:49-68 | returns the buffered body once, then an empty piece if the end has come, and otherwise waits |
| RequestBodies.HttpRequest.HandleData | src/httprequest.cc:72-92 | hands a piece to the waiting reader or buffers it; an empty piece counts only as the end |
| RequestBodies.NextKeeps | src/httprequest.cc:40-108 | every chunk, end and start of a reader keeps the record of what the reader has had |
| RequestBodies.NothingAfterTheEnd | src/httprequest.cc:94-108 | in every run the end comes at most once and no chunk after it |
| RequestBodies.SecondBodyReturnsExactlyWhen | src/httprequest.cc:40-47 | a second body() returns the same text exactly if the first was called after the end |
| RequestFrames.EndComesExactlyWhen | src/httpsession.cc:488-563 | over every run of frames and reads, the request sees the end exactly if a DATA frame with END_STREAM came, at most once, and after all chunks of all DATA frames |
| RequestFrames.LoopGetsTheBody | src/httprequest.cc:49-108 | a loop over data(), begun at any moment from the dispatch on, gets the chunks of the frames in order, and the end marker exactly if a DATA frame with END_STREAM came; otherwise it waits |
| RequestFrames.BodyGetsEverything | src/httprequest.cc:40-47 | body(), called at any moment from the dispatch on, returns all chunks of the frames in order exactly if a DATA frame with END_STREAM came; otherwise it waits |
| RequestFrames.ClosedWaitsForEver | src/httpsession.cc:536-546 | a stream closed in any other way keeps its reader waiting whatever follows |
| RequestFrames.TrailersNeverEndTheBody | src/httpsession.cc:536-546 | HEADERS, DATA and trailers: dispatched once, closed, and the reader waits |
| RequestFrames.NoBodyNeverEnds | src/httpsession.cc:536-546 | HEADERS with END_STREAM: dispatched once, closed, and the reader waits |
| RequestFrames.DispatchedOnce | src/httpsession.cc:494-551 | over any frames the handler is dispatched at most once, and exactly if a DATA frame or the end of the stream came |
| RequestFrames.HttpStream.OnDataChunk | src/httpsession.cc:660-679 | one chunk resumes the waiting reader or is kept for it |
| RequestFrames.HttpStream.OnFrameRecv | src/httpsession.cc:488-563 | dispatches at most once, lets the handler run to its first suspension, and only then ends the body, with the fall-through |
| RequestFrames.HttpStream.Receive | src/httpsession.cc:488-563 | a frame with its chunks is one step of the stream machine |
| HttpDates.LeapCountIsClosed | src/util.cc:347-350 | the closed form counts leap years one by one, for every year from 1970 |
| HttpDates.DaysumIsTheMonths | src/util.cc:357-378 | the table and the leap correction count the days of the months |
| HttpDates.DayCountIsExact | src/util.cc:369-376 | the day formula equals summing year and month lengths |
| HttpDates.BrokenDownIsUnique | src/util.cc:506-511 | a timestamp has one broken-down time |
| HttpDates.ParseInvertsGmtime | src/util.cc:356-380 | the formula inverts gmtime for every timestamp from 1970 |
| HttpDates.FourDigitYears | src/util.cc:490-499 | the year has four digits, and the int arithmetic of the parser does not overflow, up to the end of 9999 |
| HttpDates.WriteUint | src/util.cc:490-499 | writes exactly the decimal digits into exactly its width |
| HttpDates.HttpDate | src/util.cc:506-535 | fills exactly 29 characters with the date and touches nothing else |
| HttpDates.ParseInvertsHttpDate | src/util.cc:356-380 | parsing the text of the date of any timestamp up to the end of 9999 gives it back |
| HttpDates.TextLiterally | src/util.cc:513-532 | the fields of a date stand at their places with their digits and separators |
| HttpDates.NamesLiterally | src/util.cc:501-504 | the seven day names and twelve month names |
| HttpDates.KnownDates | src/util.cc:506-511 | four known timestamps, among them the example of section 5.6.7 of RFC 9110 and days of a long and a short February |
| HttpDates.UnreadableIsTheEpoch | src/util.cc:360-363 | text that cannot be read gives 0 |
| Json.CleanIsUnchanged | src/json.cc:44-52 | the no-escape fast path writes what the slow path would |
| Json.Writer.AppendQuotedString | src/json.cc:43-95 | appends the quoted and escaped string, on either path |
| Json.Writer.Assign | src/json.h:64-85 | appends the text of a null, integer, raw or string value and a comma |
| Json.Writer.Close | src/json.cc:16-34 | a trailing comma becomes the bracket, otherwise the bracket is appended |
| Json.ClosesTo | src/json.cc:16-34 | replacing the trailing comma closes empty and non-empty arrays and objects alike |
| Json.WriteJson | src/json.cc:9-40 | every properly nested use of the writer yields the canonical text of the value tree |
| Json.EscapesLiterally | src/json.cc:55-92 | the escape of every special character, and of control characters, written out |
| Json.ArrayLiterally | src/json.cc:16-24 | the text of arrays of one and two values |
| Json.ObjectLiterally | src/json.cc:26-41 | the text of objects of one and two members |
| JsonReader.ReadsEscaped | src/json.cc:43-95 | unescaping inverts escaping for every string |
| JsonReader.KeyReadsBackExactlyWhen | src/json.cc:36-40 | an unescaped key reads back exactly when it contains nothing to escape |
| JsonReader.ReaderInvertsWriter | src/json.cc:9-40 | a reference reader with the number grammar of section 6 of RFC 8259 recovers the value tree from the canonical text, raw numbers included |
| JsonRows.JsonifyRow | src/util.cc:581-613 | the separator protocol of the row writer yields the canonical text of the row |
| JsonRows.ToJson | src/util.cc:615-649 | a result is the canonical text of the array of its rows, one row, or an empty object |
| JsonRows.TableReadsBackExactlyWhen | src/util.cc:581-649 | reading the JSON of a table shows it cell by cell (names in order, null for no value, the text, the truth of t and f, the digits of numbers) exactly if every numeric cell is a JSON number, for clean column names |
| JsonRows.RowReadsBack | src/util.cc:633-639 | so does the JSON of one row |
| JsonRows.NaNDoesNotReadBack | src/util.cc:600-602 | NaN and Infinity in a numeric column do not read back |
| Base64.EncodedLength | src/common_util.cc:38-41 | exactly 4*ceil(n/3) characters |
| Base64.PaddingIsExact | src/common_util.cc:57-58 | a character is padding exactly if it is among the last ones that the length calls for |
| Base64.PaddedIsEncoded | src/common_util.cc:43-60 | encoding zero-filled groups and overwriting the end is the encoding of section 4 of RFC 4648 |
| Base64.EncodeBytes | src/common_util.cc:38-61 | the loops in place produce that encoding |
| Base64.DecodingTable | src/common_util.cc:67-75 | the table inverts the alphabet and is 0 elsewhere |
| Base64.DecodeToFile | src/common_util.cc:63-111 | refuses exactly the lengths not divisible by four; the file is three bytes per group |
| Base64.RoundTrip | src/common_util.cc:63-111 | decoding an encoding gives the bytes and then one zero for each missing byte |
| Base64.FirstBytesAreTheOriginal | src/common_util.cc:80-86 | for non-empty bytes, output_length is their number and that many first bytes are they; the file equals them exactly if the length is a multiple of three |
| Base64.TextReadsBack | src/common_util.cc:38-111 | text over the alphabet without padding is the encoding of its decoding |
| Base64.KnownEncodings | src/common_util.cc:38-61 | test vectors of section 10 of RFC 4648 |
| Percent.DecodingFits | src/util.cc:395-411 | decoding never grows, and keeps the length exactly when there is no percent sign |
| Percent.DecodingInverts | src/util.cc:395-411 | decoding inverts every way of encoding: plain bytes, plus for space, escapes of either case |
| Percent.RoundTrip | src/util.cc:395-411 | every byte string comes back from any encoder that keeps a set of plain characters |
| Percent.KnownEscapes | src/util.cc:398-402 | escapes with digits of either case |
| Percent.KnownOthers | src/util.cc:398-409 | a plus is a space; an incomplete escape loses its percent sign |
| Percent.WellFormedExactlyWhenEncoded | src/util.cc:398-404 | the texts in which every percent sign starts an escape are exactly the encoder outputs |
| Percent.PercentDecode | src/util.cc:413-428 | the string version computes the decoding |
| Percent.PercentDecodeInto | src/util.cc:395-411 | the buffer version computes the same, terminated, within source length plus one |
| MemBlocks.MemBlock.Alloc | src/util.h:127-139 | blocks handed out stay in bounds and pairwise disjoint, whether from the array or the heap |
| MemBlocks.NeverTruncated | src/util.h:178-202 | two bytes more than the counted digits hold every number, with sign, the digit of 0 and terminator |
| MemBlocks.ToString | src/util.h:178-202 | the view shows the number and every earlier block keeps its text |
| MemBlocks.PercentDecode | src/util.h:158-163 | the view shows the decoded text, inside its block, and every earlier block keeps its text |
| MemBlocks.HttpDate | src/util.h:273-278 | the date fills its block of 29 bytes and every earlier block keeps its text |

## Left out

- TLS setup and handshake, sockets, the accept loop, timers and libev: only watcher flags remain.
- nghttp2's answers to whether it wants to read and to write are free choices of the model.
- nghttp2's framing and flow control, libpq's protocol and OpenSSL: oracles, described above.
- The payload of a DATA frame is fixed when it is queued; that the streams supply those bytes is proved separately for `EventStream` and `StringStream`.
- OutputPump.HttpSession.Write: a DATA frame larger than the whole buffer is never sent and stops the watcher; nghttp2's 16 KiB frame limit keeps this from happening, and is not part of this model.
- Pipeline.Session.Write: the queue is drained when the watcher stops, but the last batch may not be flushed (src/dbsession.cc:348-353); nothing is claimed about it, nor about a session after an error.
- Pipeline.Session.Read: COPY, BAD_RESPONSE, single-row mode and notifications are not modelled; an empty query completes without a handler call, as in the code.
- Pipeline.Session.SendQuery: stands for all `send_*` methods; commands carry no parameters.
- LazyClients.LazyClient.Read: requires a dispatched query, which the code dereferences unasked; PGRES_NONFATAL_ERROR, for which this client makes no call, is not modelled; its `write` loop is the one proved for `Session`.
- DbConnections.QueryPrepared.Start: a prepare that fails leaves its name recorded, as in the code, so later executes may fail on the server; the claim is about order on the wire, not success.
- Connection polling, session restart and queries submitted before the connection is up.
- EventStreams.EventStream.Send: an exception ends the run; what the C++ runtime then does is not modelled.
- EventStreams.EventStream.Give: starts when the buffer has room; a would-block leaves the stream unchanged and is no step.
- The timer that pings event streams: a ping is a submitted event.
- RouteTrie.InsertPath: children are values here, so insertion and search do not show sharing or update in place on a heap of nodes; only the capture vector is updated in place.
- RouteTable.RouterAnswers: needs the table hypothesis; `AnswerOfBest` says what holds without it.
- SharedCaptures.DispatchedParameter: more than 65536 routes are excluded; `RouterAnswers` has their index.
- SharedCaptures.WorkerThread.Dispatch: the table stays as it is while requests are served.
- Routers.ParamByName: patterns with braces in other places than around a whole level, and names with a closing brace, are outside it.
- `lookup_header`, `get_cookie`, the cipher block list, `ResponseHeader`, the date cache and round-robin choice of workers: finite tables or easy members.
- RequestBodies.HttpRequest.HandleData: `data_coro_` is not cleared, so a reader must be waiting in `data()` when a later piece arrives; resuming a coroutine that is not suspended there is excluded by the precondition. The same holds for RequestBodies.HttpRequest.HandleBody.
- RequestFrames.LoopGetsTheBody: the callback forms `on_data` and `on_body` are not modelled.
- RequestFrames.HttpStream.OnFrameRecv: 100-continue, stream timeouts and SETTINGS are not modelled.
- HttpDates.ParseInvertsHttpDate: `strptime` on text of another form is not modelled, nor a failing `gmtime_r`.
- Json.WriteJson: floating-point values and unsigned values above the int64 range; `bool` takes the integral branch of src/json.h:68, so it is an integer here.
- Json.Writer.Assign: the floating-point branch (`%lf` into 24 bytes) is not modelled.
- JsonReader.ReaderInvertsWriter: raw text put in with `Unquoted` must be a number, as it could be anything.
- JsonRows.TableReadsBackExactlyWhen: a column has its kind; the type oids behind it (src/util.cc:537-579) are not modelled.
- JsonRows.ToJson: result statuses on which the code asserts false are excluded.
- Base64.DecodeToFile: the empty text, for which the code reads before the start of its input, and texts of 2 GiB and more, for which its `int` counters overflow.
- MemBlocks.MemBlock.Alloc: sizes for which `n + pos` exceeds 2^64 wrap in the code and are excluded; freeing in the destructor and failing `malloc` are not modelled.
- File streams, static files, directory walking, mime types and uuids: file I/O and foreign code.
- Coroutine frames, reference counts and move constructors: coroutines are explicit steps.
