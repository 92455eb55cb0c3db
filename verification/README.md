# AnyBlob: verified models of its state machines

AnyBlob is an asynchronous client for cloud object stores. What can go wrong in it sits in a few
hand-written state machines: a lock-based queue that many threads share, a multipart upload driven by
callbacks on any thread, an event loop that keeps requests in flight, one HTTP round trip over a kernel
that accepts and delivers bytes as it likes, a cache of open connections, and the parsers and containers
they rest on. This project models these parts in Dafny and proves what their users rely on.

`dafny verify dfyconfig.toml` checks everything.

## How the parts are modelled

* `RingBuffer` and `Multipart` are step systems: one step per atomic load, store, counter update or slot
  access, taken by any thread in any order. Their theorems are about every run.
* `Transaction`, `AsyncSend`, `Scheduler`, `EventLoop`, `HttpMessage`, `DataVector`, `Cache`, `PollSocket`, `Timeouts`,
  `UnorderedMap` and `TlsConnection` are classes whose methods change their fields where the C++ code
  does. Each method is proved against what it promises about the new state; what holds between calls is a
  predicate that every method keeps. A program counter, a record of what happened (bytes accepted,
  descriptors closed, requests enqueued) or a mathematical map is ghost state that no executable
  statement reads.
* `HttpRequest`, `RequestFormat`, `HttpResponse`, `HttpHelper`, `UrlEncoding` and `Slices` pair each loop of the source
  with a function it is proved equal to; the theorems are about the functions.
* The kernel, OpenSSL, the name service, the server and other threads are nondeterministic choices: a
  write takes between one and all of the offered bytes, a read gives at most the requested ones, either
  gives zero or a negative errno, `connect` gives a descriptor nobody has or throws.
* A byte is a `char` below 256. Integers are unbounded except where the width decides the outcome: the
  16-bit part number and loop counter (`Slices`), the 32-bit header length and the 64-bit sums in `HttpHelper` and the
  buffer growth of `HttpMessage`.

How they compose: the callbacks that `Transaction` runs are runs of the `Multipart` steps, and it runs them
for the reports of a `Scheduler.SendReceiver`, which it fills and on which it calls `SendReceive`: that
every queued message is answered once is derived from the scheduler's contract, not assumed. `EventLoop`
joins the scheduler with its two neighbours: running a `HttpMessage.Message` is one of the outcomes the
scheduler assumes of a task, and its counter is the number of requests that a `PollSocket.Socket` holds,
over every request sent, submitted and completed.

Properties that the code does not have, with the exact condition under which it has them:

* slices of an upload are right exactly up to 65534 parts (`Slices.SlicesSoundIff`, `Slices.FirstToFail`);
* a refused `send` leaves the uploads in a state of the protocol exactly if none was Processing or Default
  (`AsyncSend.RefusedSendRestoresIff`, `AsyncSend.RollbackKeepsIff`); otherwise a closing request that does not exist is to be sent
  (`AsyncSend.RefusedSendBreaksFreshUpload`) or parts are sent twice (`AsyncSend.RefusedSendRepeatsParts`);
* the length detected in a Content-Length header depends on the header alone exactly if the value starts
  with a number below 2^64 (`HttpHelper.LengthIffNumber`, `HttpHelper.MemoryDecides`);
* `finished` is right about a Content-Length response exactly if the header length is below 2^32 and header
  and body are below 2^64, or all of it came with the first chunk (`HttpHelper.FinishedRightIff`); otherwise
  a truncated response is handed over as complete (`HttpHelper.HeaderAloneIsEnough`);
* an upload comes to an end exactly if it has parts or its create request fails (`Multipart.EndsIff`); the
  cast to 16 bits leaves it none when it needs a multiple of 65536 (`Slices.FirstToFail`), and then
  `processSync` does not return;
* a request with a time-out is given up exactly if it is looked at after its deadline (`PollSocket.StaysIff`),
  and it is looked at only after `poll` has found an event: where nothing happens no time-out comes
  (`PollSocket.Socket.Complete`);
* a write or read that the socket gives up on is treated as a time-out exactly if its result is -ECANCELED
  or -EINTR, which the socket on top of `poll` never answers for one that expired (`Timeouts.AnswerWrite`);
* `resolve` gives a connection to the requested host exactly if the cache has a usable one of that host,
  or no usable one behind it (`Cache.ConnectionCache.Resolve`, `CacheExamples.WrongHostAnswered`);
* `shutdownSocket` dereferences a missing address exactly if an entry it looks at has been evicted
  (`Cache.ConnectionCache.ShutdownSocket`), which two connections given back to a full cache bring about
  (`CacheExamples.ShutdownCrashes`);
* serializing a parsed request again gives the same bytes exactly if its queries need no encoding
  (`RequestRoundTrip.SameBytesIff`);
* the scan of `PollSocket::complete` throws exactly if a descriptor is polled twice and its first entry is
  taken out (`PollSocket.Socket.Scan`, `PollSocket.TwoOfOneDescriptor`), and enqueueing keeps the pairing exactly if the descriptor has no
  request waiting (`PollSocket.Socket.Enqueue`);
* after a write that failed for good `TLSConnection::process` does not move on to receiving, as setting
  the progress there suggests, but sends the rest of the round again (`TlsConnection.Connection.SendStage`,
  `TlsConnection.Connection.BrokenPipe`);
* an entry put back for reuse keeps the connection cache in order exactly if it has a descriptor, and is
  put back at all exactly if any may be cached (`Cache.ConnectionCache.StopSocket`, `CacheBooks.KeepKeepsIff`).

## Model

| member | source | states |
|---|---|---|
| RingBuffer.SlotsDiffer | include/utils/ring_buffer.hpp:77-97 | two positions less than the size apart never use the same slot |
| RingBuffer.StoreKeeps | include/utils/ring_buffer.hpp:97 | storing outside a window of at most the buffer's length leaves the window's contents alone |
| RingBuffer.StepKeepsInv | include/utils/ring_buffer.hpp:70-124 | every step of every thread keeps: seen.commited <= seen.pending <= insert.commited <= insert.pending <= seen.commited + size, unread slots hold the log, each lock has one holder |
| RingBuffer.RunKeepsInv | include/utils/ring_buffer.hpp:70-124 | that invariant holds in every state of every interleaved run |
| RingBuffer.NeverStuckInserting | include/utils/ring_buffer.hpp:72-83 | a thread inside the insert lock can always go on, and the unsigned room check cannot wrap |
| RingBuffer.NeverStuckConsuming | include/utils/ring_buffer.hpp:112-123 | a thread inside the consume lock can always go on |
| RingBuffer.MutualExclusion | include/utils/ring_buffer.hpp:22-38 | two threads are never inside the same critical section |
| RingBuffer.StepRefinesFifo | include/utils/ring_buffer.hpp:70-124 | each step is one atomic operation of a bounded FIFO (append a whole call's elements at its ticket, take the oldest) or leaves it unchanged |
| RingBuffer.ConsumedIsPrefix | include/utils/ring_buffer.hpp:110-124 | in every run the values consumed are a prefix, in order, of the committed log, and at most `size` elements are unread |
| RingBuffer.LoadedSeenHead | include/utils/ring_buffer.hpp:73-75 | between the load of the consumers' counter and the room check nothing is inserted, so the check judges the instant of the load |
| RingBuffer.InsertLinearizes | include/utils/ring_buffer.hpp:70-106 | a returned ticket is the position at which all elements of the call were appended at one instant inside it; a refusal happened at an instant without room for them |
| RingBuffer.WaitingInsertSucceeds | include/utils/ring_buffer.hpp:80-82 | a waiting insert never reports a refusal |
| RingBuffer.LoadedInsertHead | include/utils/ring_buffer.hpp:113-115 | between the load of the inserters' counter and the check no other thread consumes |
| RingBuffer.ConsumeLinearizes | include/utils/ring_buffer.hpp:110-124 | a consumed value is the oldest unread one, removed at one instant inside the call; nothing is returned only if the queue was empty at such an instant |
| RingBuffer.EmptyMeansDrained | include/utils/ring_buffer.hpp:127-129 | if `empty` answers true, everything committed before the call has been consumed by its end |
| RingBuffer.EmptyExplained | include/utils/ring_buffer.hpp:127-129 | `empty` answers true if and only if the two counters are equal at the instants of its two loads; the answer is exact if nobody commits or consumes in between |
| RingBuffer.OwnStepLowers | include/utils/ring_buffer.hpp:70-124 | each own step of a call comes closer to its end; a waiting call that found no room or no element, and no other, starts over |
| RingBuffer.CallIsBounded | include/utils/ring_buffer.hpp:70-124 | whatever other threads do, a call that does not wait takes at most so many own steps |
| RingBuffer.NoDeadlock | include/utils/ring_buffer.hpp:22-38 | in every run a thread inside a call, or the holder of the lock it needs, can go on |
| RingBuffer.InsertAlone | include/utils/ring_buffer.hpp:70-106 | an insert that nobody interrupts answers its ticket, or nothing exactly if there is no room; a waiting one without room never answers |
| RingBuffer.ConsumeAlone | include/utils/ring_buffer.hpp:110-124 | a consume that nobody interrupts answers the oldest unread element, or nothing exactly if there is none |
| RingBuffer.RefusalComesBack | include/utils/ring_buffer.hpp:80-82 | an insert that does not wait ends with a refusal where there is no room, and a consume with nothing where there is nothing |
| Multipart.StepKeeps | include/network/transaction.hpp:215-269 | every step of any callback or of the user thread keeps the protocol's invariant |
| Multipart.ReportKeeps | include/network/transaction.hpp:233 | the decrement that reaches zero appoints the one closer, when all other callbacks are done |
| Multipart.RunKeepsInv | include/network/transaction.hpp:215-269 | the invariant holds in every state of every run |
| Multipart.ClosingIsRight | include/network/transaction.hpp:225-258 | the closing request exists only after all parts have reported; it completes the upload with every tag in place if and only if every part succeeded, and otherwise aborts and names a part that failed |
| Multipart.ClosingIsFinal | include/network/transaction.hpp:247-256 | the closing request is built once; no later step replaces it |
| Multipart.ValidatingHasClosing | include/network/transaction.hpp:258 | whoever reads Validating finds the closing request, and it has not been sent |
| Multipart.PartsQueuedOnce | src/network/transaction.cpp:57-60 | part requests are queued only when the create request has succeeded and none was ever sent |
| Multipart.VerdictIsTrue | include/network/transaction.hpp:216-254 | when an upload has ended its callback ran once with a verdict, and each verdict was given if and only if the server's answers to the create, part and closing requests amount to it |
| Multipart.StepDecreases | include/network/transaction.hpp:215-269 | every step comes closer to the end, so no run goes on for ever |
| Multipart.NeverStuck | include/network/transaction.hpp:215-269 | an upload that has not ended can always take a step |
| Multipart.EveryUploadEnds | include/network/transaction.hpp:215-269 | every run is finite, and one that cannot be continued has ended with exactly one user callback |
| Multipart.PathKeeps | include/network/transaction.hpp:215-269 | any sequence of steps keeps the invariant and the answers |
| Multipart.EndsIff | include/network/transaction.hpp:210-269 | for any number of parts: all ways an upload can go end with the user callback if and only if it has parts or its create request fails |
| Multipart.NoPartsGetStuck | include/network/transaction.hpp:210-269 | an upload without parts whose create request succeeds gets to a state without successor in which the user was not called |
| Slices.PartsFit | include/network/transaction.hpp:210-211 | the number of parts is just enough for the object, and the cast loses parts exactly from 65536 on |
| Slices.BuildParts | include/network/transaction.hpp:223-267 | the loop builds the planned slices, or its 16-bit counter comes round to zero |
| Slices.EndsIff | include/network/transaction.hpp:224 | the 16-bit counter gets past the number of parts, so that the loop ends, if and only if that number is not 65535 |
| Slices.CutConcatenates | include/network/transaction.hpp:261-266 | the slices built so far join to what the loop has passed over, and all of them to the object |
| Slices.CutLengths | include/network/transaction.hpp:261 | every slice has the split size but the last, which has the rest |
| Slices.SlicesSoundIff | include/network/transaction.hpp:210-267 | the loop ends with slices that are non-empty, at most splitSize long, disjoint and make up the object, as many as needed, if and only if at most 65534 are needed |
| Slices.FirstToFail | include/network/transaction.hpp:210-224 | the first two sizes that fail: with 65535 parts the loop does not end, with 65536 the object is lost |
| Transaction.PartRun | include/network/transaction.hpp:225-260 | a part callback that nothing interrupts is a run of the machine's steps |
| Transaction.PartPath | include/network/transaction.hpp:225-260 | the part callback is a sequence of steps of the machine |
| Transaction.CreatePath | include/network/transaction.hpp:215-269 | so is the create callback, with its loop over the parts |
| Transaction.ClosePath | include/network/transaction.hpp:237-254 | and the closing callback |
| Transaction.SendPartsPath | src/network/transaction.cpp:27-31 | and moving an upload from Sending to Processing |
| Transaction.SendClosingPath | src/network/transaction.cpp:32-35 | and from Validating to Default |
| Transaction.RunPartKeeps | include/network/transaction.hpp:225-260 | such a run keeps the machine's invariant and ends the part |
| Transaction.MultipartUpload.constructor | include/network/transaction.hpp:212 | a new upload is a fresh state of the machine |
| Transaction.MultipartUpload.CreateFinished | include/network/transaction.hpp:215-269 | the create callback has the effect of the machine's create steps, and counts the upload as completed exactly on failure |
| Transaction.MultipartUpload.PartFinished | include/network/transaction.hpp:225-260 | the part callback has the effect of that part's steps |
| Transaction.MultipartUpload.CloseFinished | include/network/transaction.hpp:237-254 | the closing callback reports the verdict and ends the upload |
| Transaction.SendOriginalKeeps | src/network/transaction.cpp:22-24 | queueing the next message keeps the books: every message up to the counter was queued once |
| Transaction.SendTheNextKeeps | src/network/transaction.cpp:26-35 | moving an upload on queues each of its parts once, or its closing request once, and uses up one of its rounds |
| Transaction.ExecuteKeeps | src/network/transaction.cpp:38 | running the callback of any queued message keeps the books and delays no upload |
| Transaction.CompletedMeansEnded | include/network/transaction.hpp:215-269 | when the counter equals the number of uploads each has ended: create request queued once, parts and closing request once each on its success and never on its failure, one user callback with the true verdict |
| Transaction.Transaction.PutMultiPart | include/network/transaction.hpp:208-276 | appends a new upload and its create request as the last message, and disturbs nothing else: queue, counters and other uploads stay; the transaction stays valid if and only if the upload has parts |
| Transaction.Transaction.SendAll | src/network/transaction.cpp:21-35 | the sending half of a round queues everything that waits, in the queue of the send-receiver, and uses up one round of every upload |
| Transaction.Transaction.RunReports | src/network/tasked_send_receiver.cpp:282-296 | running the callbacks of the tasks a round has reported, in that order but after the loop, takes exactly their messages off what is pending and keeps the books |
| Transaction.Transaction.Drain | src/network/transaction.cpp:38 | however `sendReceive` comes back, exactly the messages it did not report are still pending and the books are right; when it comes back drained none is |
| Transaction.Transaction.ProcessSync | src/network/transaction.cpp:16-40 | unless a submit fails, a task throws or somebody calls `stop`: ends after at most three rounds with nothing queued, the completed counter equal to the number of uploads, every upload ended once with a true verdict, and the send-receiver ready for the next call |
| AsyncSend.AsyncSender.ProcessAsync | src/network/transaction.cpp:42-81 | submits all new messages and what each upload has due, in order; on refusal resets the counter and flips the states back |
| AsyncSend.NothingDue | src/network/transaction.cpp:56-67 | nothing is submitted for uploads exactly if none is Sending or Validating |
| AsyncSend.DueIs | src/network/transaction.cpp:56-67 | submitted is, once each, every part of an upload that is Sending and the closing request of one that is Validating, and nothing else |
| AsyncSend.AcceptedIsPath | src/network/transaction.cpp:56-67 | an accepted send takes each upload through the user thread's steps of the protocol |
| AsyncSend.RefusedSendRestoresIff | src/network/transaction.cpp:69-79 | after a refused send that no callback comes between every upload is in a state the protocol allows, and then unchanged, if and only if none was Processing or Default |
| AsyncSend.RollbackKeepsIff | src/network/transaction.cpp:69-79 | at whatever instant the rollback comes to an upload, it leaves it in a state the protocol allows if and only if it undoes a store of this call or finds neither Processing nor Default |
| AsyncSend.RefusedSendBreaksFreshUpload | src/network/transaction.cpp:64-77 | after a refused create request the user thread takes the upload for one to be completed and gets stuck, as the closing request does not exist |
| AsyncSend.RefusedSendRepeatsParts | src/network/transaction.cpp:57-75 | after a refused send an upload whose parts are on their way has all of them sent again |
| AsyncSend.RefusedStates | src/network/transaction.cpp:56-79 | the states that `processAsync` leaves after a refusal are those of the uploads that these results are about |
| AsyncSend.OwnStoreUndone | src/network/transaction.cpp:56-79 | the rollback of a state that this call has stored itself is right, whatever other threads did in between |
| Scheduler.StartKeepsLedger | src/network/tasked_send_receiver.cpp:222-254 | starting a task keeps the books whether it waits, ends or throws |
| Scheduler.RunKeepsLedger | src/network/tasked_send_receiver.cpp:274-303 | running a task whose operation completed keeps the books; the task is live and erased only when it ended |
| Scheduler.TimeoutKeepsLedger | src/network/tasked_send_receiver.cpp:270-272 | the completion of a linked timeout touches no task |
| Scheduler.SendReceiver.Prepare | src/network/io_uring_socket.cpp:64-90 | one request takes one ring entry, and with io_uring one more for its timeout; the ring of four per request always has room for both |
| Scheduler.SendReceiver.EmplaceRequests | src/network/tasked_send_receiver.cpp:181-255 | starts messages in queue order until the limit, the end of the queue or an exception; prepares at most two entries per live task |
| Scheduler.SendReceiver.FirstRun | src/network/tasked_send_receiver.cpp:201-213 | a task that ends at once is reported and not kept, one that throws is neither, any other becomes live with its entries prepared; no other task changes |
| Scheduler.SendReceiver.Retire | src/network/tasked_send_receiver.cpp:282-296 | exactly the ended task is found, reported and erased |
| Scheduler.SendReceiver.RunTask | src/network/tasked_send_receiver.cpp:274-303 | after the completed task ran, every live task again has exactly one operation out; it alone was reported and erased if it ended, or noted if it threw, and no other task changes |
| Scheduler.SendReceiver.HandleCompletion | src/network/tasked_send_receiver.cpp:259-304 | after a completion the count equals the entries in flight and every live task has exactly one operation out; a timeout's completion or a failure of `complete` touches no task |
| Scheduler.SendReceiver.Submit | src/network/tasked_send_receiver.cpp:308-311 | hands all prepared entries to the kernel and returns their number, or changes nothing |
| Scheduler.SendReceiver.Pass | src/network/tasked_send_receiver.cpp:258-317 | one pass keeps the loop's invariant, starts nothing after a stop, sets the stop flag only when nothing is queued or allowed and nothing is in flight, and never idles: if no task waits again it leaves less to do or stops |
| Scheduler.SendReceiver.Loop | src/network/tasked_send_receiver.cpp:257-317 | the loop ends, however the kernel, the tasks and other threads behave, if they keep it going only finitely often; a failed submit is the one reason to leave it early |
| Scheduler.SendReceiver.SendReceive | src/network/tasked_send_receiver.cpp:166-330 | always comes back, if tasks wait again and others interfere only finitely often, and for one cause: a submit failed, or else a task threw, or else somebody called `stop`, or else it is drained; without the first two no task is live, nothing in flight and every started message reported exactly once; drained, a local run has started its whole queue in order; an exception costs the connection manager |
| Scheduler.SendReceiver.NothingInFlight | src/network/tasked_send_receiver.cpp:258 | a count of zero means that nothing is in flight and, without an exception, no task is left |
| EventLoop.RunTask | src/network/tasked_send_receiver.cpp:276-297 | running an HTTP task either leaves it waiting for the one request it issued, or ended with none; it does not throw |
| EventLoop.CountIsHeld | src/network/tasked_send_receiver.cpp:258-268 | the scheduler's counter is above zero exactly while the socket has a request to complete |
| EventLoop.PendingSize | src/network/poll_socket.cpp:113-119 | every polled entry stands for one request |
| EventLoop.Send | src/network/poll_socket.cpp:113-119 | sending a request keeps scheduler and socket in agreement |
| EventLoop.SubmitAll | src/network/tasked_send_receiver.cpp:308-311 | so does submitting, with the number the socket returns |
| EventLoop.CompleteOne | src/network/tasked_send_receiver.cpp:259-268 | so does a completion, which takes one request from both |
| DataVector.DataVector.Reserve | include/utils/data_vector.hpp:89-100 | grows the capacity to what is asked and keeps all elements |
| DataVector.DataVector.Resize | include/utils/data_vector.hpp:103-108 | sets the size; the common prefix survives whether or not the buffer moves |
| DataVector.DataVector.Clear | include/utils/data_vector.hpp:79-81 | empties the vector without giving up its buffer |
| HttpResponse.Deserialize | src/network/http_response.cpp:16-78 | equals the reference parser, including all its errors |
| HttpResponse.FirstLineIs | src/network/http_response.cpp:43-62 | a first line is accepted if and only if it starts with one of the two versions and is longer; a code is reported if and only if the line goes on with its text, and none if and only if no text fits |
| HttpResponse.CodeIsNumber | include/network/http_response.hpp:73-98 | a reported code's number is what the three digits behind the version say; it is a success exactly below 300 and without content exactly if it is 204 |
| HttpResponse.CodeIsPhrase | include/network/http_response.hpp:51-71 | each code is reported exactly for its own reason phrase, also where two share a number |
| HttpResponse.OneFits | include/network/http_response.hpp:51-71 | at most one code's text fits a line |
| HttpResponse.HeaderLineIs | src/network/http_response.cpp:64-73 | an accepted line adds its key, which ends before the first separator, with all that follows it, unless the key is there: then nothing changes; keys stay sorted |
| HttpResponse.HeaderLineOk | src/network/http_response.cpp:66-69 | a header line is accepted if and only if it holds a separator |
| HttpResponse.HeadersSorted | src/network/http_response.cpp:28-75 | the headers of a successful parse have different keys, in order |
| HttpResponse.StopsAtFirstHeaderEnd | src/network/http_response.cpp:28-47 | a successful parse consumes exactly the bytes up to and including the first CRLFCRLF, which therefore exists |
| HttpResponse.StableFrom | src/network/http_response.cpp:28-75 | bytes that arrive later do not change a successful parse |
| HttpHelper.Detect | src/network/http_helper.cpp:20-54 | equals the reference; both assertions on the header end always hold |
| HttpHelper.Finished | src/network/http_helper.cpp:67-92 | equals the reference: answer and cached info, or the exception |
| HttpHelper.DetectIsStable | src/network/http_helper.cpp:20-54 | what is detected in a complete header does not depend on what follows |
| HttpHelper.FinishedIffComplete | src/network/http_helper.cpp:67-78 | with Content-Length and a header in the first chunk, `finished` is true exactly from a threshold on, however the rest is cut; the threshold is the length of header and body if the header length fits 32 bits and the sum 64, and otherwise lower; the body length is the header's number if it has one |
| HttpHelper.FinishedRightIff | src/network/http_helper.cpp:67-78 | `finished` is right about every way the response can go on if and only if those lengths fit, or all of it came with the first chunk |
| HttpHelper.TruncatedIfTooLong | src/network/http_helper.cpp:76 | a response whose header and body do not fit 64 bits, and no other, is called complete with its header alone because of the overflow |
| HttpHelper.HeaderAloneIsEnough | src/network/http_helper.cpp:35-76 | with the largest 64-bit number as length a successful response is complete when its header is there |
| HttpHelper.ScanLength | src/network/http_helper.cpp:28-46 | the loop takes the length from the one Content-Length header there may be |
| HttpHelper.EncodingIs | src/network/http_helper.cpp:28-52 | chunked exactly if the header says so, even with a Content-Length; else sized by Content-Length; with neither a response is refused, unless it is a 204 |
| HttpHelper.FinishedOtherwise | src/network/http_helper.cpp:73-86 | a 204 is finished with its header, a chunked response exactly if the last chunk's text occurs, with the length between header and that text |
| HttpHelper.LengthIffNumber | src/network/http_helper.cpp:35-41 | the detected length does not depend on what was in memory if and only if the header's value starts with a number below 2^64, and then it is that number |
| HttpHelper.MemoryDecides | src/network/http_helper.cpp:35-41 | a response with the value x is complete or not depending on what was in memory |
| HttpMessage.Message.constructor | src/network/http_message.cpp:19-23 | a new task may be executed and holds no connection |
| HttpMessage.Message.Reset | src/network/http_message.cpp:148-167 | returns the connection it holds, exactly once and never for reuse, starts over with empty buffers or aborts, and has the message signed anew exactly after an HTTP failure where the provider can |
| HttpMessage.Message.Refused | src/network/http_message.cpp:34-39 | a failing connect counts one failure and gives up exactly from the sixth failure on |
| HttpMessage.Message.Retry | src/network/http_message.cpp:49-54 | a failed attempt with a connection is repeated, and given up exactly at the 34th failure |
| HttpMessage.Message.Connect | src/network/http_message.cpp:31-43 | a new connection with the first write on its way, or one more counted failure |
| HttpMessage.Message.IssueSend | src/network/http_message.cpp:71-86 | the next write offers all the rest of the header right behind the accepted bytes, or all the rest of the put data, and never none |
| HttpMessage.Message.AfterSend | src/network/http_message.cpp:46-70 | moves to receiving exactly when all bytes were accepted or the write failed for good, retries on a time-out, else sends on from the accepted offset |
| HttpMessage.Message.AfterReceive | src/network/http_message.cpp:92-135 | by the result: retry, wait again, hand over, or read on, with the buffer holding exactly the bytes received |
| HttpMessage.Message.Examine | src/network/http_message.cpp:102-120 | hands over, fails or reads on exactly as `finished` answers for the bytes received, and notes an HTTP failure exactly on an exception or a code that is no success |
| HttpMessage.Message.Conclude | src/network/http_message.cpp:104-115 | the connection is given back for reuse exactly on a success code, with the true amount of traffic |
| HttpMessage.Message.Grow | src/network/http_message.cpp:131-134 | if the length is known and the next chunk does not fit, the capacity becomes the larger of the announced total plus a chunk and one and a half times the old one; contents stay |
| HttpMessage.Message.IssueReceive | src/network/http_message.cpp:136-140 | the read targets the free chunk behind the received bytes, inside the buffer |
| HttpMessage.Message.Execute | src/network/http_message.cpp:25-146 | terminates; returns Sending or Receiving exactly if it issued one request, otherwise the task has ended; what it did follows from the completed request's result |
| HttpMessage.Message.CompleteWrite | src/network/http_message.cpp:44-87 | whatever the kernel accepts, the accepted bytes stay a prefix of header ++ putData without gap or repeat |
| HttpMessage.Message.CompleteRead | src/network/http_message.cpp:98-141 | whatever arrives, the buffer's first bytes stay all bytes received in this attempt |
| HttpMessage.Message.RoundTrip | src/network/http_message.cpp:25-167 | over any schedule, until the task is over or as many requests as asked for have completed: at most 34 connects, at most 6 if none succeeds, and when the task is over every descriptor it got was disconnected exactly once |
| HttpMessage.Message.FinishedMeansComplete | src/network/http_message.cpp:102-115 | with an announced length a task reads on exactly below the threshold; a response it hands over is complete if header and body fit the machine's numbers, and truncated if they do not fit 64 bits; the length is the header's number if it has one |
| HttpMessage.AnswerIsOwn | src/network/http_helper.cpp:67-92 | the info handed over is what was detected in the first chunk |
| Timeouts.AnswerWrite | src/network/http_message.cpp:46-64 | after -EINPROGRESS or -EAGAIN the same bytes are offered again; after -ECANCELED or -EINTR the attempt is repeated; after any other failure, also that of the poll socket's time-out, a send failure is noted and the task waits for the response to a request it did not send |
| Timeouts.AnswerRead | src/network/http_message.cpp:94-127 | a read without result is waited for again or repeated, with the cause noted; one that the poll socket gave up on counts as a failure of the read |
| Timeouts.ExpiredIs | src/network/poll_socket.cpp:94-96 | the socket's time-out is not one of the results the message takes for a time-out |
| CacheBooks.EvictKeeps | src/network/cache.cpp:66-72 | evicting an entry keeps fifo, ownership and addresses in agreement |
| CacheBooks.KeepKeeps | src/network/cache.cpp:65-74 | caching an entry with a descriptor under a new timestamp keeps them in agreement |
| CacheBooks.KeepKeepsIff | src/network/cache.cpp:63-74 | caching an entry keeps them in agreement if and only if it has a descriptor |
| CacheBooks.CloseHeldKeeps | src/network/cache.cpp:79-83 | closing a held entry's descriptor keeps them in agreement: it is closed once |
| CacheBooks.TakeKeeps | src/network/cache.cpp:99-104 | handing out a cached entry keeps them in agreement |
| CacheBooks.ClosedAre | src/network/cache.cpp:40-87 | between two states in which nothing was opened, the closes recorded are exactly those of the descriptors that lost their owner: none leaks |
| CacheBooks.DescriptorLife | src/network/cache.cpp:40-131 | over any run of the elementary moves from an empty cache a descriptor once opened is held or cached with one owner until it is closed, is closed once and never has an owner again |
| CacheBooks.MakeKeeps | src/network/cache.cpp:40-131 | every elementary move keeps the books in agreement |
| CacheBooks.AfterPrefix | src/network/cache.cpp:40-131 | every prefix of a run is a run; no later move forgets a descriptor or a close |
| Cache.ConnectionCache.Record | src/network/cache.cpp:40-131 | what the cache's operations do is a run of these moves: the invariant says that the books are what the recorded moves make of an empty cache |
| Cache.HasLeast | src/network/cache.cpp:66 | a fifo that is not empty has a first entry |
| Cache.ConnectionCache.Begin | src/network/cache.cpp:66 | the oldest entry of the fifo |
| Cache.ConnectionCache.EvictOldest | src/network/cache.cpp:66-72 | closes exactly the oldest cached descriptor |
| Cache.ConnectionCache.MakeRoom | src/network/cache.cpp:66-72 | evicts oldest first and no more than needed for one more entry, and closes exactly the descriptors of the evicted; runs into undefined behaviour exactly if none may be cached |
| Cache.MadeMoreRoom | src/network/cache.cpp:66-72 | evicting the oldest once more still leaves only younger ones, with exactly the evicted ones' descriptors closed, and touches no other entry |
| Cache.ConnectionCache.UpperBound | src/network/cache.cpp:74 | a new entry goes behind the entries of its host |
| Cache.ConnectionCache.StopSocket | src/network/cache.cpp:59-87 | exactly if reuse is asked for, host and port are set and the address has priority left, the entry is cached with its descriptor open, and at most cacheEntries open ones remain; otherwise its descriptor is closed, and the entry stays for its address exactly if that has priority and the descriptor was open and not to be reused; entries go behind those of their host; order is kept if and only if an entry to be cached has a descriptor, and there is undefined behaviour if and only if one is to be cached and none may be |
| Cache.ConnectionCache.ShutdownSocket | src/network/cache.cpp:40-57 | dereferences a missing address if and only if an entry it looks at has been evicted; otherwise exactly the entries from its host on that share its address go, closes exactly their descriptors and its own, each once, and forgets no earlier close |
| Cache.ConnectionCache.DiscardSharing | src/network/cache.cpp:44-55 | the loop removes exactly the entries with the shared address, closes their descriptors and changes nothing else, unless it meets an evicted entry |
| Cache.ShutdownIs | src/network/cache.cpp:40-57 | what is left after that: entries, open descriptors and the record of closes |
| Cache.ConnectionCache.Resolve | src/network/cache.cpp:89-123 | hands out the first entry with the port and the kind of connection asked for, from the first of the host to the end, at a priority lower by one, drops the evicted ones passed, touches no descriptor; a new entry has priority 8; the entry is one of the requested host if and only if a usable one of that host exists or no other usable one follows |
| Cache.ConnectionCache.Lookup | src/network/cache.cpp:92-107 | stops at the first entry that serves, having erased exactly the evicted ones before it |
| Cache.OwnComesFirst | src/network/cache.cpp:92-107 | in the order of the multimap a host's own entries precede the others that are scanned |
| CacheExamples.WrongHostAnswered | src/network/cache.cpp:92-107 | on the cache of TwoHosts, a request for one host is answered with the connection to the other |
| CacheExamples.TwoHosts | src/network/cache.cpp:59-123 | using two hosts once leads to that cache |
| CacheExamples.ShutdownCrashes | src/network/cache.cpp:40-123 | two connections given back to a cache that keeps one make the shutdown of a third of that host dereference a missing address |
| CacheExamples.OldestLost | src/network/cache.cpp:66-74 | when the only cached connection had to make room its entry has no address any more |
| Cache.SweptStep | src/network/cache.cpp:92-107 | erasing while iterating visits every entry once |
| Cache.ConnectionCache.OpenSocket | src/network/connection_manager.cpp:84-87 | a held entry gets a descriptor that nobody had, the only way one comes into being |
| Cache.ConnectionCache.Destroy | src/network/cache.cpp:125-131 | afterwards every descriptor ever opened that no caller owns is closed, each once, and exactly the callers' ones are open |
| UrlEncoding.HexEncode | src/utils/utils.cpp:61-72 | two digits a byte, high one first |
| UrlEncoding.UnhexHex | src/utils/utils.cpp:61-72 | reads back as the bytes, with digits of the one case asked for, two a byte |
| UrlEncoding.EncodeUrlParameters | src/utils/utils.cpp:74-87 | equals the reference encoder |
| UrlEncoding.DecodeEncode | src/utils/utils.cpp:74-87 | percent-decoding undoes the encoding of every byte string |
| UrlEncoding.EncodeInjective | src/utils/utils.cpp:74-87 | different byte strings have different encodings |
| UrlEncoding.EncodedAlphabet | src/utils/utils.cpp:79-83 | only unreserved characters and percent signs come out |
| UrlEncoding.StaysIff | src/utils/utils.cpp:79-80 | the bytes that stay as they are, named one by one |
| UrlEncoding.EncodeLength | src/utils/utils.cpp:78-85 | the encoding leaves exactly the strings of unreserved characters alone and lengthens all others |
| UrlEncoding.EncodeTwice | src/utils/utils.cpp:78-85 | encoding twice lengthens exactly what needed encoding |
| OrderedMap.EmplaceIs | src/network/http_request.cpp:101 | `std::map::emplace`: keeps an existing key, inserts a new one in order |
| OrderedMap.EmplaceLast | src/network/http_request.cpp:128 | keys that arrive in ascending order are appended |
| OrderedMap.LessIff | src/network/http_request.cpp:101 | keys are ordered by the first byte where they differ, a beginning before the whole |
| HttpRequest.Serialize | src/network/http_request.cpp:135-155 | the text is start line, header lines and an empty line |
| HttpRequest.Deserialize | src/network/http_request.cpp:18-133 | equals the reference parser, including all its errors |
| HttpRequest.DeserializeFirstLine | src/network/http_request.cpp:50-117 | method, target and type, or the error |
| HttpRequest.DeserializeQueries | src/network/http_request.cpp:82-105 | every query with a key, in a map that keeps the first of equal keys |
| RequestRoundTrip.ParseQueries | src/network/http_request.cpp:82-105 | parsing the query text of a map emplaces its encoded entries one by one |
| RequestRoundTrip.KeysStayDifferent | src/network/http_request.cpp:144 | distinct keys stay distinct when encoded |
| RequestRoundTrip.FirstLineParses | src/network/http_request.cpp:50-117 | the start line gives back method, path, type and the encoded queries |
| RequestRoundTrip.HeadersParse | src/network/http_request.cpp:118-129 | the header lines give back the headers |
| RequestRoundTrip.RoundTrip | src/network/http_request.cpp:18-155 | deserialize(serialize(r)) is r with its queries percent-encoded, for every well-formed r |
| RequestRoundTrip.SameBytesIff | src/network/http_request.cpp:18-155 | serializing what was parsed gives identical bytes if and only if all queries are unreserved characters, and then r itself came back |
| RequestRoundTrip.SpaceIsEncodedAgain | src/network/http_request.cpp:144 | a request whose bytes differ the second time |
| RequestFormat.QueryIsRead | src/network/http_request.cpp:91-102 | a key ends at the first equals sign; a query may lack its value, but without a key it is dropped |
| RequestFormat.QueriesAreRead | src/network/http_request.cpp:82-105 | queries are cut at each ampersand, from the front |
| RequestFormat.TargetIsRead | src/network/http_request.cpp:76-109 | the path ends at the first question mark |
| RequestFormat.FirstLineIsRead | src/network/http_request.cpp:50-117 | a line of method, one character, target, space and version is read as such, with the type its version starts with, and is refused with another version |
| RequestFormat.FirstLineIsRefused | src/network/http_request.cpp:52-72 | a line with no known method, or no space behind the target, is refused |
| RequestFormat.HeaderIsRead | src/network/http_request.cpp:118-129 | a header is cut at its first separator, and a line without one refused |
| RequestFormat.EndIsNeeded | src/network/http_request.cpp:36-48 | a text without line break, or that starts with an empty line, is refused |
| RequestFormat.Example | src/network/http_request.cpp:135-155 | one request as it goes over the wire |
| PollSocket.Socket.Enqueue | src/network/poll_socket.cpp:113-119 | the invariant survives if and only if the descriptor has no request waiting |
| PollSocket.Socket.Poll | src/network/poll_socket.cpp:55-60 | marks entries and changes nothing else |
| PollSocket.Socket.Scan | src/network/poll_socket.cpp:62-106 | throws if and only if a descriptor is polled twice and its first entry is taken out; otherwise moves exactly the requests that are done to ready, in order |
| PollSocket.ScanStep | src/network/poll_socket.cpp:64-105 | one turn of the loop that erases while iterating: the next entry is looked at, none is skipped |
| PollSocket.StaysIff | src/network/poll_socket.cpp:67-102 | a polled request stays exactly if nothing was found for it and its deadline, if it has one, has not passed |
| PollSocket.TwoOfOneDescriptor | src/network/poll_socket.cpp:64-105 | a read and a write on one descriptor: an input for which it throws |
| PollSocket.Socket.TakeIfDone | src/network/poll_socket.cpp:65-102 | a request that is done gets its result, joins ready and leaves map and vector; any other stays untouched |
| PollSocket.ScanKeeps | src/network/poll_socket.cpp:62-106 | with distinct descriptors the exception cannot happen, map and vector keep the same descriptors, and no request is lost |
| PollSocket.Socket.Complete | src/network/poll_socket.cpp:50-111 | never throws; returns the request that became ready last, without looking at the others if there is one; if there is anything to wait for and anything ever happens it returns one; where nothing happens it returns none, whatever the deadlines; enqueued = waiting + ready + returned stays true |
| PollSocket.Socket.Submit | src/network/poll_socket.cpp:121-130 | the results of all submits and the counter add up to the number enqueued |
| PollSocket.MarksAreUsedUp | src/network/poll_socket.cpp:53-61 | after a scan no mark is left while the count of poll stays, so scanning again without submit changes nothing until a request expires |
| UnorderedMap.Bucket.Walk | include/utils/unordered_map.hpp:214-219 | stops at the only node with the key, or at the end of the chain |
| UnorderedMap.Bucket.Append | include/utils/unordered_map.hpp:175-179 | a new key is linked at the end of its chain |
| UnorderedMap.Bucket.Unlink | include/utils/unordered_map.hpp:190-198 | the node with the key is unlinked wherever it is; the rest of the chain stays |
| UnorderedMap.KeyIsThere | include/utils/unordered_map.hpp:211-221 | a key is in the map exactly if it is in the chain its hash selects |
| UnorderedMap.PushKeeps | include/utils/unordered_map.hpp:169-183 | chains and mathematical map stay in agreement when a key is added |
| UnorderedMap.EraseKeeps | include/utils/unordered_map.hpp:187-200 | and when one is removed |
| UnorderedMap.UnorderedMap.constructor | include/utils/unordered_map.hpp:127-137 | an empty map with the given number of chains |
| UnorderedMap.UnorderedMap.Push | include/utils/unordered_map.hpp:169-183 | adds the entry exactly if the key is new; the size is the number of keys |
| UnorderedMap.UnorderedMap.Insert | include/utils/unordered_map.hpp:151-165 | the same, and answers the entry just added or the end |
| UnorderedMap.UnorderedMap.Erase | include/utils/unordered_map.hpp:187-200 | removes the key exactly if it is there |
| UnorderedMap.UnorderedMap.Find | include/utils/unordered_map.hpp:211-221 | the value of the key, or the end |
| TlsConnection.Connection.StartRound | src/network/tls_connection.cpp:170-179 | takes what OpenSSL wants sent from the BIO once, as much as fits the buffer |
| TlsConnection.Connection.SendStage | src/network/tls_connection.cpp:180-215 | goes on to receiving exactly when the socket has every byte of the round; otherwise one write of the rest is out, also after a write that failed for good, or a time-out aborts |
| TlsConnection.Connection.AccountWrite | src/network/tls_connection.cpp:185-197 | the accepted bytes are counted, the cause of a failure noted, and only a time-out aborts |
| TlsConnection.Connection.ReceiveStage | src/network/tls_connection.cpp:216-260 | hands each received byte to the BIO once and in order, or has one read out that stays inside the buffer |
| TlsConnection.Connection.Process | src/network/tls_connection.cpp:166-264 | answers Sending or Receiving exactly if one request was issued; over the whole life the socket gets exactly the bytes taken from the BIO, in order |
| TlsConnection.Connection.CompleteWrite | src/network/tls_connection.cpp:185-186 | whatever the socket accepts stays a prefix of the stream taken from the BIO |
| TlsConnection.Connection.BrokenPipe | src/network/tls_connection.cpp:192-210 | after a broken pipe another write is issued |
| TlsConnection.Connection.Ssl | src/network/tls_connection.cpp:75-107 | an operation is run only when the last round has delivered everything both ways |
| TlsConnection.Connection.OperationHelper | src/network/tls_connection.cpp:75-107 | in progress exactly if one request is out; runs the operation once exactly between two rounds or when the completed request ends its round, and then answers as the operation does: finished or aborted with its status, or in progress; a round that is given up answers aborted and runs none |

## Left out

- Weak memory: `RingBuffer` and `Multipart` are sequentially consistent; the 64-bit counters of the ring do not wrap.
- Refused sends are no step of `Multipart`: `AsyncSend` says for any state of it what a refusal leads to. The sender's own loop runs without other threads in between.
- Transaction.Transaction.RunReports: see Transaction.Transaction.Drain.
- Transaction.Transaction.Drain: callbacks run after the loop of the send-receiver, in the order of its reports, and not inside it; they touch nothing the loop does and the loop nothing they do, as the two `modifies` clauses say. A run that ends with an exception is not followed further, though the books are right.
- Scheduler.SendReceiver.SendReceive: that the kernel, the tasks and other threads keep the loop going only finitely often is its parameter; with a concurrency of zero it runs until someone stops it. Callbacks of tasks do not throw, time measurements and buffer reuse are not modelled.
- Scheduler.SendReceiver.Prepare: the ring has room while the limit on concurrent requests stays as it was at construction.
- PollSocket.Socket.Complete: that polls find nothing only so often before something happens, or never anything, is its parameter; an answer of none stands for a call that does not come back. After a second `complete` without `submit` the source may also go on scanning without polling (`PollSocket.MarksAreUsedUp`).
- HttpMessage.Message.Execute: vectors own their buffers and allocation succeeds; a message that is signed anew is never empty, as a request contains at least its method.
- HttpHelper.FinishedIffComplete: only for Content-Length; the detection of chunked bodies is a plain search over header and body and is modelled without a correctness claim. A header cut by the first chunk makes the attempt fail and is modelled so.
- `HTTPSMessage::execute`: the same round trip over OpenSSL's results; its exactly-once disconnect is not claimed.
- TlsConnection.Connection.OperationHelper: OpenSSL wants I/O only if it has bytes to send or asks for some, `BIO_read` takes at least one pending byte and `BIO_write` takes what was asked for; sessions and contexts are not modelled.
- Cache.ConnectionCache.ShutdownSocket: what happens after the missing address has been dereferenced is not modelled; addresses are abstract values.
- Cache.ConnectionCache.Resolve: the timestamp of a new entry is uninitialised in the code and modelled as a value that is no key of the fifo. Descriptors are handles, as the operating system reuses numbers.
- Cache.ConnectionCache.StopSocket: what happens after an erase from the empty fifo is not modelled.
- UnorderedMap.UnorderedMap.Push: the bucket locks make operations on one chain atomic; operations are modelled one at a time, the link between table buckets and the iterator's own lock are not.
- RequestRoundTrip.RoundTrip: well-formed means no space, question mark or line break in the path, no line break in headers, no header separator in a header key and no empty query key.
- Signers, hashing, base64, the provider classes, the throughput cache, load tracking and the benchmark: thin wrappers over OpenSSL or plain bookkeeping.
- Name resolution, socket options, io_uring and OpenSSL internals, clocks: nondeterministic results.
