# WAL redo in Dafny

A model of the WAL-redo component of the Neon page server, `src/walredo.rs`.
The page server does not replay write-ahead log itself. It starts a
`postgres --wal-redo` child process and, for each page to reconstruct, sends
it a sequence of byte frames over the child's stdin:

1. `B`: begin redo for a block;
2. `P`: push the base page image, only when there is one;
3. `A`: apply one WAL record, once per record, in order;
4. `G`: get the page back.

It then reads the 8192-byte result from the child's stdout. A dedicated
thread takes requests off a channel, publishes each outcome into the
requesting cache entry, and recycles the child process after 99 requests or
after the first failure.

The project has six modules:

- `ByteOrder` (byte_order.dfy): fixed-width unsigned integers and the
  big-endian encoding that `put_u32`/`put_u64` write, with both round trips.
- `WalRedoMessages` (messages.dfy): the four frame builders, the byte layout
  of each frame, and a decoder for one frame. Encoding and decoding are
  proved inverse in both directions.
- `WalRedoCommands` (commands.dfy): the command sequence of one request and
  the loop that builds its frames. It also holds a stream decoder. The
  frames written back to back decode to exactly the commands, and a stream
  that decodes determines its commands.
- `WalRedoPipe` (pipe.dfy): writing the frames into the child's stdin, with
  the pipe's capacity per `write` call as an input. The code as written is
  modelled here, next to the corrected version (see Findings).
- `WalRedoWorker` (worker.dfy): `handle_apply_request` on a `CacheEntry`
  class, and the 99-iteration reuse loop with its break on error. It also
  holds `wal_applicator_main` over a finite queue of requests. A request's
  apply outcome is an input.
- `Wrappers` (wrappers.dfy): `Option`, `Result`, `Repeat`.

Three points about the code as written, which the model follows:

- The reuse loop `for _i in 1..100` serves 99 requests per process, while
  the comment at line 64 says 100.
- The length field of every frame counts its own four bytes (`4 + 5*4`,
  `4 + 8 + len`), so it equals the frame size minus the tag byte.
- The comment at line 187 says the block sends all the commands,
  but the code makes one `write` call per frame and drops the count that
  call returns (see Findings).

## Model

| member | source | states |
|---|---|---|
| ByteOrder.ReadU32BE | src/walredo.rs:246-251 | the four bytes `put_u32` writes for x read back as x |
| ByteOrder.U32BERead | src/walredo.rs:246-251 | every four bytes are the `put_u32` encoding of the number they stand for, so the encoding is a bijection on u32 |
| ByteOrder.ReadU64BE | src/walredo.rs:280 | the eight bytes `put_u64` writes for an lsn read back as that lsn |
| ByteOrder.U64BERead | src/walredo.rs:280 | every eight bytes are the `put_u64` encoding of the number they stand for |
| ByteOrder.ConcatAppend | src/walredo.rs:196-213 | writing two runs of frames one after the other sends the bytes of the first followed by those of the second |
| WalRedoMessages.BuildBeginRedoForBlockMsg | src/walredo.rs:241-254 | the begin frame is 25 bytes long: tag byte, u32 length and five u32 tag fields (layout in BeginMsgLayout) |
| WalRedoMessages.BuildPushPageMsg | src/walredo.rs:256-272 | callable only with a one-page image, as the `assert!` demands; the frame is 25 + 8192 bytes (layout in PushPageMsgLayout) |
| WalRedoMessages.BuildApplyRecordMsg | src/walredo.rs:274-284 | the frame is 13 bytes longer than the record: tag byte, u32 length, u64 lsn (layout in ApplyRecordMsgLayout) |
| WalRedoMessages.BuildGetPageMsg | src/walredo.rs:286-299 | the get-page frame is 25 bytes long (layout in GetPageMatchesBegin) |
| WalRedoMessages.BeginMsgLayout | src/walredo.rs:241-254 | the begin frame is 25 bytes: `B`, the length bytes 0 0 0 24, then spcnode, dbnode, relnode, forknum and blknum, each as a big-endian u32 at offsets 5, 9, 13, 17 and 21 |
| WalRedoMessages.GetPageMatchesBegin | src/walredo.rs:286-299 | the get-page frame has the begin frame's length and bytes, except that its first byte is `G` instead of `B` |
| WalRedoMessages.PushPageMsgLayout | src/walredo.rs:256-272 | for an 8192-byte image the push-page frame is 8217 bytes, starts with `P`, has length field 8216, carries the tag fields of the begin frame at 5..25 and the image unchanged from offset 25 |
| WalRedoMessages.ApplyRecordMsgLayout | src/walredo.rs:274-284 | when 12 + len(rec) fits in a u32, the apply-record frame starts with `A`, has length field 12 + len(rec), carries the lsn at bytes 5..13 and the record verbatim from byte 13 on |
| WalRedoMessages.ApplyLengthWraps | src/walredo.rs:279 | when 12 + len(rec) does not fit in a u32, the truncating `as u32` and the wrapping addition leave (12 + len(rec)) mod 2^32 in the length field, which does not match the frame size |
| WalRedoMessages.LengthFieldSelfInclusive | src/walredo.rs:241-299 | for every well-formed frame of the four kinds, the length field equals the frame size minus one: it covers its own four bytes and the payload |
| WalRedoMessages.DecodeTagFields | src/walredo.rs:247-251 | the twenty tag-field bytes decode back to the tag they were written from |
| WalRedoMessages.DecodeEncode | src/walredo.rs:241-299 | decoding the frame built for any well-formed command gives back exactly that command |
| WalRedoMessages.EncodeDecode | src/walredo.rs:241-299 | every byte string the frame decoder accepts is exactly the frame built for the command it decodes to, so no two commands share a frame |
| WalRedoCommands.CommandsOrder | src/walredo.rs:196-213 | a request's commands are begin first, push-page at position 1 exactly when there is a base image, one apply-record per WAL record with that record's lsn and bytes in input order, and exactly one get-page, last; no kind appears anywhere else |
| WalRedoCommands.CommandsAsWritten | src/walredo.rs:196-213 | the command sequence equals the source's concatenation: begin, the optional push-page, the records' apply-records, get-page |
| WalRedoCommands.ImageOnlyRequest | src/walredo.rs:196-213 | with a base image and no records, a request is exactly begin, push-page, get-page, and its frames are those three builders' frames |
| WalRedoCommands.SingleRecordRequest | src/walredo.rs:196-213 | with no base image and one record (lsn 100, "INIT"), the request is begin, apply-record(100, "INIT"), get-page, with frame tags `B`, `A`, `G` |
| WalRedoCommands.FramesAsWritten | src/walredo.rs:196-213 | the frames of a request are the begin builder's frame, the push-page builder's frame if there is an image, the apply-record frames of the records in order, and the get-page frame |
| WalRedoCommands.BuildOutboundMessages | src/walredo.rs:196-213 | the frame-building loop (begin, optional push-page, one apply-record per record in the `for rec in records.iter()` loop, get-page) produces exactly the frames of the request's commands |
| WalRedoCommands.OutboundFrameTags | src/walredo.rs:196-213 | the first bytes of the outbound frames are `B`, then `P` only with a base image, then N times `A`, then `G` |
| WalRedoCommands.StreamRoundTrip | src/walredo.rs:196-213 | the frames of any list of well-formed commands, written back to back, decode at the child to exactly that list |
| WalRedoCommands.StreamDecodeUnique | src/walredo.rs:196-213 | every byte stream that decodes is exactly the frames of what it decodes to, so a stream determines its commands |
| WalRedoCommands.OutboundStreamDecodes | src/walredo.rs:193-217 | when every record fits the u32 length field, the byte stream of a request decodes to the request's command sequence |
| WalRedoPipe.ChildStdin.Write | src/walredo.rs:196 | one `write` call either hands the child the front of the buffer, as many bytes as the pipe has room for, and returns that count, or fails (an io::Error or the `timeout` expiring), sends nothing and returns the error; it returns the whole length exactly when the pipe had room for all of it |
| WalRedoPipe.SendFramesAsWritten | src/walredo.rs:196-213 | with one `write` per frame, the count ignored and `??` on each: the child receives, for each frame in order up to the first failing write, only the prefix its single write took; the result is Ok exactly when no write failed, and otherwise carries the first failure's error |
| WalRedoPipe.DeliveredStopsAtFailure | src/walredo.rs:196-213 | nothing is written after the first failing write: the child receives exactly what the writes before it delivered |
| WalRedoPipe.DeliveredLength | src/walredo.rs:196-213 | for non-empty frames, the child receives no more bytes than the frames hold, and it receives all the frames exactly when no write failed and every single write took its whole frame |
| WalRedoPipe.ShortWriteLosesCommands | src/walredo.rs:196-213 | if any one write takes less than its frame or fails, whatever the other writes do, the bytes the child receives do not decode to the commands |
| WalRedoPipe.PushPageShortWrite | src/walredo.rs:198 | when the pipe takes 4096 bytes of the 8217-byte push-page frame, the child's stream does not decode to the request's commands |
| WalRedoPipe.PushPageShortWriteReportedOk | src/walredo.rs:196-213 | when no write fails but the push-page write takes only 4096 bytes, the sending as written reports success (no first failure), yet the child's stream does not decode to the request's commands |
| WalRedoPipe.SendApplyRequestAsWritten | src/walredo.rs:193-217 | the stdin half as written: build the frames, then one `write` each until one fails; the child receives the delivered prefixes of the request's frames, and the result is Ok exactly when no write failed, otherwise the first failure's error |
| WalRedoPipe.WriteAll | src/walredo.rs:196 | repeated writes of what is left: the child receives a prefix of the buffer, and all of it exactly when the result is Ok; it succeeds whenever every call takes at least one byte and there are as many calls as bytes; for a non-empty buffer, a failing first call returns that call's error, a first call that takes nothing returns WriteZero, and no call at all returns TimedOut, each with nothing sent |
| WalRedoPipe.SendFrames | src/walredo.rs:196-213 | with `write_all` per frame and `?` stopping at the first error: on success the child has received every frame whole and in order, on failure a proper prefix of that stream; when every write of every frame makes progress and each frame has enough calls, the result is success |
| WalRedoPipe.SendApplyRequest | src/walredo.rs:193-217 | the stdin half with `write_all`: on success the child has been sent exactly the request's frame stream, which decodes to its commands (OutboundStreamDecodes); when every write makes progress and each frame has enough calls, it succeeds |
| WalRedoWorker.HandleApplyRequest | src/walredo.rs:87-121 | `apply_pending` becomes false in both outcomes and the waiters are woken once; on success the image is stored, the counter goes up by exactly 1 and Ok is returned; on failure the image and the counter are unchanged and the error is returned |
| WalRedoWorker.ServeRequest | src/walredo.rs:70-72 | handling the next request changes the entry it names as `handle_apply_request` does, leaves every other entry alone, and counts one image exactly when it succeeds |
| WalRedoWorker.StateBetweenCounts | src/walredo.rs:94-118 | after a run of requests, an entry's waiters have been woken once per request for it, and it is still pending exactly when it was pending and no request for it was handled |
| WalRedoWorker.ImageAfterLastSuccess | src/walredo.rs:108-115 | after a run of requests, an entry holds the image of the last successful request for it, whatever failed requests came after |
| WalRedoWorker.ImageAfterNoSuccess | src/walredo.rs:108-111 | failed requests leave an entry's image as it was |
| WalRedoWorker.NotMentioned | src/walredo.rs:87-121 | requests for other entries leave an entry's state untouched |
| WalRedoWorker.StateBetweenSplit | src/walredo.rs:68-77 | handling one run of requests and then the next is the same as handling both as one run |
| WalRedoWorker.CountOkSplit | src/walredo.rs:113 | the number of successes in two consecutive runs of requests is the sum of each run's |
| WalRedoWorker.SessionShape | src/walredo.rs:68-77 | in the session of one process every request except possibly the last succeeds; the process is left waiting exactly when the requests ran out before 99 were served with no failure among them; otherwise it served 99 or its last request failed |
| WalRedoWorker.SessionFrom | src/walredo.rs:68-77 | a process never serves more than 99 requests, nor more than are left in the queue |
| WalRedoWorker.ServeNext | src/walredo.rs:68-76 | one iteration of the reuse loop: the session so far grows by one request that succeeded, or the session ends with this failed request; the counter and entries follow that request |
| WalRedoWorker.ServeProcessInstance | src/walredo.rs:68-77 | the inner loop serves exactly the session's requests, ends with a failure exactly when the last one it served failed, and leaves every entry and the counter as handling those requests in order makes them |
| WalRedoWorker.AssignSplit | src/walredo.rs:54-84 | a session's requests all go to one instance, and unless that instance is left waiting the next request goes to a fresh instance |
| WalRedoWorker.InstanceStart | src/walredo.rs:54-68 | the first request of the queue is served by the first process instance, as that instance's first request |
| WalRedoWorker.InstanceTransition | src/walredo.rs:68-77 | from one request to the next, the instance changes exactly when the earlier request failed or was the instance's 99th, and then the later request is the new instance's first one; otherwise it is one position further in the same instance |
| WalRedoWorker.InstanceRun | src/walredo.rs:68-77 | instance numbers never decrease along the queue, and within one instance the position rises by one per request |
| WalRedoWorker.AtMostPerInstance | src/walredo.rs:68 | no process instance serves more than 99 requests: the request 99 places after any request always goes to a later instance |
| WalRedoWorker.RunInstance | src/walredo.rs:54-84 | one turn of the outer loop: launch, serve a session, drop; the instance numbering, the counter and the entries move on by exactly that session |
| WalRedoWorker.WalApplicatorMain | src/walredo.rs:52-84 | over a finite queue, the instance serving each request is the one the recycling policy assigns; the counter rises by the number of successful requests; every entry ends as handling all requests in order makes it |

## Left out

- Process launch, the stderr-forwarding task and their `expect`/`unwrap` panics (lines 61, 131-174) are operating-system process I/O and are not modelled.
- Process teardown (lines 79-83): stdin shutdown and `child.wait()` are I/O. Here a session simply ends and the next instance starts.
- The stdout half of `apply_wal_records` (lines 219-237) is not modelled: `read_exact` of 8192 bytes, `try_join!` and the `timeout` deadlines. Its outcome reaches `HandleApplyRequest` as the input `applyResult`. In the pipe model, the `timeout` around one `write` expiring is that write's `Fails(TimedOut)` outcome, and for `write_all` also running out of write calls; the deadline itself is not modelled.
- `stdin.flush()` (line 214) is a no-op for the model's pipe, which holds every byte it accepts.
- `collect_records_for_apply`, `PAGECACHE` and the channel (lines 53, 70, 91) live in `page_cache`, which is not part of this model. The tag, base image and records of a request are inputs, and the channel is a finite queue of arrivals.
- WalApplicatorMain: the source loops forever. The model stops when a process is left waiting in `recv()` for a request that never comes.
- The entry's mutex and `walredo_condvar.notify_all` (lines 93, 118) are thread synchronisation. A ghost counter `wakeups` records each wake-up.
- Logging, `Instant` timing and the atomic counter's memory ordering (lines 98-113) are left out. The counter is an unbounded number.
- BufferTag is defined in `page_cache`, which is not part of this model. `forknum` is taken to be a byte, widened to u32 on the wire as `forknum as u32` does.
- BuildPushPageMsg: the `assert!` on the image length (line 258) is a precondition. A violation would panic the redo thread.
- BuildApplyRecordMsg: the length `4 + 8 + rec.len() as u32` uses release-build semantics (truncation, then wrapping addition). A debug build would panic on the overflow instead.
- test_runner/batch_others/test_parallel_copy.py is an integration test against a running cluster and has nothing to model.

## Findings

| source | as written | input that shows it | evidently intended | confidence | as-written member | corrected member |
|---|---|---|---|---|---|---|
| src/walredo.rs:196-213 | each frame is passed once to `stdin.write`, and the number of bytes written is discarded | a push-page request whose 8217-byte `P` frame meets a pipe that takes only 4096 bytes in that call: the child never receives the rest of the frame | every frame sent whole (`write_all`), so the child receives exactly the command stream | medium, not executed | WalRedoPipe.PushPageShortWriteReportedOk | WalRedoPipe.SendApplyRequest |
