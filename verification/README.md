# clogx verification

A Dafny model of the concurrent and text-producing core of clogx, a C logging library, with proofs
about every input, every run or every reachable state.  `dafny verify dfyconfig.toml` checks the
whole project.

| files | what they model |
|---|---|
| `RingIndex`, `AsyncPipeline`, `PipelineInvariant`, `PipelineWriters`, `PipelineWorker`, `PipelineTheorems`, `PipelineShutdown`, `PipelineProgress`, `PipelineHoles`, `PipelineReturns` | the multi-producer, single-consumer ring, the worker, flush and close, as a transition system whose steps are single atomic operations |
| `CStrings`, `StringPacking`, `RecordClone` | deep copy of a record into one inline buffer or one heap block, the two pointer rebases on its way through the ring, and its release |
| `FastAscii`, `JsonText`, `JsonNumbers`, `JsonPrinter`, `JsonCut`, `JsonDocument`, `JsonBadKey`, `JsonCursor`, `JsonRecord`, `JsonReading`, `JsonChunks`, `JsonFormat`, `JsonStamp`, `JsonWhole` | integer printing, the bounded JSON and OTel renderers, and an RFC 8259 parser to judge them by |
| `FormatProgram`, `FormatTokens`, `FormatCache`, `FormatMeaning` | the format compiler, its interpreter, the per-thread cache, and what each token prints |
| `ReplaceAll`, `Redaction`, `RedactionCopies` | the in-place, the ping-pong and the heap redactor |
| `ModuleSeqlock` | the module name under a generation counter |
| `SpanContext`, `SpanStack`, `TraceEnv` | the span stack and the W3C Trace Context header, exported, joined and read from the environment |
| `RateLimit` | the token bucket |
| `Rotation`, `FileSink` | the rotation chain and the file sink |

Code that updates memory in place is modelled in that form: classes with fields, arrays and loops,
each proved against a function of the old state, about which the laws are then proved.  Concurrent
code is a transition system: a schedule is any sequence of steps of any of the threads, and a
theorem speaks about the state after any schedule.

## What was found

Properties that do not hold as promised are kept as the code has them, with the exact condition:

- A put that has passed its closed check can return 0 after the worker has exited, and its record
  is then never dispatched (`PipelineShutdown.RacingPutIsLost`).  An accepted record is delivered if
  and only if its position was claimed before the worker's deciding load of `head`
  (`PipelineShutdown.ExitDeliversWhatWasClaimed`).
- A comment in `core/queue.c` promises that after an abandoned claim the queue degrades to synchronous
  mode.  It does not: later puts still return 0 and nobody dispatches their records
  (`PipelineHoles.AcceptedIsLost`).  An accepted record can be dispatched if and only if no claim below
  it was abandoned (`PipelineHoles.DispatchableIff`); while there is no abandoned claim, an open queue
  can always run to a state in which everything was dispatched (`PipelineProgress.CanAlwaysDrain`).
- After an abandoned claim a flush that begins on an open queue never returns, and a worker that begins
  to wait on a closed queue never exits, so that `log_async_shutdown_for` hangs in its join.  Without one
  both can always return: these are if-and-only-ifs (`PipelineReturns.FlushReturnsIff`,
  `PipelineReturns.ExitsIff`).
- A record with inline strings but no message is not recognised as inline and keeps pointers into the
  producer's dead stack frame; this happens exactly for records that are not `Movable`
  (`RecordClone.ThroughRing`).
- Releasing a clone frees what the clone allocated if and only if the record is `Releasable`
  (`RecordClone.FreeOwned`, by the worker `RecordClone.DispatchAndRelease`, by the producer
  `RecordClone.CloneAndRelease`).  A heap block leaks when message, module, tag and first key are all
  absent.  A short record without a message but with a module, a tag or a first key has its inline
  buffer passed to `free` (`RecordClone.ModuleOnlyIsNotReleasable`).  The logging calls of the library
  always set a message; `log_async_write` accepts any record.
- The whole JSON or OTel line of a record parses to members that tell the record if and only if the time text holds no
  quote, backslash or control byte and no floating point attribute is infinite or NaN
  (`JsonStamp.JsonReadBackIff`, `JsonStamp.OtelReadBackIff`).  With a plain time text the lines of all
  buffer sizes are well formed if and only if every floating point attribute is finite and no attribute
  key holds a control byte without a short escape before its last byte (`JsonFormat.JsonWellFormedIff`,
  `JsonFormat.OtelWellFormedIff`).
- `CHANGELOG.md` promises that a line is closed with a valid suffix when a string field exhausts the
  buffer.  A string is cut in a returned line only in front of a control byte without a short escape
  (`JsonCut.CutFields`), so never inside a UTF-8 sequence; text without such bytes is never cut, and
  the line is dropped unless all of it fits (`JsonWhole.TameDocIsWhole`).  The lines of a record are all
  or nothing for every buffer size if and only if no string has such a byte before its last one, nor as
  its last one with less than six bytes of the line behind it (`JsonWhole.RecordIsWholeIff`).
- `append_json_escaped_string` reports success although the last byte was dropped exactly when there is
  room for the escapes of all other bytes and two bytes more, but not for the whole
  (`JsonPrinter.SilentDropIff`, `JsonPrinter.QuoteIsDropped`).  `JsonCut.CutFields` shows that this
  never costs more than the last byte of the last member that is printed.
- The comment on `parse_traceparent` promises that malformed text in TRACEPARENT clears the
  identifiers; the code clears both exactly when both parts are there and only the span part is not
  hexadecimal (`TraceEnv.MalformedClearsIff`).
- A joined header cannot be exported again if and only if its trace id is written with zeros only, which
  `clog_span_join` accepts (`SpanContext.JoinedIsExported`, `SpanStack.Stack.JoinAndExport`).
- `include/log.h` promises that joining is as strict as the reading of TRACEPARENT.  Neither is stricter
  (`TraceEnv.NeitherIsStricter`): a header that can be joined is read from the environment if and only if
  its first two characters are no dashes, and one that is read can be joined if and only if its version
  has two characters and the flags follow (`TraceEnv.AcceptedAlikeIff`).
- Without backups the size counter of the file sink no longer matches the file
  (`Rotation.CountMatchesIff`).

Where the code and its documentation disagree the model follows the code: the capacity of a queue
created with size 1 is 1 (`next_pow2`), although the header promises at least 2; `%time` prints no
microseconds, although the table in `core/formatter.c` shows them; the rate limiter takes a mutex,
although its header describes compare-and-swap; `core/async.c` packs strings into one block and
wakes through a semaphore, although comments still speak of separate copies and a condition
variable; `format_otel_json` prints module before file, although its comment shows another order.

## Model

| member | source | states |
|---|---|---|
| `RingIndex.NextPow2` | core/queue.c:63-73 | the doubling loop returns the least power of two that is at least n |
| `RingIndex.MaskIsModulo` | core/queue.c:193-195 | `pos & (cap - 1)` is `pos % cap` for every capacity that is a power of two |
| `RingIndex.SameSlotInWindow` | core/queue.c:193-195 | two positions less than a lap apart share a slot only when they are equal |
| `PipelineInvariant.InitInv` | core/queue.c:115-160 | a fresh queue satisfies the invariant of the pipeline, for any capacity and any number of writers |
| `PipelineWorker.StepKeepsInv` | core/queue.c:163-243 | every atomic step of every thread keeps the invariant: claims, slot sequence numbers, slot ownership, fates of records, wake-up bookkeeping |
| `PipelineTheorems.DeliveredInClaimOrder` | core/queue.c:308-350 | after every schedule the dispatched records are, in claim order, exactly the published records of a prefix of the claims, and of all consumed positions once no batch is in dispatch |
| `PipelineTheorems.DispatchedExactlyOnce` | core/async.c:333-354 | every write call hands its record to the dispatcher at most once, and in a quiescent state exactly once: by the worker if it returned OK, by its caller otherwise |
| `PipelineTheorems.OnlyAcceptedAreDelivered` | core/queue.c:171-243 | the worker dispatches only records whose put returns 0; a put that returned -1 leaves its record to the caller |
| `PipelineTheorems.SlotsAreExclusive` | core/queue.c:193-241 | no two writers fill one slot, a position is filled only after the one a lap earlier was consumed, and the worker copies only fully written slots |
| `PipelineTheorems.ClaimsAreBounded` | core/queue.c:182-193 | claimed and unconsumed positions never exceed capacity + writers - 1 |
| `PipelineTheorems.FlushIsBarrier` | core/async.c:316-326 | when flush returns, every record accepted before it began has been dispatched |
| `PipelineTheorems.OldestClaimWakes` | core/queue.c:163-169 | a writer with the oldest unconsumed claim, left to run, posts for a parked worker |
| `PipelineTheorems.BlockedWorkerIsWoken` | core/queue.c:274-306 | no lost wake-up: a worker blocked with an unconsumed claim is posted to by some writer within six of its own steps |
| `PipelineTheorems.BlockedWorkerIsIdle` | core/queue.c:274-306 | a blocked worker with no writer in a call has nothing queued, and a close leaves a post for it |
| `PipelineTheorems.BatchFits` | core/queue.c:308-350 | after every schedule the worker's batch fits its array of 64 records |
| `PipelineTheorems.FailedCallIsDirect` | core/async.c:333-354 | a call whose clone fails, or on a closed queue, dispatches its record itself and leaves the queue as it was |
| `PipelineShutdown.ExitDeliversWhatWasClaimed` | core/queue.c:279-301 | when waiting for items returns -1, exactly the positions claimed before the deciding load of head have been delivered |
| `PipelineShutdown.LostAfterExit` | core/queue.c:279-301 | what is queued when the worker has exited is dispatched in no continuation, by nobody |
| `PipelineShutdown.CloseDrains` | core/queue.c:399-421 | closed, no put in flight and a fresh wait: the worker exits only on a drained queue with every accepted record dispatched |
| `PipelineShutdown.RacingPutIsLost` | core/queue.c:171-181 | without that condition a schedule exists that accepts a record which no continuation dispatches |
| `PipelineProgress.CanAlwaysDrain` | core/queue.c:196-203 | after every schedule that leaves the queue open and no claim abandoned, the threads can run on, without new calls, to a state in which every call has returned and every record was dispatched |
| `PipelineProgress.StrandedForever` | core/queue.c:279-301 | once the worker has left with unconsumed claims, no continuation dispatches everything |
| `PipelineHoles.WaiterAbandons` | core/queue.c:207-224 | a writer that waits while the tail stands still abandons its claim after its allowance of stalled turns, and changes nothing else |
| `PipelineHoles.NotAbandonedEarly` | core/queue.c:207-224 | whatever the other threads do, a claim is not abandoned before the writer has seen a million looks without progress, and progress starts the count again |
| `PipelineHoles.LostBehindHole` | core/queue.c:196-224 | in every continuation the worker stays before an abandoned claim, and neither it nor a caller dispatches a record queued behind |
| `PipelineHoles.DispatchableIff` | core/queue.c:196-224 | an accepted record of an open queue can still be dispatched if and only if no claim below it was abandoned |
| `PipelineHoles.AcceptedBehindHole` | core/queue.c:203-206 | behind an abandoned claim a put still returns 0 while the claims fit the capacity, and its record is lost in every continuation |
| `PipelineHoles.AcceptedIsLost` | core/queue.c:203-206 | such a run exists, with the worker alive and the queue open |
| `PipelineReturns.CanAlwaysExit` | core/queue.c:279-301 | from every reachable state of a closed queue without an abandoned claim the threads can run until the worker has exited; the worker and the closer alone can when no put is in flight |
| `PipelineReturns.HangsAtHole` | core/queue.c:279-301 | a worker that waits for items behind an abandoned claim exits in no continuation |
| `PipelineReturns.ExitsIff` | core/async.c:302-314 | a worker that begins to wait on a closed queue can exit if and only if no claim was abandoned |
| `PipelineReturns.CanAlwaysFlush` | core/async.c:316-326 | while the queue is open and no claim was abandoned, a flush that is started or going on can be run to its return, without new calls |
| `PipelineReturns.FlushReturnsIff` | core/async.c:316-326 | a flush that begins on an open queue can return if and only if no claim was abandoned |
| `StringPacking.ReadBack` | core/async.c:107-222 | reading a packed block back at the start of text k gives text k |
| `StringPacking.PackedDisjoint` | core/async.c:107-222 | packed texts do not overlap and end inside the budget |
| `RecordClone.StrLen` | core/async.c:111-124 | the length of the C string at a pointer |
| `RecordClone.TotalBytes` | core/async.c:111-124 | the byte budget of all strings with their terminators |
| `RecordClone.PackString` | core/async.c:138-144 | one string is copied behind the write pointer, which moves by its length and terminator |
| `RecordClone.PackAll` | core/async.c:137-173 | all strings are packed in order into one block, and every new pointer points to its text there |
| `RecordClone.CloneInto` | core/async.c:107-173 | the clone shows the same strings and scalars as the source, through pointers into one block |
| `RecordClone.Clone` | core/async.c:102-222 | inline when everything fits in 256 bytes, otherwise one fresh block of the exact size, otherwise failure without an allocation |
| `RecordClone.CopyRecord` | core/queue.c:88-113 | struct copy and rebase: pointers into the source's inline buffer move to the copy's, others stay |
| `RecordClone.InlineCopy` | core/queue.c:79-113 | copying an inline record with a message moves all its strings into the copy's own buffer |
| `RecordClone.ThroughRing` | core/queue.c:235-239 | clone, slot and batch with the earlier memory reused in between: the batch record shows what was logged if and only if the record is movable |
| `RecordClone.FreeOwned` | core/async.c:52-85 | on a clone, what is freed is what the clone allocated if and only if the record is releasable; otherwise the heap block leaks or inline memory is freed |
| `RecordClone.LeadIsStart` | core/async.c:52-85 | the pointer taken for the block is its start exactly when message, module, tag or first key is present |
| `RecordClone.DispatchAndRelease` | core/async.c:239-266 | clone, slot, batch and release by the worker: the fresh block the clone allocated, or nothing for an inline record, is freed if and only if the record is releasable; otherwise an inline record frees the producer's stack buffer |
| `RecordClone.CloneAndRelease` | core/async.c:342-351 | the same when the queue refuses the clone and the producer releases it |
| `RecordClone.ModuleOnlyIsNotReleasable` | core/async.c:52-85 | any short module without further strings is an inline record that is not releasable |
| `FastAscii.LutPair` | core/fast_ascii.h:13-28 | entry pair d of the table holds the two decimal digits of d |
| `FastAscii.DecimalValue` | core/fast_ascii.h:67-101 | decimal text denotes its number and has no leading zero |
| `FastAscii.U32ToA` | core/fast_ascii.h:67-101 | the two-digits-at-a-time loop prints the decimal text of every 32-bit value |
| `FastAscii.I32ToA` | core/fast_ascii.h:108-116 | the same for signed values, including the minimum |
| `FastAscii.U64ToA` | core/fast_ascii.h:123-148 | the same for every 64-bit value |
| `FastAscii.I64ToA` | core/fast_ascii.h:155-163 | the same for signed 64-bit values, including the minimum |
| `FastAscii.U32ToAPad6` | core/fast_ascii.h:48-60 | six digits that denote the value |
| `JsonText.ParseRender` | core/formatter_json.c:69-72 | parsing the printed text of any value of RFC 8259 objects, strings, numbers and booleans gives the value back |
| `JsonText.IntIsNumber` | core/formatter_json.c:45-48 | the decimal text of every integer is a number of section 6 of RFC 8259 and is read back exactly |
| `JsonNumbers.ParseRenderIff` | core/formatter_json.c:49-53 | a document with the texts of floating point values parses if and only if all of them are finite |
| `JsonPrinter.Fit` | core/formatter.c:144-218 | the escape loop stops at the longest prefix whose escape fits |
| `JsonPrinter.SilentDropIff` | core/formatter.c:144-218 | success is reported for a cut string exactly when the escapes of all bytes but the last leave two bytes of room and the whole does not fit |
| `JsonPrinter.QuoteIsDropped` | core/formatter.c:144-218 | a quote and two bytes of room: success, and nothing is written |
| `JsonPrinter.ExecRaw` | core/formatter.c:264-274 | chunk boundaries of raw text do not matter: a chunked write succeeds exactly when the whole does |
| `JsonPrinter.LineFits` | core/formatter.c:227-238 | every line leaves room for its NUL |
| `JsonPrinter.ExecFull` | core/formatter.c:144-274 | with enough room nothing is cut |
| `JsonPrinter.FullFields` | core/formatter_json.c:30-67 | uncut, the program of an object prints its members and what follows them |
| `JsonCut.KeyIsComplete` | core/formatter_json.c:38-40 | a line that is returned has a complete key where the key holds no control bytes: after a cut key the closer does not fit and the line is dropped |
| `JsonCut.Starves` | core/formatter.c:149-153 | after a silently dropped last byte no further member fits |
| `JsonCut.CutFields` | core/formatter_json.c:82-180 | for every buffer size a line holds the first members, only the last of them cut and only in front of a control byte without a short escape, followed by the closer or by what comes behind the members |
| `JsonDocument.LineParses` | core/formatter_json.c:82-180 | for every buffer size a returned line parses to a cut of the document, flat or with its nested object |
| `JsonDocument.RoomyLineIsWhole` | core/formatter_json.c:82-180 | a buffer larger than the text gets the whole text, and parsing it gives every member back |
| `JsonBadKey.MalformedLine` | core/formatter_json.c:38-40 | for every document with an early control byte in a dynamic key some buffer size yields a line that does not parse |
| `JsonBadKey.WellFormedIff` | core/formatter_json.c:30-67 | lines of all buffer sizes parse if and only if no dynamic key has such a byte and every number is finite |
| `JsonReading.JsonDocTells` | core/formatter_json.c:82-180 | looking keys up in the members gives the record: timestamp, literal level name, every string or the empty string for NULL, every number, identifiers in lower-case digits, and the attributes with a key last, in order, with the value of their kind |
| `JsonReading.OtelDocTells` | core/formatter_otel.c:132-236 | the same for the OTel members, with the literal severity numbers and the nested attributes |
| `JsonCursor.Cursor.AppendStr` | core/formatter.c:264-274 | all of the text and a NUL, or nothing |
| `JsonCursor.Cursor.AppendEscaped` | core/formatter.c:144-218 | the escape of the longest prefix that fits is appended, and the result is true exactly for complete strings and those that lack only a last byte |
| `JsonCursor.Cursor.CloseObject` | core/formatter.c:227-238 | the closer and a NUL and the line length, or -1 when it does not fit |
| `JsonFormat.HexOfId` | core/formatter.c:242-262 | two lower-case digits per byte |
| `SpanContext.AllZero` | core/formatter.c:311-320 | true exactly for identifiers of zero bytes |
| `JsonChunks.JsonChunksPrint` | core/formatter_json.c:97-177 | the sequence of literals and fields that `format_json_ex` appends is the text of its members, for plain time text |
| `JsonChunks.OtelChunksPrint` | core/formatter_otel.c:144-233 | the same for `format_otel_json` with its nested attributes, for plain time text |
| `JsonFormat.KvPart` | core/formatter_json.c:30-67 | one typed attribute is appended as the program of that member prescribes, or the line ends with its result |
| `JsonFormat.KvsPart` | core/formatter_json.c:165-173 | the attribute loop prints the members of all attributes that have a key |
| `JsonFormat.FormatJson` | core/formatter_json.c:82-180 | for every record and buffer the program of its line; with a plain time text and finite floats a buffer with room gets a line that parses to members that tell the record; and with keys without control bytes -1 or a NUL-terminated object whose members are a prefix of the record's with only the last string value cut, in front of a control byte |
| `JsonFormat.FormatOtel` | core/formatter_otel.c:132-236 | the same for the OTel rendering with its nested object and the trace context of the environment |
| `JsonFormat.JsonWellFormedIff` | core/formatter_json.c:82-180 | with a plain time text a line of every buffer size is well formed if and only if no attribute key has an early control byte and every floating point attribute is finite |
| `JsonFormat.OtelWellFormedIff` | core/formatter_otel.c:132-236 | the same for the OTel rendering |
| `JsonStamp.TimestampIff` | core/formatter_json.c:97-101 | with finite floating point attributes the whole line carries the timestamp, in either rendering, if and only if the time text is plain |
| `JsonStamp.JsonReadBackIff` | core/formatter_json.c:82-180 | the whole line of any record parses to members that tell the record if and only if the time text is plain and every floating point attribute is finite |
| `JsonStamp.OtelReadBackIff` | core/formatter_otel.c:132-236 | the same for the OTel line |
| `JsonWhole.WholeOrDropped` | core/formatter.c:144-274 | a program whose strings hold no early control byte prints its whole text or nothing, for every buffer size |
| `JsonWhole.CutSomewhere` | core/formatter.c:227-238 | every other program returns a shortened line for some buffer size |
| `JsonWhole.WholeIff` | core/formatter.c:144-274 | lines of all buffer sizes are all or nothing if and only if the program is solid: no control byte without a short escape in a string, except as a last byte with six bytes of text behind it |
| `JsonWhole.TameDocIsWhole` | core/formatter_json.c:82-180 | a flat or nested document without such bytes in keys and strings is printed whole when it fits with a NUL, and dropped otherwise |
| `JsonWhole.RecordIsWholeIff` | core/formatter_otel.c:132-236 | for every record and any time text both renderings are all or nothing if and only if their programs are solid, and they are for records without such bytes |
| `FormatProgram.SubstSegment` | core/formatter_fmt.c:97-151 | one segment of the compiler is one step of direct substitution, a run of characters or a token |
| `FormatProgram.CoveredIff` | core/formatter_fmt.c:97-99 | n instructions cover the format exactly when it has no more than n segments |
| `FormatProgram.ProgramIsSubst` | core/formatter_fmt.c:97-153 | running the compiled program prints the direct substitution of the segments it covers, of the whole format if and only if they fit |
| `FormatTokens.MatchIsUnique` | core/formatter_fmt.c:72-83 | at most one token matches at a position, so the order of the tests does not matter |
| `FormatTokens.LexedTokens` | core/formatter_fmt.c:72-83 | a lexed format knows a token at a position exactly when its name stands there without a letter behind it |
| `FormatTokens.FindToken` | core/formatter_fmt.c:115-150 | the chain of tests finds that token |
| `FormatCache.Compile` | core/formatter_fmt.c:97-153 | the instruction array is the program of the format, of at most 63 instructions |
| `FormatCache.IdealIff` | core/formatter_fmt.c:97-99 | the ideal rendering substitutes the whole format for at most 1023 bytes and 63 segments |
| `FormatCache.Output.AppendToken` | core/formatter_fmt.c:52-64 | the buffer holds what fits of everything appended |
| `FormatCache.AppendKvs` | core/formatter_fmt.c:297-337 | the attributes are appended as ` key=value` |
| `FormatCache.Cache.Lookup` | core/formatter_fmt.c:184-187 | the cached program is always that of the cached format, which is the requested one cut to 1023 bytes |
| `FormatCache.Cache.Render` | core/formatter_fmt.c:184-341 | whatever was rendered before, the buffer gets the first bytes of the ideal rendering and a NUL |
| `FormatCache.Cache.Format` | core/formatter_fmt.c:170-341 | the mode keywords go to the JSON renderers and leave the cache alone, every other format is rendered |
| `FormatCache.RenderTwice` | core/formatter_fmt.c:26-44 | a cache with any history renders like a fresh one |
| `FormatMeaning.TokenPrints` | core/formatter_fmt.c:115-150 | each of the thirteen tokens, by its literal name, prints its part of the record, or the literal text for a missing one |
| `FormatMeaning.AttributePrints` | core/formatter_fmt.c:297-337 | one more attribute adds a blank, its key, an equals sign and the value of its kind, and nothing without a key |
| `FormatMeaning.PartsPrint` | core/formatter_fmt.c:72-83 | a format in two parts, of which the second does not continue a name, prints what the parts print |
| `FormatMeaning.NoTokensPrint` | core/formatter_fmt.c:97-151 | a format without tokens prints itself, also its percent signs |
| `FormatMeaning.LongPrints` | core/formatter_fmt.c:184-187 | a format of 1024 bytes or more prints like its first 1023 |
| `ReplaceAll.ReplaceClears` | core/log.c:1331-1335 | masking a pattern removes it and brings no other pattern back when masks share no character with patterns |
| `ReplaceAll.ReplacedIs` | core/log.c:1337-1374 | a rule without pattern or mask and a text without the pattern change nothing; otherwise the text before the leftmost occurrence, the mask, and the replacement of the rest |
| `Redaction.InPlaceIsPrefix` | core/log.c:1337-1374 | the in-place loop ends with the full replacement, or with a prefix of it when that does not fit |
| `Redaction.ApplyInPlace` | core/log.c:1337-1374 | one rule rewrites the buffer to the leftmost non-overlapping replacement, cut only when it does not fit, and never before the first mask |
| `Redaction.ApplyAllInPlace` | core/log.c:1337-1374 | the rules are applied in order, each to the result of the one before |
| `RedactionCopies.ExpandLen` | core/log.c:1434-1452 | the predicted length is the length of the replacement, and the count is zero exactly when nothing matches |
| `RedactionCopies.ExpandCopy` | core/log.c:1456-1479 | the copy is the replacement |
| `RedactionCopies.ApplyOne` | core/log.c:1486-1510 | one rule on the stack or on the heap, or nothing when nothing matched or the allocation failed |
| `RedactionCopies.ApplyAll` | core/log.c:1518-1552 | the ping-pong redactor computes the fold over the rules, never reads the buffer it writes and leaves at most one live block |
| `RedactionCopies.ApplyAllHeap` | core/log.c:1557-1589 | the heap redactor computes the fold and leaves at most one live block |
| `RedactionCopies.FoldIsRedactAll` | core/log.c:1486-1589 | without allocation failures both equal the fold of complete replacement |
| `RedactionCopies.TraceIsRedactAll` | core/log.c:1337-1374 | so does the in-place redactor when every intermediate text fits |
| `RedactionCopies.NothingLeaks` | core/log.c:1337-1374 | with fresh masks and rules whose pattern and mask are not empty, no pattern of an applied rule occurs in the buffer, cut or not |
| `RedactionCopies.RedactAllLeaksNothing` | core/log.c:1456-1589 | the same for the ping-pong and the heap redactor |
| `RedactionCopies.FoldLeaksNothing` | core/log.c:1518-1589 | when allocations fail, the pattern of every rule whose own allocation succeeds is still gone |
| `ModuleSeqlock.StepKeepsInv` | core/log.c:1595-1609 | every step of any number of readers and writers keeps the invariant of the seqlock |
| `ModuleSeqlock.ReadIsOneValue` | core/log.c:211-224 | a finished read holds all bytes of the one content that was current from its first to its last look at the generation, never a mixture |
| `ModuleSeqlock.QuietMeansUnchanged` | core/log.c:1595-1609 | the generation never goes back, and the bytes do not change while it is even and stays |
| `ModuleSeqlock.NamesWereSet` | core/log.c:1595-1609 | in every run each stored name is that of a call: "main" for an empty name, otherwise its first 63 bytes |
| `ModuleSeqlock.SetModuleStores` | core/log.c:1595-1609 | a call on its own, with the mutex free, leaves that text and a NUL |
| `ModuleSeqlock.SetIsRead` | core/log.c:211-224 | a read that follows returns it |
| `ModuleSeqlock.ReadIsCurrent` | core/log.c:211-224 | in every run a read whose generation is still current holds the current bytes |
| `ModuleSeqlock.CanAlwaysReturn` | core/log.c:1595-1609 | from every reachable state all readers and writers can finish, and then the array holds the last name |
| `SpanContext.JoinExported` | core/log.c:1125-1206 | joining an exported header opens a span with the same trace id and flags and a non-zero span id |
| `SpanContext.JoinedIsExported` | core/log.c:1125-1206 | the header of a joined context repeats the trace id and flags of the text in lower case, and its trace id, without which nothing is exported, is zero if and only if the text has only zeros there; where the text or the depth allows no join nothing changes |
| `SpanContext.CaseDoesNotMatter` | core/log.c:1163-1206 | headers that differ only in the case of hexadecimal letters are accepted alike and join the same context |
| `SpanContext.SetIsCurrent` | core/log.c:967-980 | an explicit context with no span open is exported as 00-trace-span-00, and a span started there has its trace id |
| `SpanContext.OpenPushes` | core/log.c:1081-1110 | opening a span fails without a change or pushes one span with a non-zero id |
| `SpanContext.StartInherits` | core/log.c:1081-1110 | a started span continues the trace of the innermost span or of the explicit context, with its flags, or begins a non-zero one; random bytes that are not zero become its span id |
| `SpanContext.StartsShareTrace` | core/log.c:1081-1110 | spans started inside a span carry its trace id and flags at any depth |
| `SpanContext.RunRestores` | core/log.c:1081-1206 | every well-nested run of starts, joins and ends restores the context it began with, also where openings fail |
| `SpanStack.Stack.CurrentIds` | core/log.c:967-980 | the top span, else the base context, else zeros |
| `SpanStack.Stack.SpanStart` | core/log.c:1081-1110 | the array and depth change as the value model prescribes |
| `SpanStack.Stack.SpanEnd` | core/log.c:1112-1123 | only the token of the innermost span is accepted and pops it; any other changes nothing |
| `SpanStack.Stack.SpanExport` | core/log.c:1125-1161 | the buffer gets the 55 characters and NUL of the header if and only if it has 56 bytes and the trace id is not zero, and is left untouched otherwise |
| `SpanStack.Stack.SpanJoin` | core/log.c:1163-1206 | the text is accepted exactly when it is well formed, and the decoded frame is pushed |
| `SpanStack.Stack.JoinAndExport` | core/log.c:1125-1206 | a joined header is exported again, with trace id and flags in lower case, if and only if the buffer has 56 bytes and the trace id is not written with zeros only |
| `SpanStack.Stack.SetAndExport` | core/log.c:1125-1161 | setting a context on an empty stack and exporting writes 00-trace-span-00 and NUL if and only if the trace id is not zero and the buffer has 56 bytes |
| `TraceEnv.HexDecode` | core/formatter_otel.c:47-58 | succeeds exactly on hexadecimal digits and then stores the bytes they denote |
| `TraceEnv.ParseTraceParent` | core/formatter_otel.c:64-105 | the arrays change as the value model prescribes, in every branch |
| `TraceEnv.ExportedIsAdopted` | core/formatter_otel.c:64-105 | an exported header in the environment sets exactly the exported identifiers, and an unset variable none |
| `TraceEnv.AcceptedAlikeIff` | core/formatter_otel.c:64-105 | a text that can be joined is read from the environment exactly when its first two characters are no dashes, and gives the same trace id; otherwise it clears the trace id; a text that is read can be joined exactly when its version has two characters and the flags follow |
| `TraceEnv.NeitherIsStricter` | include/log.h:674-686 | every header accepted by both has a variant that can only be joined and one that is only read from the environment |
| `TraceEnv.MalformedClearsIff` | core/formatter_otel.c:60-63 | malformed text clears both identifiers exactly when only the span part is not hexadecimal |
| `TraceEnv.IgnoredIff` | core/formatter_otel.c:64-83 | a text leaves the identifiers of every record alone if and only if less than 32 characters follow its first dash |
| `RateLimit.Limiter.Init` | core/rate_limit.c:87-101 | a full bucket for valid parameters, otherwise a disabled limiter |
| `RateLimit.Limiter.Allow` | core/rate_limit.c:119-157 | one call decides as the value model prescribes |
| `RateLimit.TokensAreConserved` | core/rate_limit.c:132-145 | over any window, tokens spent plus tokens left are at most the tokens at its start plus what the clock brought in |
| `RateLimit.WindowBound` | core/rate_limit.c:119-157 | in any window of any run at most burst + rate times the advance of the clock is allowed |
| `RateLimit.CallsAreCounted` | core/rate_limit.c:141-156 | calls are allowed calls plus the growth of the suppressed total |
| `RateLimit.SuppressedAreReported` | core/rate_limit.c:143-156 | reported counts plus the pending count equal what was suppressed, when every caller takes the count |
| `RateLimit.SlowCallsAreAllowed` | core/rate_limit.c:132-145 | a caller who leaves time for a token before each call is never suppressed |
| `RateLimit.BurstIsAllowed` | core/rate_limit.c:132-145 | calls are all allowed, at whatever times, while they are no more than the tokens at their start |
| `RateLimit.NoTokenIsLost` | core/rate_limit.c:132-145 | while the bucket does not overflow, tokens spent and left are exactly those at the start and the income of the clock |
| `RateLimit.SuppressedIsPoor` | core/rate_limit.c:141-156 | while it does not overflow, a call is suppressed only when less than one token is left of them |
| `RateLimit.AllowedEndsSeries` | core/rate_limit.c:141-156 | an allowed call reports the suppressed ones to a caller who asks, and the next series counts from zero |
| `Rotation.RotatedChain` | core/rotate.c:45-82 | a rotation moves the chain up by one, whatever gaps it has |
| `Rotation.WriteConserves` | sinks/file_sink.c:92-136 | chain and written bytes are, in order, what is dropped and the new chain |
| `Rotation.ChainIsConserved` | sinks/file_sink.c:92-136 | over every run, the first chain and all bytes written are what dropped out of the oldest backup followed by the chain |
| `Rotation.NothingLostEarly` | core/rotate.c:45-82 | nothing is lost until the file was rotated more often than there are backups |
| `Rotation.RunKeepsSized` | sinks/file_sink.c:112-133 | the size counter is the length of the active file, below the maximal size after every write, and every rotated file holds at least the maximal size |
| `Rotation.ChainIsLong` | sinks/file_sink.c:114-133 | the chain holds at least the maximal size for each rotated file it keeps |
| `Rotation.CountMatchesIff` | sinks/file_sink.c:114-133 | a write keeps the counter equal to the file length if and only if there are backups or no limit |
| `FileSink.Rotate` | core/rotate.c:45-82 | the descending loop of renames computes the rotated chain, from any chain |
| `FileSink.Sink.Write` | sinks/file_sink.c:92-136 | append in a loop of partial writes, count, and rotate when the limit is reached |

## Left out

- Weak memory: atomics are sequentially consistent, the compare-and-swap does not fail spuriously and positions are natural numbers.
- Waiting inside `mpsc_queue_wait_empty` and on the semaphore is modelled as testing again; progress is stated as the existence of a run, not under a fairness assumption.
- The fork handler of the async layer, `mpsc_queue_put`, queue destruction and the depth statistic: not on the asynchronous path, or without a contract.
- The dispatcher and the sinks other than the file sink: dispatching is one abstract event.
- The socket ring, transports, TLS, plug-ins, signal handling and the configuration reader: a second copy of the claim scheme, or plumbing.
- Floating point and time text: what `snprintf` and `strftime` print are parameters; the text of a floating point attribute is a number of RFC 8259 or a form of infinity or NaN, as in the C locale.
- Random bytes, clocks, environment variables and allocation success are parameters.
- RateLimit.WindowBound: tokens are real numbers and counters do not wrap, because rounding and 64-bit overflow are not the point of the bound.
- Rotation.ChainIsConserved: I/O failures are not modelled, because after one the counter no longer matches the file.
- JsonFormat.FormatJson: the prefix-of-members statement asks for attribute keys without control bytes that lack a short escape, because it is false otherwise; `JsonWellFormedIff` gives the exact condition for well-formed lines.
- JsonFormat.JsonWellFormedIff: for plain time text, because text with quotes can happen to complete the line to JSON with other members; `JsonStamp.JsonReadBackIff` has the exact condition for every time text.
- JsonFormat.OtelWellFormedIff: for plain time text, as above; `JsonStamp.OtelReadBackIff` has the exact condition for every time text.
- JsonChunks.JsonChunksPrint: for plain time text, because other text is appended without escapes; `JsonStamp.TimestampIff` shows that the condition is exact.
- JsonChunks.OtelChunksPrint: for plain time text, as above.
- PipelineProgress.CanAlwaysDrain: for an open queue, because a closed one can be left by the worker with claims unconsumed; then `StrandedForever` holds.
- PipelineReturns.CanAlwaysFlush: for an open queue, because on a closed one the worker may have left with claims unconsumed, and then no flush returns.
- MDC thread context, the logger registry and level filtering: table look-ups that would only add easy members.
