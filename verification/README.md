# Verification of the hpulogc logging pipeline

hpulogc takes log records from application threads through a byte ring to consumer threads,
which route, format and write them to sinks; a sink may sit behind a second byte queue. This
project models the protocols and codecs of that pipeline in Dafny and proves what users of each
part rely on. `dafny verify dfyconfig.toml` checks all of it.

| files | models |
|---|---|
| `RingLayout`, `MpmcRing`, `MpmcInvariant`, `MpmcTheorems`, `MpmcAccounting`, `MpmcDrops` | the lock-free ring with any number of producers and consumers, discard policy |
| `ConsumerFlush`, `FlushTheorem`, `FlushRun`, `ConsumerDrain` | the consumer threads, the flush handshake and the drain after the exit flag on top of that ring |
| `LogFlush`, `LogDrain`, `OverwriteFlush`, `OverwriteDrain`, `LockedFlush` | handshake and drain over rings that may overwrite their oldest records: the lock-free SPSC ring and the locked ring |
| `SpscRing`, `SpscInvariant`, `SpscTheorems`, `SpscSteals` | the lock-free ring with one producer and one consumer, overwrite policy |
| `LockedLayout`, `LockedQueue`, `LockedRing` | the mutex-protected byte ring with its three overflow policies |
| `SinkRecord`, `SinkQueue`, `SinkAcceptance` | the second-level sink queue and its worker |
| `Fields`, `FieldsCodec`, `FieldFilter` | the structured-field wire format and the per-sink whitelist |
| `FormatTemplate`, `FormatNames` | the template compiler, and how every template reads |
| `FormatLine`, `FormatRender`, `FormatValues`, `FormatFields`, `JsonLine` | the bounded renderer, and its values, field lists and built-in json line read back |
| `JsonText`, `JsonObject`, `HttpBatch` | JSON escaping, independent readers of JSON, and the ndjson batches of the http sink |
| `Calendar`, `FileSink` | calendar arithmetic, UTC bucket boundaries and the rolling file |
| `Routing`, `Registration` | the routing cache across reloads and concurrent registration |
| `Bytes`, `Options` | little-endian integers, packed headers, stores into byte memory |

## How the parts are modelled

The lock-free rings and registration are transition systems with one step per atomic access and
per word copied, under sequential consistency; the theorems range over every run. Positions and
lengths there are counted in 8-byte words, which all of them are multiples of. Parts that run
under a mutex are classes whose methods are one critical section each; a thread that waits on a
condition variable returns and calls again.

The lock-free ring tells a live record from stale bytes by comparing a 64-bit word with the
record's position. A payload word of an older record can hold that value, so the protocol rests on
the hypothesis that a marker test succeeds only on a word last written as a commit word. `NoAlias`
and `Unaliased` state it, every theorem on runs of these rings assumes it, and
`AliasBreaksTheLease` shows a run in which the lease goes wrong without it. The history fields
(`resv`, `k`, `delivered`, `fates`) are written by the steps and read by none of them.

Constants are those of the sources: 56-byte headers, 16 fields, 64-byte keys, 256-byte strings,
65536-byte buffers, a 48 KiB flush threshold, modifiers up to 128.

## Where the code differs from what it says

- The sink queue pads the wrap with four bytes only. When the distance to the boundary is not a
  multiple of four, no record too long for the space in front of it is ever accepted again, in any mix
  of pushes and sweeps, though the queue be empty (`LongerNeverAccepted`; `DrainedQueueRefuses` has a run
  on the smallest queue that can be configured). A shorter record that leaves a multiple of four bytes
  frees the queue (`ShorterRecordFrees`), except from the last three bytes, where nothing fits
  (`WedgedForever`). `EventuallyAccepted` is the exact condition for one event tried again and again.
- The sink worker is documented to drain before it exits; on stop it exits right after a sweep and
  the swept events are neither emitted nor counted (`Turn`).
- A line of exactly `max_line` bytes is cut, although it fits, if and only if the precision of one
  of its values stopped right at the limit (`LimitedMeans`; 128 bytes, `%.128m`, a longer message
  and the limit 256 do it, `ExactFitIsCut`). Shorter lines are exact.
- Padding that would pass the limit is left out, as the comment on `modifier_finish` says; but the rule
  that a line over `max_line` ends with the marker then fails: such a line can come out short and
  unmarked (200 bytes, `%128m`, a message of 10 bytes and the limit 256, `TooLongUnmarked`). It is
  marked if and only if it is still too long without that padding, or has exactly `max_line` bytes and a
  value whose precision stopped there (`LimitedMeans`); so always when it is too long with all widths
  dropped (`TooLongIsMarked`), and the rule holds as it stands when no padding passes the limit
  (`SlimmedWhen`).
- The line of the built-in json format is a JSON object that tells the record if and only if nothing
  in the text of its time needs escaping (that text is written raw), source locations are captured
  (without them the member `line` has no value), every field has a known type and every double prints
  as a number, which `nan` and `inf` are not (`JsonLineReadsBack`).
- A boolean field takes one byte of the region and the renderer reads four. It is printed as its value
  if and only if it is true or the three bytes behind it are zero (`BooleanPrintsItsValue`); a false
  one in front of another entry is printed as `true`, unless that entry is a signed integer with an
  empty key (`FalseBeforeAnEntry`).
- `hpu_output_filter_apply` called with a field count nobody checked can gain an empty field
  (`FilterCommutesWithUnpack` gives the exact condition). Neither caller can show this: both pass the
  count that unpacking returned, and then the filter commutes with unpacking on every region
  (`FilterAsCalled`).
- The wire format comment in `src/format/format.h` leaves out the key bytes and names an error for
  a region too small for the first field; the code writes the key before the value and drops the
  field instead. The model does what the code does.
- The 32-bit configuration generation comes round. A cached route is used for the rules of another
  configuration exactly when its category was last refreshed a positive multiple of 2^32 reloads ago
  and has not been looked up since; a category never refreshed counts from one reload before the
  first configuration (`RouteLookup` for every number of reloads, `LookupAfterWrap` for a run that
  routes a matching record nowhere).

## Model

| member | source | states |
|---|---|---|
| RingLayout.OffIsRemainder | src/ring/ringbuf_lockfree.c:493-494 | the physical word of a position, used by all the ring proofs, is the remainder `pos % capacity` of the code |
| RingLayout.HeaderReadsBack | src/ring/ringbuf_lockfree.c:147-207 | the length and the pad flag read from a stored header are those of the record the producer wrote |
| RingLayout.StartsFit | src/ring/ringbuf_lockfree.c:497-527 | extending a record over a gap smaller than a header leaves every record start at offset 0 or a header before the boundary, so a pad always fits |
| RingLayout.LiveApart | src/ring/ringbuf_lockfree.c:213-224 | two reservations of one window of at most `capacity` words share no physical word |
| RingLayout.StagedCarries | src/ring/ringbuf_lockfree.c:625-634 | a complete staged copy of a record carries its message: length, header words and payload |
| MpmcInvariant.RunKeeps | src/ring/ringbuf_lockfree.c:483-691 | the protocol invariant (tiling, markers, stored words, plans, leases, mutex and waiting counter) holds in every state of every run without an alias |
| MpmcTheorems.DeliversExactlyOnceInOrder | src/ring/ringbuf_lockfree.c:483-691 | for any number of producers and consumers and any interleaving, the records get has returned are exactly the messages reserved below deq, in reservation order, each once, with the words their producers stored; a drained ring has delivered everything reserved |
| MpmcTheorems.ClaimsOnlyPublished | src/ring/ringbuf_lockfree.c:589-602 | a successful lease CAS is on the record at deq, and that record is published |
| MpmcTheorems.LeaseIsExclusive | src/ring/ringbuf_lockfree.c:574-637 | while a consumer works under its lease on d, deq is d, no other consumer holds a lease, and every range a producer writes is physically disjoint from the record |
| MpmcTheorems.AdvanceCannotFail | src/ring/ringbuf_lockfree.c:632-637 | the deq CAS after the copy moves deq to the end of the leased record |
| MpmcTheorems.ReservationsTileTheRing | src/ring/ringbuf_lockfree.c:492-550 | the reservations tile [0, enq), none crosses the boundary, every start leaves room for a header, and enq - deq <= capacity although deq is read stale |
| MpmcTheorems.NoLostWakeup | src/ring/ringbuf_lockfree.c:229-264 | a consumer parked while a message is unconsumed: the producer of the message has yet to run lf_kick, which will find it waiting and wake it |
| MpmcTheorems.HistoryGrows | src/ring/ringbuf_lockfree.c:483-691 | deliveries are never taken back or reordered and reservations never change |
| MpmcAccounting.EveryPutAccounted | src/ring/ringbuf_lockfree.c:483-551 | at every point of every run, the number of puts called equals the reserved messages plus the drops counted plus the puts in progress |
| MpmcDrops.DropsOnlyWhenFull | src/ring/ringbuf_lockfree.c:213-224 | an open ring drops a put only when, from some position up to enq, what a record of the message last put takes there (its length, the extension to the boundary, or the pad) reaches beyond deq + capacity; the record is as long as the message, or longer by the extensions carried over from lost races |
| MpmcDrops.NoDropWithRoom | src/ring/ringbuf_lockfree.c:529-535 | a put that lost no race is never dropped by an open ring with room for the message and two headers behind enq |
| MpmcDrops.ClosedRefuses | src/ring/ringbuf_lockfree.c:487-490 | once the ring is closed and no put is past its test of the flag, nothing enters any more |
| MpmcAccounting.ReservesTheMessagePut | src/ring/ringbuf_lockfree.c:530-549 | a message record that enters the ring holds the message its producer was last called with, although `total` is carried across lost races |
| MpmcAccounting.AliasBreaksTheLease | src/ring/ringbuf_lockfree.c:584-602 | without the hypothesis that a marker test only succeeds on a commit word, a reachable state has a consumer holding a lease on a record whose producer has written nothing |
| FlushTheorem.FlushCertifiesProcessing | src/core/consumer.c:395-440 | on the lock-free discard ring: when flush has returned 0, every message reserved before its request has been processed, for any number of consumers, in every run without an alias |
| FlushTheorem.RequestMarksReservations | src/core/consumer.c:404 | the request number of a flush marks exactly the reservations made before it |
| FlushTheorem.EmptyRingClears | src/core/consumer.c:139-142 | an acknowledgement given after an empty ring was seen covers everything the consumer had in hand |
| FlushTheorem.RunKeeps | src/core/consumer.c:187-260 | the handshake invariant holds in every state of every run of consumers, flushers and ring together, the drain after the exit flag included (that the drain is complete is ConsumerDrain) |
| ConsumerDrain.StoppedAfterEmptyGet | src/core/consumer.c:242-252 | a consumer thread stops only after a get that it entered since it began leaving found nothing |
| ConsumerDrain.DrainProcessesAll | src/core/consumer.c:242-252 | on the lock-free discard ring, for every run and any number of consumers: when all threads have stopped, and no put was in progress since the first began leaving (other than on a closed ring, which drops it), every message ever reserved has been processed |
| ConsumerFlush.CanStart | src/core/consumer.c:187-212 | such runs exist for every capacity, number of threads and number of producers |
| FlushRun.FlushReturns | src/core/consumer.c:395-440 | there is a run, one ring step at a time, in which a message is put, flush is called, the message is leased, copied and processed, and flush returns |
| LogFlush.FlushCertifies | src/core/consumer.c:395-440 | over any ring whose records leave in order, taken, skipped as pads or overwritten: when flush has returned 0, every message enqueued before its request was processed or overwritten, for any number of consumers |
| LogFlush.CallMarksLog | src/core/consumer.c:404 | the request number of a flush marks exactly what was enqueued before it |
| LogFlush.EmptyLogClears | src/core/consumer.c:139-142 | an acknowledgement given after an empty ring was seen covers everything the thread had in hand |
| LogFlush.FlushReturns | src/core/consumer.c:395-440 | there is a run in which a message is put, flush is called, the message is processed and flush returns |
| LogDrain.StoppedAfterEmptyGet | src/core/consumer.c:242-252 | a thread is stopped only after a get that it entered since it began leaving found nothing, over any ring whose records leave in order |
| LogDrain.DrainProcessesAll | src/core/consumer.c:242-252 | when all threads have stopped, and since the first began leaving nothing was enqueued and no get gave up early, every message ever enqueued was processed or overwritten |
| OverwriteDrain.DrainProcessesOrSteals | src/core/consumer.c:242-252 | on the SPSC overwrite ring: when the thread has stopped, and no put that could still enter was under way since it began leaving, every message ever reserved was processed or stolen |
| LockedFlush.DrainProcessesAllLocked | src/core/consumer.c:242-252 | on the locked ring: when all threads have stopped and nothing entered since the first began leaving, the ring is empty and every message was processed or overwritten |
| OverwriteFlush.FlushCertifiesProcessedOrStolen | src/core/consumer.c:395-440 | on the SPSC overwrite ring: when flush has returned 0, every message put before its request was processed, or stolen and so counted as overwritten |
| OverwriteFlush.RingMoves | src/ring/ringbuf_lockfree.c:309-362 | every step of that ring appends one record to its history, or lets the front one leave, or neither; a record is taken exactly when get ends with it |
| OverwriteFlush.PositionsCount | src/ring/ringbuf_lockfree.c:704-710 | the positions hpu_ring_used compares are equal exactly when as many records have left as there were |
| LockedFlush.FlushCertifiesLocked | src/core/consumer.c:395-440 | on joint runs of the locked ring (each put and get doing to its records what the method's contract says) and the threads, under any policy and for any number of consumers: when flush has returned 0, every message enqueued before its request was processed or overwritten |
| LockedFlush.PutIsEnqueue | src/ring/ringbuf_locked.c:233-307 | in such a run every put the contract allows can happen, and is one event on the history: overwritten records leave as lost, pads and the message enter |
| LockedFlush.GetIsDequeue | src/ring/ringbuf_locked.c:309-382 | and every get: pads leave and the thread has the message behind them in hand, or finds none |
| LockedFlush.UsedIsLog | src/ring/ringbuf_locked.c:400-408 | the locked ring reports no bytes in use exactly when everything has left |
| SpscInvariant.RunKeeps | src/ring/ringbuf_lockfree.c:309-362 | the invariant of the stealing producer and the copying consumer holds in every state of every run without an alias |
| SpscTheorems.PassedOnceDeliveredOrOverwritten | src/ring/ringbuf_lockfree.c:309-362 | every message deq has passed was either delivered once, with the words its producer stored, or counted in overwritten once; never both, never neither |
| SpscSteals.StealsOnlyWhenFull | src/ring/ringbuf_lockfree.c:309-343 | whenever the producer steals a record, what the message last put takes at enq (its length, the extension to the boundary, or the pad) reaches beyond deq + capacity: nothing is stolen while the new record fits |
| SpscSteals.NothingStolenWithRoom | src/ring/ringbuf_lockfree.c:320-324 | with room for the message and two headers behind enq nothing is stolen |
| SpscSteals.ClosedRefuses | src/ring/ringbuf_lockfree.c:487-490 | once the ring is closed and no put is past its test of the flag, nothing enters any more |
| SpscTheorems.DeliveredPlusOverwritten | src/ring/ringbuf_lockfree.c:332-339 | delivered plus overwritten is the number of messages deq has passed, whenever the producer is not between its CAS and the counter |
| SpscTheorems.OverwriteDropsOnlyWhenClosed | src/ring/ringbuf_lockfree.c:529-536 | under overwrite a put is only dropped on a closed ring |
| SpscTheorems.TornCopiesNeverReturn | src/ring/ringbuf_lockfree.c:657-675 | a get returns only when deq still stood where it started, and then its copy is the untorn record; otherwise it retries and nothing changes |
| SpscTheorems.CopyReaches | src/ring/ringbuf_lockfree.c:639-662 | a torn length can make the copy read past the end of the buffer, by fewer bytes than the capacity, and only when the record is already stolen and the copy will be thrown away; while deq has not moved the copy stays inside |
| SpscTheorems.WindowFits | src/ring/ringbuf_lockfree.c:309-343 | the occupied window stays within the capacity although the producer itself moves deq |
| LockedLayout.ParseReadsMessage | src/ring/ringbuf_locked.c:340-362 | parsing a stored record gives every string byte for byte and the field region as a prefix of what is returned |
| LockedQueue.HeaderIs | src/ring/ringbuf_locked.c:145 | the header read at a record start is the one written there |
| LockedQueue.Append | src/ring/ringbuf_locked.c:87-134 | writing a record at tail appends it and leaves every unread record byte for byte as it was |
| LockedQueue.Oldest | src/ring/ringbuf_locked.c:280-290 | what the loops read at head is the oldest record: its length and whether it is a pad |
| LockedQueue.ExtensionIsFree | src/ring/ringbuf_locked.c:263-275 | although only `need` is tested, a record extended to the boundary still fits, because head is never within a header of the boundary |
| LockedQueue.DrainedAccepts | src/ring/ringbuf_locked.c:294-298 | a drained ring accepts every record of at most half the capacity |
| LockedRing.Ring.constructor | src/ring/ringbuf_locked.c:179-209 | a new ring is an empty queue with the capacity rounded up to 8 |
| LockedRing.Ring.AppendRecord | src/ring/ringbuf_locked.c:87-117 | header and parts are stored at tail and the queue of records grows by exactly that record |
| LockedRing.Ring.AppendPad | src/ring/ringbuf_locked.c:123-134 | a pad from tail to the boundary is stored |
| LockedRing.Ring.RemoveOldest | src/ring/ringbuf_locked.c:280-290 | exactly a prefix of the records is removed, its messages are counted as overwritten, and the last one removed could not have stayed |
| LockedRing.Ring.Put | src/ring/ringbuf_locked.c:233-307 | the message is appended to the queue or the queue is unchanged and dropped counts it; the exact condition for acceptance under discard and wait; overwrite on an open ring always stores, after removing only the front prefix that had to go; a drained ring always stores; at most one pad, and exactly where tail is left: behind a pad when the record does not fit in front of the boundary, at the boundary when no header would fit behind the record; the loop terminates by a measure over pads and free space |
| LockedRing.Ring.Get | src/ring/ringbuf_locked.c:309-382 | get returns the front message with its strings and header values exact and its field region as a prefix, and removes it; EMPTY exactly when the queue is empty, with all pads gone |
| SinkRecord.PackedKeeps | src/output/sink_queue.c:121-122 | packing keeps an event exactly when its source line is between 0 and 65535; it keeps the low 16 bits of another line number, 0 for a negative one, and everything else |
| SinkRecord.DecodePacked | src/output/sink_queue.c:184-244 | decoding a packed event gives it back, whatever bytes follow |
| SinkQueue.LinearAppend | src/output/sink_queue.c:265-285 | bytes stored at tail extend the linearised span of the queue at its end, across the wrap |
| SinkQueue.Queue.Push | src/output/sink_queue.c:59-158 | a push is accepted exactly when there are need + 4 bytes in front of the boundary and need free, or exactly one bridge pad in front of it and need + 4 free; where tail is left in either case |
| SinkQueue.Queue.Collect | src/output/sink_queue.c:261-287 | the two-part copy of the sweep is the queued byte stream and empties the queue |
| SinkQueue.DecodeSweep | src/output/sink_queue.c:294-360 | the decode loops return every queued event in order, across pads, in batches of batch_max, the last one perhaps smaller |
| SinkQueue.Queue.Turn | src/output/sink_queue.c:250-366 | everything ever accepted is what was emitted followed by what is queued, over every run before stop; after stop the sweep is lost undecoded |
| SinkAcceptance.EventuallyAccepted | src/output/sink_queue.c:78-104 | a drained queue accepts an event after some number of attempts if and only if it fits in front of the boundary, or the boundary is a multiple of 4 bytes away and the record leaves 4 bytes of the ring |
| SinkAcceptance.WedgedForever | src/output/sink_queue.c:78-104 | with 1 to 3 bytes in front of the boundary no push of any size is ever accepted again, in any run of pushes and sweeps |
| SinkAcceptance.LongerNeverAccepted | src/output/sink_queue.c:78-104 | with a boundary not a multiple of 4 bytes away, no record too long for the space in front of it is accepted in any mix of pushes and sweeps |
| SinkAcceptance.ShorterRecordFrees | src/output/sink_queue.c:78-104 | a record that fits there and leaves a multiple of 4 bytes makes the queue accept longer ones again |
| SinkAcceptance.DrainedQueueRefuses | src/output/sink_queue.c:78-104 | a queue of 65536 bytes, the least that can be configured: after one record and a sweep it is empty and refuses everything of 60 bytes or more for ever, though a record of 59 bytes would free it |
| Fields.SpansReadBack | src/format/format.c:963-999 | the entries of a field region read back, whatever bytes follow it |
| Fields.FirstSpanIsThere | src/format/format.c:972-982 | what a reader takes for an entry is a verbatim part of the region |
| FieldsCodec.Serialize | src/format/format.c:838-932 | exactly the kept fields are encoded; count + dropped = fields + strings cut; the region is padded to 8 bytes or to the capacity |
| FieldsCodec.Unpack | src/format/format.c:963-999 | unpacking returns the entries found, up to the count and the maximum |
| FieldsCodec.UnpackSerialized | src/format/format.c:838-999 | unpacking a serialized region with arbitrary trailing bytes yields exactly the kept fields in order, strings cut to 256 bytes |
| FieldsCodec.KeepFits | src/format/format.c:860-911 | what is kept fits the budget, the 16 fields and the key and string limits |
| FieldsCodec.NothingDroppedWhenItFits | src/format/format.c:860-911 | fields with a key of at most 64 bytes, a known type and strings of at most 256 bytes, no more than the slots and within the budget, are all kept unchanged and nothing is counted as dropped |
| FieldsCodec.KeepIsLongest | src/format/format.c:860-911 | serializing keeps the usable fields in order, strings cut to 256 bytes, and counts the cut ones, up to the end, the last slot, or the first usable field that does not fit behind those kept |
| FieldFilter.KeyMatch | src/output/output.c:526-538 | the whitelist test is membership, for keys below 256 bytes |
| FieldFilter.KeptOneByOne | src/output/output.c:526-538 | the filtered fields are those whose key is on the list, in order |
| FieldFilter.Measure | src/output/output.c:562-583 | pass 1 counts the removed entries and the length of the kept ones |
| FieldFilter.Rebuild | src/output/output.c:600-622 | pass 2 leaves the kept entries verbatim, padded to 8 bytes |
| FieldFilter.Apply | src/output/output.c:540-635 | removed, the new region and the re-unpacked fields; an untouched view when nothing is removed |
| FieldFilter.FilterAsCalled | src/output/output.c:540-635 | for every region and every claimed count, with the count its callers pass (what unpacking returned): filtering and then unpacking is unpacking and then filtering, removed is the difference, and filtering again changes nothing |
| FieldFilter.FilterCommutesWithUnpack | src/output/output.c:540-635 | for the function alone and any count: the two orders agree if and only if the region holds as many fields as the count says or the padding is shorter than 6 bytes |
| FieldFilter.FilterIsIdempotent | src/output/output.c:540-635 | on a complete region removed is the difference and a second filtering removes nothing |
| FieldFilter.CorruptRegionGainsAField | src/output/output.c:609-631 | the function alone, given a count larger than the fields held (which neither caller can pass), can gain an empty field |
| FormatTemplate.ParseModifier | src/format/format.c:149-178 | the modifier parser returns flag, width and precision and reports values over the limit |
| FormatTemplate.Scan | src/format/format.c:319-378 | the compiled literals and actions mean exactly the bytes and values read directly from the template, `%%` kept as two bytes; an illegal placeholder anywhere is the only failure (what each placeholder is: FormatNames) |
| FormatNames.LongNameReads | src/format/format.c:97-123 | behind `%` and a modifier, each of the ten long names, whatever follows it, reads as its value, with that flag, width and precision, and then the rest; with a modifier over 128 or on `%n` it is illegal |
| FormatNames.LetterReads | src/format/format.c:75-90 | where no long name stands, each of the ten letters reads likewise; `%v` takes no modifier |
| FormatNames.NoNameReads | src/format/format.c:319-341 | anything else behind `%` is illegal, but `%%`, which stands for its two bytes |
| FormatNames.ByteReads | src/format/format.c:319-379 | any other byte stands for itself |
| FormatNames.EveryPlaceholderSplits | src/format/format.c:149-178 | these are all the cases: every text behind `%` is a modifier, perhaps empty, and a tail in front of which the modifier ends |
| FormatTemplate.InsertedAt | src/format/format.c:236-244 | the field list goes in front of a literal brace behind which there is no other |
| FormatTemplate.SpliceInserts | src/format/format.c:245-302 | splitting the last literal with a brace puts the field list in front of the last literal brace and changes nothing else |
| FormatTemplate.Splice | src/format/format.c:245-302 | the splice finds that brace, or leaves the actions alone when there is none |
| FormatTemplate.Compile | src/format/format.c:304-390 | compilation preserves the meaning of the template, with the field list inserted for json; it is refused exactly for an illegal placeholder, or for a json template with more than 256 literal bytes from its last brace on (what reading means: FormatNames) |
| FormatTemplate.TailIs | src/format/format.c:257-264 | the length the splice tests is that of the template's own text from its last brace to the next placeholder |
| FormatLine.NumberReadsBack | src/format/format.c:459-472 | a number printed in decimal or hexadecimal reads back |
| FormatLine.NumbersPrintTheirValue | src/format/format.c:746-761 | a signed or unsigned 64-bit field is printed as its value, whatever follows it |
| FormatLine.BooleanPrintsItsValue | src/format/format.c:770-779 | a boolean field is printed as its value if and only if it is true or the three bytes behind it are zero |
| FormatLine.FalseBeforeAnEntry | src/format/format.c:770-779 | a false boolean in front of another entry is printed as true, unless that entry has an empty key and is a signed integer |
| FormatLine.VisiblesAreSafe | src/format/format.c:478-494 | injection escaping leaves no line break and no ESC, and other text unchanged |
| FormatValues.ContentShows | src/format/format.c:1063-1140 | what every value shows, read back: the level as its word, pid, tid and line as numbers in their style (decimal in json), file, func, category and message as themselves or as JSON strings, the message with line breaks and ESC made visible under injection escaping, and nothing for what is absent or switched off |
| FormatValues.VisiblesMadeVisible | src/format/format.c:478-494 | injection escaping shows a line break as `\n` and ESC as `\x1b` and any other byte as itself |
| FormatFields.JsonListReadsBack | src/format/format.c:802-836 | the json field list is `,"fields":` and an object (RFC 8259, section 4), whatever follows it, whose members are the entries of the region in order with their keys and their string, integer, boolean and double values, if and only if every entry has a known type and every double prints as a number |
| FormatFields.FieldsComeBack | src/format/format.c:719-836 | for a region written from the caller's fields the members are those fields: integers as their value, strings as themselves, true as true |
| FormatFields.TextListReadsBack | src/format/format.c:719-836 | the text form `k=v k=v` reads back word by word as the entries of the region in order if and only if no key or value has a space in it and no key a `=` |
| JsonLine.JsonLineReadsBack | src/format/format.c:29-38 | the line of the built-in json template, for every record and environment, is a JSON object with time, level, category, pid, tid, file, line, msg and the fields, each with the record's value, if and only if nothing in the time needs escaping, source locations are captured, every field has a known type and every double prints as a number |
| JsonLine.SelfReading | src/format/format.c:612-705 | a time text that is not escaped reads as itself only if nothing in it needs escaping |
| FormatLine.FitShape | src/format/format.c:1002-1014 | width is a minimum and precision a maximum; the front of the content stands next to spaces, on the side the flag asks for |
| FormatLine.TruncatedFits | src/format/format.c:1159-1177 | a truncated line fits the limit, keeps the first bytes and ends with the marker and the newline, or is the newline alone when both do not fit |
| FormatLine.SlimmedIsSame | src/format/format.c:1026-1039 | no padding is left out of a line that fits, or of one without modifiers |
| FormatLine.SlimmedWhen | src/format/format.c:1026-1039 | no padding is left out exactly when none of the ideal line passes the limit |
| FormatLine.LimitedMeans | src/format/format.c:1016-1177 | what the limit does to any line: shorter ones are exact; one of exactly max_line bytes is cut if and only if the precision of a value stopped at the limit; a longer one loses the padding that passes the limit and is then cut if and only if it is still too long, or has exactly max_line bytes and such a value; without modifiers, or when no padding passes the limit, the truncation rule holds as it stands |
| FormatLine.TooLongIsMarked | src/format/format.c:1159-1177 | a line too long even with every width dropped is cut and marked |
| FormatLine.SpliceIsNeutral | src/format/format.c:236-244 | for a record without fields the spliced json line is the same |
| FormatLine.SpliceInsertsFields | src/format/format.c:236-244 | for a record with fields the member stands in front of a brace of the line and the rest is the same |
| FormatRender.LineBuffer.Append | src/format/format.c:423-433 | appending under the limit writes the clipped bytes and reports clipping |
| FormatRender.LineBuffer.AppendEscaped | src/format/format.c:499-526 | json escaping under the limit is the clipped escaped string |
| FormatRender.LineBuffer.AppendVisible | src/format/format.c:478-494 | injection escaping under the limit is the clipped escaped string |
| FormatRender.LineBuffer.AppendFields | src/format/format.c:802-836 | the field list under the limit, json or text, up to the first corrupt entry (how it reads back: FormatFields) |
| FormatRender.LineBuffer.Finish | src/format/format.c:1016-1040 | precision rewinds, width pads on either side unless the limit forbids it |
| FormatRender.DrawsValue | src/format/format.c:1016-1040 | although more of a value may be written first, what is left of it is its cut and padded text, clipped, and the truncation flag tells exactly whether it was clipped or its precision stopped at the limit |
| FormatRender.Render | src/format/format.c:1042-1182 | for every format, record and limit the output is the line read from the format under its limit, which LimitedMeans spells out for lines shorter than, equal to and longer than max_line |
| FormatRender.CompileAndRender | src/format/format.c:304-1182 | compiling and rendering a template, with or without fields, yields the directly interpreted line (with the field list in front of the last brace for json) under the limit |
| FormatRender.MeantLine | src/format/format.c:236-244 | that line is the one read directly from the template for text, and for json records without fields |
| FormatRender.TooLongUnmarked | src/format/format.c:1026-1039 | a template and records whose line is too long and comes out short and without the marker |
| FormatRender.ExactFitIsCut | src/format/format.c:1016-1022 | a template and records whose line has exactly max_line bytes and is cut all the same, for every limit from 128 on |
| JsonText.StringReads | src/format/format.c:499-526 | an escaped string followed by a quote reads back as the string (RFC 8259, section 7) |
| JsonText.BodyReadsBack | src/output/sink_http.c:766-784 | the body of a POST is a JSON array of strings equal to its lines in order (RFC 8259, sections 5 and 7) |
| HttpBatch.Sink.ElementLen | src/output/sink_http.c:462-490 | the precomputed length is the number of bytes the element adds, comma included |
| HttpBatch.Sink.EscapeAppend | src/output/sink_http.c:498-550 | the escaped line is appended to the body |
| HttpBatch.Sink.Append | src/output/sink_http.c:894-902 | one more line in the body, within the budget, equal to the JSON elements of all pending lines |
| HttpBatch.Sink.FlushPost | src/output/sink_http.c:766-810 | one POST with the pending lines; it fits the buffer and parses to them; done loses its events unless it is answered 2xx; a connection that cannot be reused fails the next POST |
| HttpBatch.Sink.EmitBatch | src/output/sink_http.c:854-914 | the result is the number of events in POSTs answered 2xx, -1 for none after a failure, 0 when not connected; the lines posted are the batch in order without the oversized ones, and which these are is settled by the lines alone: the element is counted with a comma once a line has been taken; a POST is followed by another only when the first line of the next did not fit behind its own |
| Calendar.DateRoundTrip | src/output/rotate.c:32-67 | civil_from_days inverts days_from_civil on every valid date |
| Calendar.DayRoundTrip | src/output/rotate.c:32-67 | days_from_civil inverts civil_from_days on every day number, which yields a valid date |
| Calendar.NextDayIsNextNumber | src/output/rotate.c:32-45 | 1970-01-01 is day 0 and the next calendar date is the next day number |
| Calendar.StartsMeans | src/output/rotate.c:69-106 | buckets start at full hours, midnights, midnights of whole weeks after Monday 5 January 1970, and midnights of the first of a month |
| Calendar.NextBoundaryIsLeast | src/output/rotate.c:69-106 | for every ts >= 0 the UTC boundary is the least hour, day, Monday or month start strictly after ts |
| FileSink.Sink.constructor | src/output/output_file.c:280-308 | the sink starts with what the file held and the boundary of the current bucket |
| FileSink.Sink.Flush | src/output/output_file.c:103-135 | the pending bytes go to the active file |
| FileSink.Sink.Rotate | src/output/rotate.c:418-468 | the active file becomes an archive and an empty one starts, with the next boundary |
| FileSink.Sink.Commit | src/output/output_file.c:400-431 | file and buffer together gain exactly the line; how much waits in the buffer: nothing for a line larger than it, from 48 KiB on, or when each entry is synced, and otherwise the line behind what was there, or alone if it did not fit behind |
| FileSink.Sink.Emit | src/output/output_file.c:319-431 | the line is emitted; the file is rotated exactly when size or time ask for it, with the pending bytes in the old file; the new line stands behind the file's and the buffer's bytes, and what waits in the buffer is what Commit says |
| FileSink.NothingLostNothingSplit | src/output/output_file.c:319-431 | archives, active file and pending buffer are all emitted lines in order, none split, behind what the file held |
| FileSink.RotatedSizes | src/output/output_file.c:331-335 | a file rotated for its size holds at least max_size and less than max_size plus its last line |
| FileSink.FilesStayInOneBucket | src/output/output_file.c:336-357 | with timestamps that never go back, the first not before some instant of the bucket the sink started in, all lines of a file have the same next boundary |
| Routing.SelectorMeaning | src/core/pipeline.c:26-49 | a selector matches everything, one name and its descendants, or one name |
| Routing.ScanMeans | src/core/pipeline.c:297-312 | the scan finds the first rule whose levels (all but one when negated, a range otherwise) include the record's and whose selector selects its category, or none |
| Routing.Router.Find | src/core/registry.c:50-67 | the slot of the name, or none when it is not registered |
| Routing.Router.Lookup | src/core/registry.c:69-135 | a name is registered once, by one more slot, unless it is too long or the table is full; -1 exactly for a name that is not registered; other slots stay |
| Routing.Router.RefreshRoute | src/core/registry.c:137-164 | after a refresh the cache holds the first-match rule of every level, and none for OFF, unless the counter has come round to the slot's stamp; then nothing happens |
| Routing.Router.RouteLookup | src/core/pipeline.c:277-316 | for every number of reloads: through the cache the result is the first-match scan of the current rules, unless the slot was last refreshed a positive multiple of 2^32 reloads ago; then it is the scan of the rules of that moment, or -1 for a slot never refreshed |
| Routing.Router.Reload | src/core/hotreload.c:155-182 | the swap installs the new rules and makes every cached route stale |
| Routing.NotWrappedYet | src/core/registry.c:140-142 | with fewer than 2^32 - 1 reloads no slot is in that state |
| Routing.LookupAfterWrap | src/core/registry.c:106-142 | a run, for any rules and any name one of them matches: registered, reloaded 2^32 - 1 times, looked up for the first time, and routed nowhere |
| Registration.RegisteredOnce | src/core/registry.c:69-135 | with any number of threads searching without the lock, published names stay pairwise distinct and threads agree on the slot of a name; a lookup that found none had a name that is too long or met a full table, and is not registered |
| Registration.SlotsAreStable | src/core/registry.c:50-67 | a published slot never changes or moves |

## Left out

- Weak memory orders: all steps are sequentially consistent.
- The MPSC mode and the discard policy of the single-consumer lock-free path: the same put, and a
  get that is the MPMC one without its lease.
- In the SPSC model, parking and kicking (proved for MPMC). The words a torn length reads beyond
  the buffer are left unspecified; `CopyReaches` bounds how far that can go.
- The branch of get for a staging buffer smaller than the record: consumers allocate one as large
  as the ring.
- Wrap-around of the 64-bit cursors and counters.
- Shutdown, beyond the drain of the consumers after the exit flag.
- LockedFlush.FlushCertifiesLocked: the joint runs are over the records of the ring, changed as the
  contracts of the class's methods say, not over heap objects.
- MpmcTheorems.NoLostWakeup: is a statement about every reachable state, not about scheduling; that
  a thread that owes a step eventually takes it is assumed.
- LockedRing.Ring.Put: lengths follow the callers' contract (strings and field count below 65536,
  record at most half the capacity, capacity below 2^32, no pad flag in the record flags).
- LockedRing.Ring.Get: models the staging path; the view into the ring without staging is not modelled.
- SinkQueue.Queue.Push: part lengths are below 65536 and signed times are given as their 64 bits;
  field unpacking and filtering of decoded events are modelled in the field modules.
- SinkQueue.Queue.Turn: the sweep and the decoding are one step; decoding works on the worker's own
  copy, which pushes in between do not touch.
- FieldsCodec.Serialize: boolean values are one byte, keys contain no NUL.
- FieldFilter.Apply: keys on the wire are below 256 bytes, and the scratch buffer is allocated with
  room for the padding.
- FormatTemplate.Compile: literal widths beyond the C int range and allocation failures are not
  modelled; the name length check is left to the caller.
- JsonLine.JsonLineReadsBack: is about the line before any limit; what a cut at `max_line` leaves is not read.
- FormatRender.Render: the text of the time placeholders and of %.17g is taken as given, and so are
  the bytes of memory behind the field region; the line limit is at least the newline's length (the configuration keeps it at
  256 or more, `src/conf/conf_model.c:500`).
- HttpBatch.Sink.EmitBatch: ndjson mode; the lines mode, the request header, the response parser and
  the backoff clock become the answer given for each POST.
- FileSink.Sink.Emit: I/O succeeds, no other process rotates the file, archives are not pruned and
  get fresh names; local-time buckets depend on the platform's conversion.
- Calendar.NextBoundaryIsLeast: instants before 1970 are not covered; C division truncates there
  and the boundary can be late.
- Routing.Router.RouteLookup: valid record levels, that is below OFF; the warning printed for a full
  table and level overrides are left out.
- The lock-free level override byte, the throttle and the delivery of a routed record.
- tcp, udp, unix, fifo, syslog, console and null sinks: the batching idea of the http sink with less
  structure.
- Configuration reading, fork handling, init and shutdown plumbing, the platform layer.
