# goapptrace: a Dafny model of the tracer's core

goapptrace turns a stream of "function started" and "function ended" events from a traced Go process into call records,
keeps the records in fixed-size record files, and answers queries over them. This project models that path and proves
what it promises:

- **Reconstruction and flushing** (`Simulator`, `CallStack`, `EventMeaning`, `SpanMeaning`, `Timeline`, `Worker`,
  `LogWriter`, `FullRead`, `Reader`). The simulator, which forgets finished calls at every flush, is shown to agree with plain call stacks that
  forget nothing, and those with a reading of the event stream that has no stacks at all. After any interleaving of events
  and flushes the record files decode to that meaning; writer and reader go through the buffered store below.
- **Record store** (`Records`, `Cache`, `Buffers`, `Store`, `Stores`). A read cache and a write buffer over one file behave
  like a growable array of zero-padded records, with the one exception spelled out exactly: a cache fill one buffer size
  past a short fill, in a file that has grown since.
- **Byte formats, framing and the batching sender** (`Codec`, `Marshal`, `Streams`, `Framing`, `PackBytes`,
  `MergeSender`). The bytes of every record and frame, round trips, exact predicted sizes, recovery of every byte prefix of a packet stream,
  and conservation of packets over every interleaving of the sender's callers.
- **Protocols** (`Handshake`, `Metadata`, `TraceFlags`). The two-sided negotiation and what it lets through, optimistic updates with retry, and the
  way a new trace target list reaches the flag cells of the traced process.
- **Queries** (`TopK`, `Sql`, `SqlMeaning`, `SqlParse`, `SqlQuery`, `SqlColumns`). The bounded heap is a window of a full sort; the WHERE
  evaluator that moves a shared row and keeps comparators computes the meaning of the clause.
- **Source edits and symbols** (`SourceEdit`, `SymbolTable`).

`dafny verify dfyconfig.toml` checks everything.

## Conventions

A Go panic is a result value (`Panicked`, `Panic`, `None`, `crashed`), and so is a string that Go's copy cuts off at the
end of a slice. Integers are unbounded, and the truncations that matter (uint64, int64, the uint32 size of a frame) are
written out. The order in which Go ranges over a map is a parameter, so every result holds for every order. Concurrent
parts are state machines whose steps are the parts of the program between two points where another party can act; theorems
about them quantify over all runs. Objects that the program updates in place are classes whose methods are proved against
functions on values; the theorems are about those functions. A few invariants (`TypedStore.Valid`, `Sound`, `Follows`,
`Gives`, `Served`, `Side`) are stated under a quantifier whose trigger is a predicate that is true of everything; a proof opens one by
mentioning that predicate, and proofs that do not need it stay small.

Results that need a condition, and where the condition comes from:

- `ReadBuffer.DoCache` advances its believed position by the full buffer size even after a short read. `Cache` gives the
  exact condition under which a fill then comes from the wrong place; `Store` proves that a run is answered like the record
  array if and only if no read in it meets that condition, what a trapped read answers, and how the cache recovers. Goroutine
  stores, read-only stores and scans from record 0 are never trapped; `Stores.TrappedReadGivesRecordOne` shows a run that is.
- A send panics or cuts its frame by the room its buffer has left, and a sent large packet enters the same pool as ordinary
  buffers whatever its size. `MergeSender.SendExactly` says which of the three happens; if callers keep small frames within
  2048 bytes and large ones at least as long as a pool buffer, neither ever happens. Both promises are needed.
- The shutdown packet type is created as a ping, so a shutdown arrives as a ping and the client's shutdown branch is dead.
- The server sends its hello before it sets its own flag, so a negotiated client implies a server that is negotiated or
  about to be; `Handshake.NegotiatedClientFirst` shows the window.
- Flushes between the two halves of a full read hide exactly the calls that were not yet in the file at the first half and
  had ended at the last of these flushes.
- A bounded read passes over the record maxId, although the filter after it keeps calls up to and including maxId, and it
  leaves minId on the calls in memory to that filter (`FullRead.ReachableBoundedRead`).
- The documentation of the query language calls FRAME an EXISTS over the frames. That holds when no column of the current
  frame is read after a FRAME has moved the row; an inner FRAME followed by such a column is read at the wrong frame
  (`SqlMeaning.NestedFrameMisreads`). The documentation also lists a column `module`; the code calls it `package`, and the
  model follows the code.
- A comparator for LIKE or REGEXP keeps the pattern of its first evaluation, which is harmless for constant patterns
  (`SqlMeaning.KeptIsFresh`) and wrong for a column (`SqlMeaning.PatternIsKept`).
- The row of a search FROM calls keeps the offset that the call before left. That is harmless unless a clause both uses
  FRAME and reads a frame column outside it; then the second of two equal calls can be rejected (`SqlQuery.StaleOffset`).
- A search FROM frames prints from the row after FRAME has moved it, so the printed frame is the first that matches
  (`SqlQuery.FramePrintsFirst`).

## Model

| member | source | states |
|---|---|---|
| `Simulator.StateSimulator.Next` | tracer/simulator/simulator.go:24-90 | One event changes the five linked tables exactly as the step function says, including the panicking paths; what that function records is read off the event stream by `EventMeaning.LogsMeanEvents` and `SpanMeaning.GoroutinesMeanEvents` |
| `Simulator.StateSimulator.Clear` | tracer/simulator/simulator.go:144-154 | Exactly the finished calls leave memory, in whatever order the map is visited |
| `CallStack.NextAgrees` | tracer/simulator/simulator.go:24-90 | An event that is last-in-first-out on its goroutine never panics and keeps the simulator in agreement with per-goroutine stacks that never forget |
| `CallStack.NextPanicsExactly` | tracer/simulator/simulator.go:24-90 | On any event, legal or not, the simulator panics exactly if a start carries more than 64 frames, an end names an unknown goroutine or a transaction that is not open, or the tag is neither; the tables are then as before, but for the next id |
| `CallStack.NextTxids` | tracer/simulator/simulator.go:24-90 | Every open transaction stays that of a running call |
| `CallStack.ClearAgrees` | tracer/simulator/simulator.go:144-154 | Clearing forgets no running call |
| `CallStack.RunningUnique` | tracer/simulator/simulator.go:29-86 | A running call is on one stack, at one place |
| `CallStack.StackTopWalk` | tracer/simulator/simulator.go:24-90 | Following ParentID from the recorded stack top visits exactly the goroutine's running calls, innermost first, ending at -1, before and after a Clear |
| `CallStack.TxidsBijection` | tracer/simulator/simulator.go:24-90 | The open transactions are in bijection with the running calls |
| `EventMeaning.EndAfterIsFirst` | tracer/simulator/simulator.go:60-86 | The end of a call is the first later end event with its transaction id |
| `EventMeaning.LastOpenIsLast` | tracer/simulator/simulator.go:29-59 | The parent of a call is the last earlier call of its goroutine still open |
| `EventMeaning.LogsMeanEvents` | tracer/simulator/simulator.go:24-90 | For every legal event stream the reconstructed logs are those read off the stream without any stack |
| `EventMeaning.StartsComplete` | tracer/simulator/simulator.go:29-59 | The calls of a stream are exactly its start events, in event order; their places in that order are the ids |
| `SpanMeaning.FirstStartIsFirst` | tracer/simulator/simulator.go:52-82 | The first start event of a goroutine is found, or there is none |
| `SpanMeaning.LastEndIsLast` | tracer/simulator/simulator.go:52-82 | The last end event of a goroutine is found, or there is none |
| `SpanMeaning.SpansMeanEvents` | tracer/simulator/simulator.go:52-82 | For every legal event stream a goroutine is recorded exactly if some start event carries it; its interval runs from the timestamp of the first such event to that of its last end event, or is not ended while a call of it is open |
| `SpanMeaning.GoroutinesMeanEvents` | tracer/simulator/simulator.go:52-82 | The simulator's own goroutine table holds exactly those intervals |
| `SpanMeaning.FlushedFilesMeanEvents` | cmd/server_run.go:326-344 | After any interleaving of events and flushes and a last flush, both record files decode to what the event stream alone says of calls and goroutines |
| `Timeline.TimelineHolds` | tracer/simulator/simulator.go:29-86 | With non-decreasing timestamps, calls of one goroutine are pairwise nested or disjoint, inside their parent and inside their goroutine's interval |
| `Timeline.GoroutineMarks` | tracer/simulator/simulator.go:52-82 | A goroutine is marked not-ended exactly when its stack is non-empty, across re-activations |
| `Records.WriteAllResult` | cmd/server_run.go:326-344 | After records are set one by one every listed index holds its record and every other is untouched or zero |
| `Records.WriteAllOrderFree` | tracer/simulator/simulator.go:95-141 | The order in which a map is written out does not show |
| `LogWriter.SetAll` | tracer/storage/stores.go:54-58 | Setting records one by one through the buffered store writes exactly the listed records of the array |
| `Worker.EventKept` | cmd/server_run.go:283-291 | An event loses no call: each is in memory or its final log is in the file |
| `Worker.FlushWrites` | cmd/server_run.go:326-344 | A flush leaves exactly one record per call ever started, and every goroutine's interval |
| `Worker.ReachableOk` | cmd/server_run.go:232-321 | Every state reached by any interleaving of legal events and flushes agrees with the stacks and has lost no call |
| `Worker.ReachableStacks` | tracer/simulator/simulator.go:24-154 | In every reachable state, and after a Clear there, the parent walk visits exactly the running calls and transactions are in bijection with them |
| `Worker.FlushedStoreIsReference` | cmd/server_run.go:326-344 | After a last flush the record at every id below nextID decodes to exactly the log the never-cleared stacks give |
| `LogWriter.LogWriteWorker.WriteSS` | cmd/server_run.go:326-344 | Sets every log and goroutine in the buffered stores, clears the simulator, and leaves stores whose contents decode to the reference |
| `LogWriter.LogWriteWorker.Handle` | cmd/server_run.go:282-312 | An event is counted, a full quota or a write request flushes and resets the count, and the stores then decode to the reference |
| `LogWriter.LogWriteWorker.Run` | cmd/server_run.go:232-321 | For every legal message stream the worker does not panic and, once the stores are closed, the two files themselves decode to what the event stream alone says of calls and goroutines |
| `Reader.ReadFuncLog` | tracer/restapi/handlers.go:901-971 | Through the buffered store: a read of everything lists what the store holds whatever state the read cache is in, a read from a later id if its first read is not trapped; then the simulator's logs from the end of the file on |
| `Reader.ScanRead` | tracer/restapi/handlers.go:918-946 | Each read of a scan gives its own record and leaves the cache fit for the next, starting from record 0 in any state |
| `FullRead.FullReadExactlyOnce` | tracer/restapi/handlers.go:913-969 | With no flush between the halves every id from 0 to nextID-1 is listed exactly once, with its log or its log while running |
| `FullRead.ReachableFullRead` | tracer/restapi/handlers.go:913-969 | The same in every state any interleaving of events and flushes reaches |
| `FullRead.ReachableBoundedRead` | tracer/restapi/handlers.go:913-969 | A read within bounds lists exactly the records from minId up to but not including maxId, and then every call in memory from where the records stopped, whatever minId is; each once |
| `FullRead.FlushBetweenHalves` | tracer/restapi/handlers.go:913-969 | With any steps and at least one flush between the halves, an id is listed if and only if it was in the file at the first half or its call had not ended at the last of those flushes |
| `FullRead.EventsBetweenHalves` | tracer/restapi/handlers.go:913-969 | With only events between the halves every id is listed exactly once |
| `Codec.DecEncUint` | tracer/encoding/buildin.go:19-40 | Big-endian decoding undoes encoding for every width |
| `Codec.EncUintBytes` | tracer/encoding/buildin.go:19-40 | The bytes are big-endian: byte i of n is v / 256^(n-1-i) mod 256 |
| `Codec.Int64Number` | tracer/encoding/types.go:47-85 | A signed value is stored as itself, or as 2^64 more if negative |
| `Codec.StringLayout` | tracer/encoding/buildin.go:42-46 | A string is its length in eight bytes and then its bytes |
| `Codec.FramesLayout` | tracer/encoding/buildin.go:98-104 | Frames are their number in eight bytes and then eight bytes each, in order |
| `Codec.FuncLogLayout` | tracer/encoding/log.go:31-39 | Which field of a call log lies at which byte |
| `Codec.RawFuncLogLayout` | tracer/encoding/log.go:66-74 | Which field of a raw log lies at which byte |
| `Codec.GoroutineLayout` | tracer/encoding/log.go:7-12 | Which field of a goroutine lies at which byte |
| `Codec.GoModuleLayout` | tracer/encoding/log.go:102-108 | Which field of a module lies where |
| `Codec.GoFuncLayout` | tracer/encoding/log.go:159-164 | Which field of a function lies where |
| `Codec.GoLineLayout` | tracer/encoding/log.go:216-222 | Which field of a line lies at which byte |
| `Codec.SliceLayout` | tracer/encoding/buildin.go:56-66 | A slice is the number of its elements and then each element behind those before it |
| `Codec.SymbolsLayout` | tracer/encoding/types.go:5-11 | Files, modules, functions and lines lie in this order |
| `Codec.EncDecUint` | tracer/encoding/buildin.go:19-40 | Big-endian encoding undoes decoding, so no two byte strings of one width mean the same number |
| `Codec.RoundTripInt64` | tracer/encoding/types.go:47-85 | A signed value survives if and only if it is an int64, negative marks included |
| `Codec.RoundTripString` | tracer/encoding/buildin.go:42-54 | Every string is recovered whatever follows, consuming exactly its encoding |
| `Codec.RoundTripSlice` | tracer/encoding/buildin.go:56-78 | If the element codec is invertible, so is the codec of slices |
| `Codec.RoundTripFrames` | tracer/encoding/buildin.go:98-118 | Frames are recovered if and only if they fit the pooled slice; otherwise decoding panics |
| `Codec.RoundTripFuncLog` | tracer/encoding/log.go:31-58 | A storable call log is recovered whatever follows |
| `Codec.FuncLogFits` | tracer/encoding/log.go:59-64 | A call log fits its record exactly when it has at most 64 frames |
| `Codec.RoundTripRawFuncLog` | tracer/encoding/log.go:66-93 | A raw log is recovered whatever follows |
| `Codec.RawFuncLogFits` | tracer/encoding/log.go:94-100 | A raw log fits its record exactly when it has at most 64 frames |
| `Codec.RoundTripGoroutine` | tracer/encoding/log.go:7-29 | A goroutine is recovered from its fixed-size record |
| `Codec.RoundTripGoModule` | tracer/encoding/log.go:102-126 | A module is recovered whatever follows |
| `Codec.RoundTripGoFunc` | tracer/encoding/log.go:159-182 | A function is recovered whatever follows |
| `Codec.RoundTripGoLine` | tracer/encoding/log.go:216-241 | A line is recovered whatever follows |
| `Codec.RoundTripSymbols` | tracer/encoding/types.go:5-24 | Every symbol table is recovered whatever follows, consuming exactly its encoding |
| `Marshal.MarshalUint` | tracer/encoding/buildin.go:19-33 | Writes exactly the bytes of the encoding, which `Codec.EncUintBytes` fixes as big-endian, at its position and nothing else, or panics exactly when they do not fit |
| `Marshal.MarshalString` | tracer/encoding/buildin.go:42-46 | Panics exactly when the length does not fit; writes as much of the string as the slice takes and returns the position after |
| `Marshal.PutThen` | tracer/encoding/buildin.go:42-66 | Two writes one after the other fit, panic or are cut exactly as one write of both |
| `Marshal.MarshalFrames` | tracer/encoding/buildin.go:98-104 | Writes exactly the encoding of the frames, or panics exactly when it does not fit |
| `Marshal.MarshalStringSlice` | tracer/encoding/buildin.go:56-66 | Writes exactly the encoding of the strings; cuts only the last string, and panics exactly when more than that does not fit |
| `Marshal.MarshalGoModuleSlice` | tracer/encoding/log.go:128-138 | Writes exactly the encoding of the modules, or panics exactly when it does not fit |
| `Marshal.MarshalGoFuncSlice` | tracer/encoding/log.go:184-194 | Writes exactly the encoding of the functions, or panics exactly when it does not fit |
| `Marshal.MarshalGoLineSlice` | tracer/encoding/log.go:243-249 | Writes exactly the encoding of the lines, or panics exactly when it does not fit |
| `Marshal.MarshalFuncLog` | tracer/encoding/log.go:31-39 | Writes exactly the encoding of the call log, or panics exactly when it does not fit |
| `Marshal.MarshalRawFuncLog` | tracer/encoding/log.go:66-74 | Writes exactly the encoding of the raw log, or panics exactly when it does not fit |
| `Marshal.MarshalGoroutine` | tracer/encoding/log.go:7-12 | Writes exactly the encoding of the goroutine, or panics exactly when it does not fit |
| `Marshal.MarshalSymbolsData` | tracer/encoding/types.go:5-11 | Writes exactly the encoding of the symbol table, or panics exactly when it does not fit |
| `Marshal.SizeSymbolsData` | tracer/encoding/types.go:25-31 | The predicted size is the exact number of bytes written |
| `Marshal.SizeStringSlice` | tracer/encoding/buildin.go:79-85 | The predicted size is the exact number of bytes written |
| `Marshal.SizeGoModuleSlice` | tracer/encoding/log.go:151-157 | The predicted size is the exact number of bytes written |
| `Marshal.SizeGoFuncSlice` | tracer/encoding/log.go:208-214 | The predicted size is the exact number of bytes written |
| `Marshal.SizeGoLineSlice` | tracer/encoding/log.go:262-268 | The predicted size is the exact number of bytes written |
| `Buffers.EncodeInto` | tracer/storage/store.go:200-204 | The rest of a record after the encoded bytes is zero, and nothing before the record changes |
| `Buffers.WriteBuffer.BufferedRange` | tracer/storage/buffer.go:122-126 | Exactly the span not yet in the file: outside it the file already reads like the overlay |
| `Buffers.WriteBuffer.Reserve` | tracer/storage/buffer.go:130-140 | The slice handed out lies inside the buffer right after the pending bytes |
| `Buffers.WriteBuffer.Write` | tracer/storage/buffer.go:143-153 | The overlaid file becomes the file after a positional write of the new bytes, flushed or not |
| `Buffers.WriteBuffer.Seek` | tracer/storage/buffer.go:157-168 | Moves the position and leaves the overlaid file as it was, also when the flush fails |
| `Buffers.WriteBuffer.Flush` | tracer/storage/buffer.go:171-200 | The file becomes the overlay; after a failed seek or a partial write the overlay is still the same and the bytes are kept |
| `Buffers.WriteAtTwice` | tracer/storage/buffer.go:143-153 | Consecutive buffered writes are one positional write |
| `Buffers.WriteAtAgain` | tracer/storage/buffer.go:171-200 | Repeating a partly failed write gives what one good write gives |
| `Buffers.ReadBuffer.Seek` | tracer/storage/buffer.go:50-65 | Any real move drops the cache |
| `Buffers.ReadBuffer.DoCache` | tracer/storage/buffer.go:74-99 | Fills the cache with what the file has at the handle's true position, which is the place the cache as a value says |
| `Cache.MisplacedExactly` | tracer/storage/buffer.go:74-99 | A cache that has been right goes wrong if and only if it refills one buffer size past a short fill in a file that has grown, and then hands out the bytes after that fill |
| `Cache.MoveMends` | tracer/storage/buffer.go:50-99 | However wrong the cache is, a real move to a place not one buffer size past the last fill mends it |
| `Buffers.ReadBuffer.Read` | tracer/storage/buffer.go:33-47 | The bytes at the place the cache as a value says, with an error exactly when that place is at or past the end of the file |
| `Store.WriteIsRecordUpdate` | tracer/storage/store.go:113-142 | A positional write of a padded record is an update of the record array, holes being zero records |
| `Store.ReadIsRecord` | tracer/storage/store.go:88-105 | Bytes read where a record starts are that record |
| `Store.RecordStore.ReadNolock` | tracer/storage/store.go:88-105 | The record at the place the cache says, in every state of the store; buffered writes are flushed first and nothing is lost |
| `Store.ReadExactly` | tracer/storage/store.go:88-105 | From a right cache a read takes its own record, or fails exactly past the last one, if and only if it is not trapped; a trapped read takes the record that was first missing at the short fill |
| `Store.ReadMends` | tracer/storage/store.go:88-105 | Reading any record that is neither the next one nor a buffer size past the last fill is right whatever went wrong before |
| `Store.RecordStore.WriteNolock` | tracer/storage/store.go:113-142 | Refused when closed or read-only; otherwise replaces or extends the array with the zero-padded record |
| `Store.RecordStore.AppendNolock` | tracer/storage/store.go:149-151 | Adds one record at the end |
| `Store.RecordStore.FlushNolock` | tracer/storage/store.go:158-160 | The file holds what the array says, and the array is unchanged |
| `Store.RecordStore.Run` | tracer/storage/store.go:88-160 | Every run of writes, appends, reads and flushes is answered as the array with its cache answers, to its end |
| `Store.RunIsArrayExactly` | tracer/storage/store.go:88-160 | A run is answered like the record array, each read from its own place, if and only if no read in it is trapped |
| `Store.FirstTrap` | tracer/storage/store.go:88-105 | The first trapped read is the first wrong answer, and it is an earlier record of the array |
| `Store.ReadOnlyRunIsArray` | tracer/storage/store.go:88-105 | Every run of a read-only store is answered like the record array |
| `Store.UnevenRunIsArray` | tracer/storage/store.go:64-71 | So is every run of a store whose buffer does not hold a whole number of records |
| `Store.GoroutineStoresAreUneven` | tracer/encoding/log.go:25-29 | 4096 is no multiple of the 24 bytes of a goroutine record |
| `Store.FirstRecordIsRight` | tracer/storage/store.go:88-105 | Reading record 0 is right in any state and brings the cache up to date |
| `Store.ArrayHoldsLastWrite` | tracer/storage/store.go:88-151 | Reading index i gives the last write to i, what it held at opening, or zeros |
| `Stores.TypedStore.SetNolock` | tracer/storage/stores.go:54-58 | The zero-padded record replaces or extends, and the read cache is dropped |
| `Stores.TypedStore.GetNolock` | tracer/storage/stores.go:49-53 | The record at the place the cache says; the records are unchanged |
| `Stores.TypedStore.Close` | tracer/storage/store.go:162-187 | The file itself holds the records |
| `Stores.TrappedReadGivesRecordOne` | tracer/storage/buffer.go:74-99 | A concrete run in which reading record 100 gives record 1 |
| `Streams.FitIsGreatest` | tracer/protocol/protocol.go:77-102 | The number of whole frames in a prefix is the greatest that fits |
| `Streams.PrefixUnpacks` | tracer/protocol/protocol.go:77-102 | Every byte prefix of a framed stream yields exactly the whole packets and keeps the rest |
| `Framing.SizeExact` | tracer/protocol/protocol.go:50-69 | The returned size is the number of bytes written if and only if the frame is below 4 GiB |
| `Framing.FrameLayout` | tracer/protocol/protocol.go:50-69 | A frame is four big-endian bytes of body length, one type byte and the body |
| `Framing.HelloLayout` | tracer/protocol/packet.go:196-203 | Which field of the client's hello lies where |
| `Framing.TypeNumbers` | tracer/protocol/packet.go:16-27 | The type byte of every packet, in the order of declaration |
| `Framing.PutFrameExactly` | tracer/protocol/protocol.go:50-69 | A frame is written whole if and only if it fits, panics if and only if it does not fit even without the string at its end, and is cut to fill the slice in between |
| `Framing.CutFrameDiffers` | tracer/protocol/protocol.go:60-63 | A cut frame is no beginning of the whole one, because its size field differs |
| `Framing.RoundTripBody` | tracer/protocol/packet.go:61-87 | A packet's body is recovered as its own type, a shutdown as a ping |
| `Framing.UnpackWhole` | tracer/protocol/protocol.go:77-102 | A whole frame is received whatever follows it |
| `Framing.UnpackPart` | tracer/protocol/protocol.go:77-102 | No proper part of a frame is mistaken for a frame |
| `Framing.PacketStream` | tracer/protocol/protocol.go:50-102 | Any packet sequence laid end to end is recovered in order, and every byte prefix yields exactly the packets that fit |
| `PackBytes.PackToByteSlice` | tracer/protocol/protocol.go:50-69 | Into any slice: writes the frame that fits and returns its size in uint32 arithmetic, or panics exactly when none fits |
| `PackBytes.MergePacket.Merge` | tracer/protocol/packet.go:123-128 | Adds the frame, as far as it fits and is counted, after the bytes merged so far, or panics exactly when the writer does |
| `PackBytes.AddedExactly` | tracer/protocol/packet.go:123-128 | Below 4 GiB the whole frame is added if and only if it fits, and what a cut leaves is no beginning of it |
| `PackBytes.MarshalLargePacket` | tracer/protocol/packet.go:146-155 | The buffer of predicted size is filled exactly |
| `MergeSender.StepKeeps` | tracer/protocol/client.go:334-405 | A step of any caller conserves the bytes written, in lock order, and keeps every buffer in one place, unless the writer panics |
| `MergeSender.SendBatches` | tracer/protocol/client.go:339-355 | From any reachable state a send adds what it writes to the batch, and the batch is handed to the connection, behind what is queued, exactly if it has then reached MaxSmallPacketSize |
| `MergeSender.RefreshHandsOver` | tracer/protocol/client.go:376-405 | After a refresh from any reachable state nothing is buffered and the queue holds what was queued followed by what was buffered |
| `MergeSender.LargeGoesBehind` | tracer/protocol/client.go:357-368 | A large packet is queued behind the batch that was buffered, or the send panics exactly when the packet cannot be marshalled |
| `MergeSender.DeliverMoves` | tracer/protocol/client.go:282-286 | A write by the connection moves the first queued batch to the wire and loses nothing |
| `MergeSender.RefreshReachesWire` | tracer/protocol/client.go:376-391 | From every reachable state with the lock free, a refresh and then the connection alone put everything the sends wrote on the wire |
| `MergeSender.StopReachesWire` | tracer/protocol/client.go:395-405 | The stop can always be completed and drained, and then everything written is on the wire |
| `MergeSender.WireIsPrefixOfWritten` | tracer/protocol/client.go:318-405 | Over every interleaving the bytes given to the connection are a prefix of what the successful sends put into buffers, in lock order |
| `MergeSender.SolidRun` | tracer/protocol/client.go:334-368 | Pings, shutdowns, symbols and call events below 4 GiB are always put into buffers whole |
| `MergeSender.WireIsPrefixOfSent` | tracer/protocol/client.go:318-405 | For whole frames the wire is a prefix of the frames of the successful sends, and the receiver gets exactly the packets whole in it |
| `MergeSender.NothingLeftBehind` | tracer/protocol/client.go:395-405 | After refreshLast nothing is buffered or accepted, and once the connection drains the receiver has every packet sent whole |
| `MergeSender.SendExactly` | tracer/protocol/client.go:339-355 | By the room it gets, a send writes its whole frame, panics, or cuts its last string so that the wire no longer holds the frame, each exactly when the byte-level writer does |
| `MergeSender.PromisesSuffice` | tracer/protocol/client.go:318-368 | If small frames have at most 2048 bytes and large ones at least MaxSmallPacketSize+2048, no interleaving panics or cuts a frame |
| `MergeSender.LargeBufferPoisonsPool` | tracer/protocol/client.go:282-286 | The promise on large packets is needed: the buffer of a shorter one, reused for a longer call event, makes the send panic |
| `MergeSender.LongStringIsCut` | tracer/protocol/client.go:339-355 | The promise on small packets is needed: a hello too long for a new buffer is cut, counts as sent, and reaches the wire damaged |
| `MergeSender.EmptySymbolsAreShort` | tracer/protocol/packet.go:146-155 | Such packets exist: an empty symbol table is shorter than any call event |
| `MergeSender.MergeSender.Send` | tracer/protocol/client.go:334-355 | Refused exactly when stopped; otherwise the batch grows by the frame and is handed over when full |
| `MergeSender.MergeSender.SendLarge` | tracer/protocol/client.go:357-368 | Hands over the batch, then queues a buffer of exactly the frame's size; panics for packets that cannot predict their size |
| `MergeSender.MergeSender.RefreshLast` | tracer/protocol/client.go:395-405 | Stops the sender and leaves nothing buffered |
| `Handshake.ServerConn.OnRecv` | tracer/protocol/server.go:198-256 | Whatever packet arrives: no handler has fired before an accepted hello of the current version, Connected has fired and the server hello been sent exactly once if negotiated and never otherwise, and the packets received so far are answered as in `Handshake.HandledExactly` |
| `Handshake.Client.OnRecv` | tracer/protocol/client.go:226-281 | Whatever packet arrives: no handler has fired before an accepted hello of the current version, Connected has fired exactly once if negotiated and never otherwise, and the packets received so far are answered as in `Handshake.HandledExactly` |
| `Handshake.StepKeeps` | tracer/protocol/server.go:198-256 | Every step of either party keeps the protocol's invariant |
| `Handshake.FromTheStart` | tracer/protocol/client.go:210-305 | In every run no handler fires before a hello of the current version was accepted, Connected fires at most once per side, and with a negotiated client the server is negotiated unless it is just greeting |
| `Handshake.OpeningIsFirst` | tracer/protocol/server.go:203-231 | The first hello of the current version among the packets received is found, or there is none |
| `Handshake.ServedMeans` | tracer/protocol/server.go:198-256 | What being served means: negotiated exactly if the hello has come; the packets handed to the application are exactly its packets behind the hello, each once and in order; stops, errors, acceptances and the other actions are as many as packets ask for them, a ping behind the hello asking for none |
| `Handshake.HandledExactly` | tracer/protocol/client.go:226-281 | In every run, of all that was sent to a party a beginning has been received and is served in that sense: symbols and call events at the server, trace commands at the client, and every other packet but a ping stops the connection |
| `Handshake.OrderlyClientIsServed` | tracer/protocol/server.go:232-249 | If the client greets first and then sends only pings, symbols and call events, then once its channel is empty every symbol table and call event was handled, in order, and the server never stopped |
| `Handshake.NegotiatedClientFirst` | tracer/protocol/server.go:221-231 | The client can be negotiated before the server has set its flag |
| `TopK.Down` | tracer/restapi/handlers.go:1066-1169 | Sinking one item restores the heap and permutes nothing away |
| `TopK.TopIsMax` | tracer/restapi/handlers.go:1066-1169 | The top of the heap is not before any kept item |
| `TopK.KeepSmallest` | tracer/restapi/handlers.go:1066-1140 | One pass keeps min(k, n) items such that no kept item is after a rejected one |
| `TopK.SortedUnique` | tracer/restapi/handlers.go:1066-1169 | Without ties there is one sorted order only |
| `TopK.SortAndLimit` | tracer/restapi/handlers.go:1014-1170 | The output is items offset to offset+rows of a full sort, exactly so without ties, for every input length |
| `TopK.LimitOnly` | tracer/restapi/handlers.go:1014-1064 | Without a comparison the window is taken from the input order |
| `Metadata.Log.UpdateMetadata` | tracer/storage/log.go:364-377 | Accepted exactly when the caller saw the current version; then version, metadata and watchers move together |
| `Metadata.UpdateLogInfo` | tracer/restapi/client.go:168-192 | A conflict is reported only when every try was overtaken; on success the metadata is the callback's answer to the version just before |
| `Metadata.StepKeeps` | tracer/storage/log.go:364-377 | One step of any caller keeps the version count, the composition of accepted updates and what each caller knows |
| `Metadata.EveryInterleaving` | tracer/storage/log.go:364-433 | Version minus one counts the accepted updates, metadata is their composition in version order, and a conflict means at least `tries` updates went through meanwhile |
| `Metadata.ConflictMeansOthers` | tracer/restapi/client.go:168-192 | None of the updates accepted meanwhile is the caller's own |
| `TraceFlags.FlagTable.EnableTrace` | tracer/logger/info.go:48-58 | Turns one function on; every cell handed out stays the cell of its function |
| `TraceFlags.FlagTable.DisableTrace` | tracer/logger/info.go:61-69 | Turns one function off; every cell handed out stays the cell of its function |
| `TraceFlags.FlagTable.SetAll` | tracer/logger/info.go:28-45 | Sets every known cell and the default |
| `TraceFlags.FlagTable.TracingFlag` | tracer/logger/info.go:71-96 | Hands out the cell that later commands write, creating it from the default |
| `TraceFlags.FlagTable.Handle` | tracer/logger/apisender.go:45-58 | A batch of commands is applied in order; an empty name panics |
| `TraceFlags.HandedOutCellFollows` | tracer/logger/info.go:48-96 | A cell handed out earlier shows the last command for its function |
| `TraceFlags.AppliedIsLast` | tracer/logger/info.go:48-69 | Applying commands leaves each flag at the last word on it |
| `TraceFlags.SyncCommands` | cmd/server_run.go:372-394 | The nested loops make one command per function, on exactly when it is a target |
| `TraceFlags.StepFollows` | cmd/server_run.go:352-406 | Every step of the pipeline keeps the commands in transit in line with the newest target list, also when a send fails |
| `TraceFlags.DrainedFlagsAreTargets` | cmd/server_run.go:352-406 | Once drained after a notification, every known function's flag is its membership in the newest list, unless its newest command could not be sent |
| `TraceFlags.NeverPanics` | tracer/logger/apisender.go:45-58 | With named functions no command makes the traced process panic |
| `TraceFlags.SettlesFrom` | tracer/storage/log.go:455-461 | From every such state the queues can drain, and the flags then are the newest targets for every function whose newest command was sent |
| `Sql.SqlPatternToGlob` | tracer/sql/op.go:188-199 | % becomes *, _ becomes ?, every other byte stays, and the argument is not changed |
| `Sql.Evaluator.Bool` | tracer/sql/op.go:19-176 | Verdict, row offset and kept comparators after evaluating an object are those of the step function |
| `Sql.Evaluator.Compare` | tracer/sql/op.go:75-162 | A comparator is made at the first evaluation only and then used |
| `Sql.Evaluator.AnyFrame` | tracer/sql/func.go:79-88 | The loop moves the row to each frame until one satisfies the condition or panics |
| `SqlMeaning.RunIsMeaning` | tracer/sql/op.go:19-176 | If no frame column is read after a FRAME, the evaluator gives the pure meaning at the offset it began with, and every kept comparator stays right |
| `SqlMeaning.FlatIsOrdered` | tracer/sql/func.go:79-97 | Frame columns only inside FRAME and no FRAME inside FRAME is enough for that |
| `SqlMeaning.AnyOffset` | tracer/sql/func.go:79-97 | Such a condition gives its meaning whatever offset and comparators earlier rows left |
| `SqlMeaning.KeptIsFresh` | tracer/sql/op.go:75-80 | A kept comparator gives the verdict a new one would, with constant patterns |
| `SqlMeaning.PanicsAreTypeErrors` | tracer/sql/op.go:90-162 | At any frame of a call a condition panics if and only if a static type check rejects it |
| `SqlMeaning.EvaluatorPanics` | tracer/sql/op.go:90-162 | On a call with frames the evaluator panics if and only if the static check gives the condition no truth value, for ordered conditions with constant patterns |
| `SqlMeaning.FrameIsExists` | tracer/sql/README.md:71-72 | For a condition that type-checks, FRAME is EXISTS over the frames of the call |
| `SqlMeaning.FrameStopsAtFirst` | tracer/sql/func.go:79-88 | FRAME leaves the row at the first frame that satisfies it |
| `SqlMeaning.NestedFrameMisreads` | tracer/sql/func.go:79-88 | FRAME(FRAME(offset = 1) AND offset = 0) is false on two frames though some frame satisfies it |
| `SqlMeaning.PatternIsKept` | tracer/sql/op.go:136-142 | func NOT LIKE func is judged with the first frame's pattern |
| `SqlParse.CompileMeans` | tracer/sql/parse.go:288-411 | The operator objects mean what the clause means, with FRAME and CALL changing the table of bare column names |
| `SqlParse.AcceptableCompiles` | tracer/sql/parse.go:288-411 | A clause compiles if and only if it meets a syntactic condition on literals, ranges, function names and argument counts |
| `SqlQuery.SetUpExactly` | tracer/sql/row.go:142-201 | A query is set up if and only if its clause is acceptable in that sense and names only columns there are |
| `SqlColumns.CallColumnsMean` | tracer/sql/row.go:142-159 | What each column of calls is: the field of the call it is named after, exectime being the difference of the times in 64 bits |
| `SqlColumns.FrameNumbersMean` | tracer/sql/row.go:161-197 | What id, offset, line and pc of frames are, and that the last two panic past the frames |
| `SqlColumns.FrameTextsMean` | tracer/sql/row.go:166-188 | What package, func and file of frames are, and that they panic past the frames |
| `SqlColumns.NoOtherColumn` | tracer/sql/row.go:157-201 | Any other column of any table panics |
| `SqlColumns.Truth` | tracer/sql/type.go:41-86 | As a condition a number is true unless it is 0; texts and times panic |
| `SqlColumns.AnyCase` | tracer/sql/parse.go:366-373 | The case of a function name does not matter |
| `SqlColumns.PlainNames` | tracer/sql/func.go:9-58 | The five function names and the functions they stand for |
| `SqlParse.CompileNumbers` | tracer/sql/parse.go:310-318 | Every comparison has a comparator of its own |
| `SqlParse.QualifiedCompiles` | tracer/sql/parse.go:341-396 | A clause compiles anywhere as its form with every bare column name completed |
| `SqlQuery.SearchCalls` | tracer/restapi/handlers.go:267-356 | Refused exactly for clauses that are not acceptable or name unknown columns; for ordered clauses with constant patterns that do not both use FRAME and read a frame column outside it, exactly the calls that satisfy the clause are sent, up to the first that panics |
| `SqlColumns.CallsWhere` | tracer/restapi/handlers.go:267-356 | A search for column operator literal sends, in order, exactly the calls whose field compares true, up to the first comparison that panics |
| `SqlColumns.CallsWithFrame` | tracer/restapi/handlers.go:267-356 | A search for FRAME(column operator literal) sends exactly the calls some frame of which compares true, up to the first that panics |
| `SqlColumns.CallsWithNumber` | tracer/restapi/handlers.go:267-356 | id = n, gid = n and exectime = n send exactly the calls with that id, goroutine or duration |
| `SqlColumns.CallsWithFrameText` | tracer/restapi/handlers.go:267-356 | FRAME(package = s), FRAME(func = s) and FRAME(file = s) send exactly the calls with a frame whose symbol is that |
| `SqlColumns.CallsWithFrameNumber` | tracer/restapi/handlers.go:267-356 | FRAME(id = n), FRAME(offset = n), FRAME(line = n) and FRAME(pc = n) send exactly the calls with such a frame |
| `SqlQuery.StaleOffset` | tracer/restapi/handlers.go:311-322 | The last condition is needed: of two equal calls that satisfy a clause the second is rejected, because FRAME left the row at another offset |
| `SqlQuery.ReachedIsPrefix` | tracer/restapi/handlers.go:338-354 | The places read are a beginning of all frames of all calls in order |
| `SqlQuery.SearchFrames` | tracer/restapi/handlers.go:338-354 | Every frame of every call is read once in order up to the first that panics; for ordered clauses with constant patterns those that satisfy the clause are accepted, and without FRAME each line shows the accepted frame |
| `SqlColumns.FrameRowMeans` | tracer/sql/row.go:161-197 | On a row that shows frame o, column operator literal compares that frame's field |
| `SqlQuery.FramePrintsFirst` | tracer/restapi/handlers.go:328-335 | With a FRAME clause a line shows the frame that was read if and only if it is the first to match |
| `SourceEdit.StableSortUnique` | tracer/srceditor/nodes.go:37-54 | There is one stable order by position |
| `SourceEdit.NodeList.Format` | tracer/srceditor/nodes.go:63-86 | Sorts stably in place and writes what the edit pass gives |
| `SourceEdit.AppliesPairwise` | tracer/srceditor/nodes.go:63-97 | The pass over sorted edits gets through if and only if every edit lies inside the text and none starts before the end of an earlier one |
| `SourceEdit.FormatFails` | tracer/srceditor/nodes.go:63-97 | For any edits as added, Format panics if and only if some edit lies outside the text or starts before the end of a deletion of an earlier position, or of the same position and added earlier |
| `SourceEdit.FormatMeaning` | tracer/srceditor/nodes.go:63-97 | For edits compatible in that sense every undeleted byte appears once, in order, with the insertions of its position just before it in add order; otherwise Format panics |
| `SourceEdit.AddOrderIrrelevant` | tracer/srceditor/nodes.go:37-97 | The add order of edits at different positions does not matter, not even for failure |
| `SymbolTable.Validate` | tracer/types/symbols.go:232-278 | The one-pass checks accept exactly the tables whose modules are pairwise apart and whose entries ascend and refer to existing files |
| `SymbolTable.OnlyModule` | tracer/types/symbols.go:94-103 | At most one module of a valid table contains a program counter |
| `SymbolTable.FindLast` | tracer/types/symbols.go:106-173 | The scan finds the greatest address between the start of the module and pc, or none exactly when there is none |
| `SymbolTable.Symbols.Load` | tracer/types/symbols.go:69-76 | Replaces the table exactly when it validates |
| `SymbolTable.Symbols.GoFunc` | tracer/types/symbols.go:106-138 | The nearest function entry in pc's module, or none exactly when there is none |
| `SymbolTable.Symbols.GoLine` | tracer/types/symbols.go:141-173 | The nearest line in pc's module, or none exactly when there is none |
| `SymbolTable.Symbols.File` | tracer/types/symbols.go:198-206 | The file of the nearest line, unknown exactly when there is no line, and never an index out of range |

## Left out

- The TCP library, sockets, dialing, timers, retries and HTTP routing: channels are FIFO and a buffer returns to the pool only after it was written.
- The JSON library behind the trace commands is an opaque encoder and decoder; the gob files are not modelled.
- `LogPacket` and `fakePacket`: an unimplemented type and a test mock.
- MergeSender.MergeSender.Send: failures of the connection's own Send are not modelled; a send the sender accepts reaches the connection's queue. After a panic in the writer the sender is not used again.
- Decoding is modelled on values (functions from bytes to results), not as loops that fill structs; the pooled slice enters only through its capacity of 64 frames.
- The pools of call and raw logs: reuse of a record while somebody still holds it is not modelled.
- Go slices are modelled by their length; room beyond the length is not.
- Worker.FlushedStoreIsReference: decoding is claimed for ids below 2^63, where the id counter would wrap.
- Framing.PacketStream: covers frames below 4 GiB and raw logs of at most 64 frames; `SizeExact` and `RoundTripFrames` say what happens beyond.
- LogWriter.LogWriteWorker.Run: opening the log and `SetSymbolsData` are not modelled, messages arrive as one sequence, and goroutine ids are taken to be non-negative, because setting a record at a negative index panics.
- Store.RecordStore.constructor: a file whose size is not a multiple of the record size is not modelled, nor are reads after closing.
- Store.RecordStore.ReadNolock: negative indexes are not modelled.
- `Store.Write`, which always answers that the store is closed.
- `Log.SearchFuncLog` and the index that narrows simple searches: nothing outside the tests appends to that index.
- `Symbols.FuncName` and `ModuleName`, whose test for a result is inverted, and the helpers that split names.
- TopK.SortAndLimit: a negative offset and the overflow of offset+rows are not modelled, and the input is a sequence instead of a channel.
- SourceEdit.FormatMeaning: the text built from a deletion whose end lies before its start is not covered; `FormatFails` says when the pass panics on any edits.
- The Go formatter that runs on the result of `Format`.
- The callbacks map of `logEvent`: one watcher is modelled, and it stays registered.
- Metadata.Log.UpdateMetadata: the UI settings inside the metadata are opaque bytes.
- SqlQuery.SearchCalls: LIMIT is left out, because the line window of the CSV response is not an offset and row count window.
- SqlParse.CompileMeans: rows of goroutines, functions and modules have no frames and would add only easy columns; NOW, ADDTIME and SUBTIME are one node whose value no operator accepts.
- SqlQuery.SearchFrames: the stored calls do not change while the search reads them.
- SqlMeaning.RunIsMeaning: the glob and regular expression engines and the symbol lookups of the frame columns are parameters; the condition on the order of reads is sufficient, not necessary.
- The `logviewer` package, the command line, configuration, the builder, the templates and the generated benchmark codecs.
