# Bud: verified models of its protocols and algorithms

This project models, in Dafny, the parts of Bud (a Rust daemon with a TypeScript service) whose
correctness is hardest to see by reading one function, and proves what they are for. Each
component has its own module; code that updates state step by step is a class or a loop proved
against a specification function, and protocols with several parties are step systems whose
invariants are proved for every run.

- **Envelope codec.** `WireFormat` (varints, wire fields, `Buffer`, `ProtoReader`), `Json`,
  `FieldSchema` and `FieldTables` (the tables of the writer and, separately, of the reader),
  `FieldCodec`, `FieldRoundTrip`, `FieldWriter`, `BudEnvelope` (in `Envelope.dfy`), `EnvelopeReader`
  (the loops), `BudFrame` (the public pair of functions).
- **Locking.** `InstanceLock` (several lock files in ascending order), `InvocationMode`
  (Postgres advisory locks).
- **Browser.** `TargetOwnership`, `Cdp`, `CaptureFocus` (captures and private streams).
- **Streams.** `LocalLlm` (request reassembly and credit), `CacheTee`, `SseDetector`, `RunQueue`,
  `RequestMetrics`.
- **Text and allocation.** `EnvText`, `EnvFile`, `EnvEdit` and `EnvBytes`, `BudName`, `AccentColor`.

`Wrappers`, `Collections` and `Lexicographic` hold what several modules share.

Strings are sequences of Unicode characters, in `BudName` of UTF-16 code units. UTF-8, JSON text, base64 and RFC 3339 enter the codec
as a `Library` of functions; the theorems assume only that the readers of UTF-8, JSON and times (up to
the year 9999) undo their writers, that JSON is UTF-8 text, and that the strict base64 reader accepts
nothing but what its writer produces. The codec follows the
Protocol Buffers encoding specification ("Base 128 Varints", "Message Structure", "Last One Wins").
Lengths are natural numbers, and theorems about the encoder are about outputs shorter than 2^64
bytes, as every output of the program is. Readable streams follow section 4.6 of the WHATWG
Streams Standard. Timeouts, lost acknowledgements, dropped futures and the moments at which things
happen are choices made freely by the environment.

Four promises of the program's comments or of its design turned out to hold only under a
condition; each condition is proved exact and is shown to fail for a named family of inputs:

- Setting a key in the env file leaves that key assigned once, to the new value, exactly when the
  value has no newline and, if the key is the word `export`, no line has nothing but `export` before
  its equals sign (`EnvEdit.UpsertParses`, `EnvEdit.ExportNotReplaced`).
- The comment on `upsert_env_var` says that every other line is kept byte for byte. The lines that
  are not for the key are kept in order, whether the key is new or replaced; they are kept byte for
  byte exactly when none of them ends in CR LF, which becomes LF, and a value with a newline brings no
  such line with it (`EnvBytes.UpsertRawLines`, `EnvBytes.OtherLinesKept`, `EnvBytes.CrLfLost`).
- Removing a key leaves assignments of it whose name is followed by white space, and no others but
  those of bare `export` lines (`EnvEdit.RemoveParses`, `EnvEdit.SpacedNotRemoved`).
- A Bud keeps its numbered name on reconnecting exactly when base and suffix fit into 120
  UTF-16 code units together, so that nothing of the base was cut off; every base of 119 or 120 units
  fails (`BudName.NewNameKept`, `BudName.KeptOnReconnect`, `BudName.LongNameLost`).

## Model

| member | source | states |
|---|---|---|
| WireFormat.VarintRoundTrip | bud/src/proto_wire.rs:1780-1879 | reading the varint of any 64-bit number, whatever bytes follow, gives that number and consumes exactly its bytes |
| WireFormat.WireRoundTrip | bud/src/proto_wire.rs:1685-1860 | a printed field of any wire type reads back as itself, whatever follows |
| WireFormat.PrintRoundTrip | bud/src/proto_wire.rs:1671-1860 | a printed list of valid fields parses to that list |
| WireFormat.SpecifiedBytes | bud/src/proto_wire.rs:1671-1790 | fields of each wire type are printed as the bytes that the encoding specification prescribes |
| WireFormat.WiresConcat | bud/src/proto_wire.rs:1799-1879 | parsing a concatenation at a field boundary is parsing both parts: the basis for inserting unknown fields |
| WireFormat.Buffer.WriteVarint | bud/src/proto_wire.rs:1780-1790 | the loop appends exactly the canonical varint |
| WireFormat.Buffer.WriteVarintField | bud/src/proto_wire.rs:1685-1688 | appends the printed varint field |
| WireFormat.Buffer.WriteBytes | bud/src/proto_wire.rs:1771-1778 | appends the printed length-delimited field |
| WireFormat.ProtoReader.NextVarint | bud/src/proto_wire.rs:1862-1879 | the loop reads what the digit-by-digit definition reads, with truncation at 64 bits and at most ten bytes; the offset strictly grows and stays in the buffer |
| WireFormat.ProtoReader.NextTag | bud/src/proto_wire.rs:1808-1811 | splits the tag into field number and wire type and moves the offset forward |
| WireFormat.ProtoReader.VarintForWireType | bud/src/proto_wire.rs:1813-1818 | reads a varint body or refuses another wire type |
| WireFormat.ProtoReader.BytesForWireType | bud/src/proto_wire.rs:1820-1837 | reads a length-delimited body inside the buffer, or fails |
| WireFormat.ProtoReader.Skip | bud/src/proto_wire.rs:1839-1860 | skips exactly the bytes of a field of any wire type, or fails |
| FieldSchema.EnumRoundTrip | bud/src/proto_wire.rs:1444-1546 | in each of the four enums, every name that has a number is read back from that number |
| FieldSchema.EnumDefault | bud/src/proto_wire.rs:1459-1546 | every number of an enumeration is read as the name that has it, and any other number as the enumeration's stand-in |
| FieldTables.TablesAgree | bud/src/proto_wire.rs:359-494 | for every frame type with a field-level writer, the reader's table, transcribed from the reading code, lists the same numbers, keys and codecs as the writer's |
| FieldTables.TablesSound | bud/src/proto_wire.rs:496-700 | for every frame type with a field-level writer, field numbers and keys are distinct at every depth, stay below field 99, and the keys do not collide with those of the base frame |
| FieldCodec.DecodeConcat | bud/src/proto_wire.rs:505-700 | decoding a list of fields is decoding a prefix and then the rest |
| FieldCodec.ReadEntry | bud/src/proto_wire.rs:1429-1442 | the map-entry loop computes the fold over the entry's fields |
| FieldCodec.ReadField | bud/src/proto_wire.rs:897-1279 | reading one field from the cursor has the effect of the field's codec on the members, and consumes exactly that field |
| FieldCodec.ReadMessage | bud/src/proto_wire.rs:496-895 | the decoding loop of every message, nested ones included, terminates and computes the fold over its fields, skipping unknown ones |
| FieldCodec.FieldsPlain | bud/src/proto_wire.rs:359-494 | an encoded message uses only field numbers below the frame_json field, whatever its contents |
| FieldCodec.ScalarSurvives | bud/src/proto_wire.rs:1342-1406 | a scalar member survives unchanged or is dropped: empty strings, numbers out of range, unknown enum names, nulls and values of another kind are dropped, and nothing else |
| FieldCodec.MapSurvives | bud/src/proto_wire.rs:1370-1427 | a map survives with the same keys, strings as they are and other values as their text |
| FieldCodec.OthersDropped | bud/src/proto_wire.rs:1354-1368 | from a list of strings, what is not a string is dropped wherever it stands |
| FieldCodec.SignExtended | bud/src/proto_wire.rs:1718-1720 | every signed 32-bit number is recovered from its 64-bit sign extension |
| FieldRoundTrip.FieldRoundTrip | bud/src/proto_wire.rs:1671-1778 | encoding one field of any codec and decoding it adds its normal form: scalars, enums, maps, lists, nested messages and lists of messages |
| FieldRoundTrip.FieldsRoundTrip | bud/src/proto_wire.rs:359-895 | decoding all encoded fields of a message adds exactly its normal form to what was there |
| FieldRoundTrip.MessageRoundTrip | bud/src/proto_wire.rs:739-895 | a nested status or error message decodes from its bytes to its normal form |
| FieldRoundTrip.EncodeNormal | bud/src/proto_wire.rs:359-494 | encoding the normal form gives the same fields as encoding the original |
| FieldRoundTrip.UnknownFieldSkipped | bud/src/proto_wire.rs:505-700 | well-formed fields with unlisted numbers inserted at any boundary of a message do not change what it decodes to, success or failure |
| FieldRoundTrip.UnknownEntryFields | bud/src/proto_wire.rs:1429-1442 | inside a map entry, well-formed fields with numbers other than 1 and 2 change nothing at any boundary |
| FieldRoundTrip.NestedReplaced | bud/src/proto_wire.rs:756-787 | replacing a nested message, an element of a list of messages or a map entry by bytes that decode alike (for example with unknown fields added) leaves the enclosing decode unchanged |
| BudEnvelope.PayloadFieldInverse | bud/src/proto_wire.rs:1548-1636 | every typed payload field number leads back to the frame type it was chosen for |
| BudEnvelope.FieldLevelArrives | bud/src/proto_wire.rs:324-357 | a field-level payload is never taken for frame_json, whatever bytes it holds, and decodes to the normal frame |
| BudEnvelope.FrameJsonArrives | bud/src/proto_wire.rs:324-357 | a frame_json payload is recognised and its JSON text comes back exactly |
| BudEnvelope.LegacyArrives | bud/src/proto_wire.rs:301-322 | a legacy payload comes back exactly, with or without type and proto |
| BudEnvelope.RoundTrip | bud/src/proto_wire.rs:132-262 | for every header, frame and encoding, decoding the encoded envelope gives the header back and the payload exactly (legacy, frame_json) or in normal form (field-level) |
| BudEnvelope.EncodeDecoded | bud/src/proto_wire.rs:132-185 | encoding the decoded frame again gives the same bytes |
| BudEnvelope.DecodesLast | bud/src/proto_wire.rs:196-262 | for any bytes, decoding succeeds with an envelope if and only if the last occurrences of its fields say so: version 1, id, time, traffic class and payload present, transport optional, a legacy payload before a typed one, and every known field of the right kind |
| BudEnvelope.UnknownEnvelopeFields | bud/src/proto_wire.rs:206-238 | unknown fields inserted at any boundary of an envelope change nothing |
| BudEnvelope.UnknownLegacyFields | bud/src/proto_wire.rs:307-315 | the same inside a legacy payload |
| BudEnvelope.UnknownTypedFields | bud/src/proto_wire.rs:324-357 | the same inside a typed payload, field-level or frame_json |
| EnvelopeReader.ReadEnvelope | bud/src/proto_wire.rs:196-262 | the decoding loop with its option variables computes the specified decode, errors included |
| EnvelopeReader.ReadLegacy | bud/src/proto_wire.rs:301-322 | the legacy loop computes the specified decode |
| EnvelopeReader.ContainsFrameJson | bud/src/proto_wire.rs:1281-1291 | for any bytes: true at the first frame_json tag without looking further, an error where the payload breaks off before one, false otherwise |
| EnvelopeReader.SeekMeans | bud/src/proto_wire.rs:1281-1291 | for a well-formed payload that is whether any of its fields is the frame_json field |
| EnvelopeReader.ReadTyped | bud/src/proto_wire.rs:324-357 | chooses between field-level and frame_json exactly as specified |
| FieldWriter.WriteField | bud/src/proto_wire.rs:1694-1769 | the writer of a field of any codec appends exactly its printed fields to the buffer, and fails exactly when the value cannot be encoded |
| FieldWriter.WriteMessage | bud/src/proto_wire.rs:359-494 | the writers of a message, field after field and with nested messages in buffers of their own, produce exactly the printed fields, or fail |
| EnvelopeReader.WriteEnvelope | bud/src/proto_wire.rs:132-185 | the writer, down to the field-level payloads, produces exactly the specified bytes for every encoding |
| BudFrame.FrameReceived | bud/src/proto_wire.rs:51-194 | a frame that is encoded is decoded to text that parses to the frame itself or, if it travels field by field, to its normal form |
| BudFrame.FrameClass | bud/src/proto_wire.rs:70-299 | the envelope that arrives is bulk if and only if the frame is stream data of a file, active proxy traffic if it is other stream data, interactive if its type begins with `terminal_`, control otherwise, and came by web socket |
| BudFrame.FrameProto | bud/src/proto_wire.rs:1638-1644 | the payload that arrives has the frame's type, and protocol 0.3 for terminal types and 0.1 for others that have a payload field, or the frame's own protocol |
| BudFrame.OwnHeaderReceived | bud/src/proto_wire.rs:51-87 | the frame's own type, id and time (before the year 10000) come back, however it travels; field by field it has protocol 0.1 and no extensions, and otherwise it is unchanged |
| BudFrame.MadeUpHeaderReceived | bud/src/proto_wire.rs:60-69 | a frame without an id or a time comes back with the ones made up for it |
| InstanceLock.Exclusive | bud/src/instance.rs:41-78 | over every interleaving of any number of acquiring, aborting and exiting processes, a root has at most one holder |
| InstanceLock.LockedHoldsGiven | bud/src/instance.rs:49-78 | in every run, an attempt that has succeeded holds exactly the roots it was asked for |
| InstanceLock.NeverBothLocked | bud/src/instance.rs:49-78 | two attempts that were asked for a common root never both succeed at the same time |
| InstanceLock.TryExact | bud/src/instance.rs:72-77 | trying a root is refused exactly when another attempt holds it, and otherwise takes it |
| InstanceLock.FreshSucceeds | bud/src/instance.rs:41-78 | from any state, an attempt whose roots are all free gets exactly those roots by its own steps |
| InstanceLock.RunInv | bud/src/instance.rs:41-110 | the invariant of all runs: lock table and processes agree, and whoever blocked a refused attempt is accountable for it |
| InstanceLock.Blocker | bud/src/instance.rs:57-77 | the process that blocks a refused attempt is still acquiring, succeeded, was aborted, or was itself refused only a strictly greater root |
| InstanceLock.BlockerChain | bud/src/instance.rs:57-77 | from every refused attempt, the chain of attempts that blocked each other on ever greater roots ends at one that was not refused |
| InstanceLock.RefusedForAWinner | bud/src/instance.rs:57-77 | in every run, the last attempt of that chain is still acquiring, got all its roots, or was aborted by an error |
| InstanceLock.SomeoneWins | bud/src/instance.rs:57-77 | once every attempt of a run is settled, some attempt got all its roots, unless one was aborted by an error |
| InstanceLock.FileLocks.Acquire | bud/src/instance.rs:49-78 | without interference: all roots if all are free, otherwise none, for any list with duplicates in any order |
| InvocationMode.StepInv | service/src/invocation-startup.ts:44-81 | every query, and the loss of any connection at any point, keeps the invariant: locks are held exactly as the phases say, one process at a time is past the transaction lock, and after its probe nobody holds the opposite mode |
| InvocationMode.ModesExclusive | service/src/invocation-startup.ts:44-81 | no reachable state, whatever processes it has, holds shared locks of both modes |
| InvocationMode.SharersAgree | service/src/invocation-startup.ts:44-81 | any two processes that have got their shared locks, committed or not, are in the same mode |
| InvocationMode.JoinGranted | service/src/invocation-startup.ts:67-67 | the final shared lock can always be granted at once when it is requested |
| InvocationMode.ProbeTurnsAway | service/src/invocation-startup.ts:49-52 | in every reachable state, the probe turns a process away if and only if a process of the opposite mode has its shared lock |
| InvocationMode.StartSucceeds | service/src/invocation-startup.ts:44-68 | from every reachable state with nobody past the transaction lock and nobody sharing the opposite mode, the queries of a process alone bring it to running in its mode, however many share that mode, and change no other process |
| InvocationMode.ModeAsStarted | service/src/invocation-startup.ts:47-48 | in every run, a process is in the mode it was started in |
| InvocationMode.LossFrees | service/src/invocation-startup.ts:69-81 | a connection can be lost at any point and takes all its locks with it |
| InvocationMode.NoDeadlock | service/src/invocation-startup.ts:44-68 | while any process is starting, some starting process can make its next query, and that brings it nearer to its end |
| TargetOwnership.Sweep | bud/src/browser/adapter.rs:513-529 | a sweep adds only justified owners, changes none, and reports no change only at a fixpoint |
| TargetOwnership.Adopt | bud/src/browser/adapter.rs:509-533 | every listed target keeps the owner it had, only listed targets have owners, and with distinct ids a target ends owned by w exactly when its opener chain leads through unowned pages to a listed target owned by w before; the cap on sweeps never cuts this short |
| TargetOwnership.LeastFixpoint | bud/src/browser/adapter.rs:512-533 | a justified and closed map is exactly the relation of opener chains |
| TargetOwnership.FixpointUnique | bud/src/browser/adapter.rs:512-533 | there is only one such map |
| TargetOwnership.OrderIndependent | bud/src/browser/adapter.rs:509-533 | the result does not depend on the order of the target list |
| LocalLlm.ReadRequestBody | bud/src/local_llm.rs:588-637 | a body is returned exactly when contiguous chunks first make up the advertised length (for length zero, an empty end-of-stream chunk), and it is their concatenation; the reader waits exactly while the events so far are a proper beginning of such a delivery |
| LocalLlm.TakeEvent | bud/src/local_llm.rs:656-660 | credit is added up to the counter's limit, and exactly the excess is lost |
| LocalLlm.WaitForCredit | bud/src/local_llm.rs:647-670 | returns ready only with enough credit; ends only on an event that is not credit; accounting kept |
| LocalLlm.Drain | bud/src/local_llm.rs:683-704 | applies any number of arrived events and stops only on one that is not credit; accounting kept |
| LocalLlm.SendChunk | bud/src/local_llm.rs:499-515 | segments of at most the limit, contiguous, each paid for before it is sent, together the chunk or a prefix of it |
| LocalLlm.Respond | bud/src/local_llm.rs:411-518 | for every upstream history and event sequence: offsets contiguous from 0, segments between 1 byte and the stream's limit (16 KiB unless given, at most 1 MiB), a prefix of the response (all of it, with its length as final offset, on close); bytes sent, credit left and credit lost to saturating additions make up exactly the initial credit (1 MiB unless given) and the credit applied; it goes on or closes only as long as nothing but credit arrives, and there is a reason for every stop |
| Cdp.Connection.Call | bud/src/browser/cdp.rs:99-183 | for any frames: the answer is the response with the new id, rejected or not, if and only if some frame is that response and every frame before it is a text with another id, an answered ping or an ignored message; otherwise it is unknown and the channel stays poisoned; a poisoned channel refuses |
| Cdp.AnswerExact | bud/src/browser/cdp.rs:130-181 | the same of the specification of a call |
| Cdp.ChannelSerial | bud/src/browser/cdp.rs:99-183 | over any sequence of calls, a command is sent only after every earlier one was answered with its own id, and ids ascend |
| Cdp.OwnResponse | bud/src/browser/cdp.rs:133-146 | the response returned is one of the frames received and carries the id of the call |
| Cdp.PoisonedForever | bud/src/browser/cdp.rs:105-107 | a poisoned channel never changes again, whatever is called |
| Cdp.NothingAfterUnknown | bud/src/browser/cdp.rs:115-182 | after a timeout, transport or decode error or dropped call, no later call sends anything |
| CaptureFocus.LifetimesApart | bud/src/browser/adapter.rs:1029-1075 | in an orderly history, once a capture or a stream has begun, nothing else begins, no window is hidden and emulation is requested for nothing else before it is over |
| CaptureFocus.AllSoundStep | bud/src/browser/screencast.rs:312-395 | every step of every stream task, whenever it starts, switches on, cleans up, fails or is fenced, keeps what the adapter relies on: emulation is requested only by the stream on record, and a confirmed cleanup means it is off |
| CaptureFocus.OnlyRecorded | bud/src/browser/screencast.rs:366-393 | only the stream on record can have emulation on, and not once its cleanup is confirmed |
| CaptureFocus.StreamFocusesToo | bud/src/browser/screencast.rs:337-346 | `capture_focus` alone does not name every target with emulation: a stream just handed out can switch it on with no capture on record |
| CaptureFocus.Adapter.FinishCaptureFocus | bud/src/browser/adapter.rs:1029-1075 | forgets the focused target only when switching off was acknowledged or the target is gone; otherwise the cleanup stays pending |
| CaptureFocus.Adapter.RetireStream | bud/src/browser/adapter.rs:1864-1879 | clears the stream's flag, waits for its cleanup, and forgets it only when confirmed; an unconfirmed cleanup fails it for good |
| CaptureFocus.Adapter.FocusedCapture | bud/src/browser/adapter.rs:1195-1223 | the target is on record before emulation is requested and stays so through rejection, loss or abandonment at any await |
| CaptureFocus.Adapter.CaptureAttempt | bud/src/browser/adapter.rs:1182-1224 | keeps the invariant; succeeds exactly when every await was acknowledged and every cleanup confirmed, and then no capture is focused; no lifetime begins before the stream and the capture before it are confirmed over |
| CaptureFocus.Adapter.PrepareStream | bud/src/browser/adapter.rs:1423-1460 | a private stream is handed out only with no lifetime open, is then the one on record, and fails only if an await was not acknowledged or a cleanup not confirmed |
| CaptureFocus.Adapter.HideBeforeReturn | bud/src/browser/adapter.rs:730-737 | the return to hidden goes ahead only with no lifetime open |
| CaptureFocus.Drive | bud/src/browser/adapter.rs:1029-1224 | after any sequence of operations, each failing or abandoned anywhere, with stream tasks interleaved in any way: emulation may be on for at most one target, that of the capture on record or of the stream whose cleanup is awaited, never both, and the history is orderly |
| CacheTee.Tee.FinishPull | deploy/get-bud-dev/release-delivery.js:81-98 | whatever the read gives and whatever was cancelled meanwhile: the client gets every chunk read, the cache gets it if it fits the room left and is abandoned otherwise, both close together, and exceptions from a cancelled client stream end in the error path |
| CacheTee.Tee.OfferToCache | deploy/get-bud-dev/release-delivery.js:90-93 | the cache is fed exactly when the chunk fits into the desired size |
| CacheTee.Tee.CancelClient | deploy/get-bud-dev/release-delivery.js:99-99 | a cancelled download stops the cache with an error |
| CacheTee.Tee.CancelCache | deploy/get-bud-dev/release-delivery.js:75-75 | a cache writer that gives up does not touch the client |
| CacheTee.Deliver | deploy/get-bud-dev/release-delivery.js:69-102 | after any events in any order the client has a prefix of the origin's bytes (all on close), the cache closes normally only after exactly the whole body, and its unread queue is at most 256 KiB |
| SseDetector.BoundarySuffices | service/src/access-log.ts:52-58 | three masked characters stand for the whole text when more text follows: the same patterns of line breaks are found |
| SseDetector.BoundaryNext | service/src/access-log.ts:58-58 | the kept characters are those of the whole text after each chunk |
| SseDetector.Detector.Write | service/src/access-log.ts:47-61 | fires exactly when this chunk makes the event-stream text contain an empty line for the first time; other writes change nothing |
| SseDetector.FirstFrame | service/src/access-log.ts:45-61 | for every cutting of a stream into chunks, fires at exactly the first chunk where the concatenation contains LF LF or CR LF CR LF |
| RequestMetrics.RequestMetrics.Observe | service/src/request-metrics.ts:9-26 | keeps every row a true summary of all accepted observations of its key, and the overflow count the number of accepted observations without a row |
| RequestMetrics.RequestMetrics.Drain | service/src/request-metrics.ts:27-31 | hands out the rows in the order they were opened and starts afresh |
| RequestMetrics.Interval | service/src/request-metrics.ts:6-32 | for every sequence of observations: rows are distinct, at most 2048, and each has the count, total time, bucket counts and sizes of the observations with its verb, route and status hundred; row counts plus dropped observations are all accepted observations; nothing is dropped before the rows are full |
| RequestMetrics.RowMeans | service/src/request-metrics.ts:9-26 | a row summarises exactly the finite, non-negative durations observed for its normalised method, route and status class |
| RequestMetrics.RowBucketsSum | service/src/request-metrics.ts:21-24 | the bucket counts of a row add up to its count |
| RequestMetrics.RunningTotal | service/src/request-metrics.ts:23-24 | the counts up to a bucket are the durations that do not exceed its bound |
| RequestMetrics.PercentileUpperBound | service/src/request-metrics.ts:35-44 | for any counts and any quantile, the bound of the first bucket at which the running total reaches the target, none if there is none or the target is zero |
| RequestMetrics.PercentileMeans | service/src/request-metrics.ts:35-44 | for a quantile in (0,1], the least listed bound that at least ceil(q*n) durations do not exceed; none exactly when nothing was recorded or too few lie within the last bound |
| RunQueue.RunExecutor.Enqueue | bud/src/run.rs:116-138 | accepts exactly when fewer than ten wait, appends in order, and starts a run when none is in flight |
| RunQueue.RunExecutor.FinishAndStartNext | bud/src/run.rs:167-180 | the oldest waiting command, and nothing else, is started |
| RunQueue.Drive | bud/src/run.rs:116-180 | over every interleaving: accepted commands are started ones followed by the queue, a command is accepted exactly when fewer than eleven are unfinished, at most one is in flight, it is the last started and `current_run` names it, and a waiting command implies one in flight |
| RunQueue.StreamPipes | bud/src/run.rs:287-316 | for every interleaving of both pipes, read errors and a closing channel: frames are numbered consecutively from 0 (until the 64-bit counter wraps), and each pipe's frames carry exactly its bytes up to its end or the closing |
| EnvFile.UnquoteQuote | bud/src/lifecycle.rs:407-409 | unquoting undoes `sh_single_quote` for every value |
| EnvFile.UnquoteOthers | bud/src/lifecycle.rs:328-335 | double quotes are taken off as they are, and text that does not begin with a quote is left alone |
| EnvFile.AssignsIffMatches | bud/src/lifecycle.rs:314-362 | the parser assigns a key on a line exactly when setting the key replaces the line, with the exception of bare `export` lines for the key `export` |
| EnvFile.RemovedIffMatches | bud/src/lifecycle.rs:386-397 | removal takes out exactly the matching lines without white space before the equals sign |
| EnvFile.WrittenLine | bud/src/lifecycle.rs:345-345 | the line written for a key parses to that key and value |
| EnvFile.LinesUnlines | bud/src/lifecycle.rs:353-371 | lines joined and ended by a newline are read as those lines, less trailing carriage returns |
| EnvFile.ParseEnvFile | bud/src/lifecycle.rs:314-339 | the loop yields the assignments of the lines, in order |
| EnvEdit.UpsertEnvVar | bud/src/lifecycle.rs:344-377 | the loop with its flag writes the specified text; a missing file counts as empty and an unreadable one is an error |
| EnvEdit.UpsertShape | bud/src/lifecycle.rs:351-369 | the new line takes the place of the first line for the key, or the end, among the lines that are not for it, which all stay, comments included, in order |
| EnvEdit.UpsertParses | bud/src/lifecycle.rs:314-377 | for every text, legal key and value: the key is assigned exactly once, to the value, if and only if the value has no newline and no bare `export` line stands in the way of the key `export`; without a newline the other assignments are unchanged and in order |
| EnvEdit.UpsertOthers | bud/src/lifecycle.rs:314-377 | for every value, the other assignments are unchanged if and only if the written text makes none of its own |
| EnvEdit.ExportNotReplaced | bud/src/lifecycle.rs:354-358 | the exception exists: with a line `export =…`, setting the key `export` leaves more than the new assignment |
| EnvBytes.UpsertRawLines | bud/src/lifecycle.rs:341-377 | for every text, key and value, replaced or new: the lines that are not for the key are kept byte for byte, the last one ended by a newline, if and only if none of them ends in CR LF and the written text brings no such line |
| EnvBytes.OtherLinesKept | bud/src/lifecycle.rs:341-377 | for a legal key and a newline-free value, CR LF endings of those lines alone decide |
| EnvBytes.UpsertBytes | bud/src/lifecycle.rs:341-377 | as a special case, a key that is not in the file leaves the whole text as it was plus one line if and only if it has no CR LF |
| EnvBytes.CrLfLost | bud/src/lifecycle.rs:341-377 | any text with a CR LF line that is not for the key is not kept byte for byte |
| EnvEdit.RemoveEnvVar | bud/src/lifecycle.rs:380-405 | the filter with its flag computes the specified text and rewrites only if some line goes |
| EnvEdit.RemoveParses | bud/src/lifecycle.rs:379-405 | the other assignments are unchanged, and none of the key is left if and only if no assignment of it has white space before its equals sign |
| EnvEdit.SpacedNotRemoved | bud/src/lifecycle.rs:386-397 | such assignments are left |
| EnvEdit.RemoveAfterUpsert | bud/src/lifecycle.rs:341-405 | for every value: setting and then removing a key leaves no assignment of it if and only if the key was replaceable and the written text holds none that removal overlooks; for every newline-free value it holds none, and all other assignments stay |
| BudName.CandidatesDistinct | service/src/bud-name.ts:79-81 | numbered candidates are pairwise distinct however much of the base is cut off |
| BudName.VariantIffFits | service/src/bud-name.ts:47-53 | a candidate is recognised as a variant of the base exactly when nothing was cut off |
| BudName.CandidateLength | service/src/bud-name.ts:79-81 | a candidate is at most 120 code units long exactly when its number has at most 119 digits |
| BudName.SearchName | service/src/bud-name.ts:79-85 | the unbounded search ends for every finite set, within one try more than there are taken names, at the least free number |
| BudName.BaseMeans | service/src/bud-name.ts:65-65 | the base is the requested name without surrounding white space, cut to 120 code units, or "bud" |
| BudName.DecimalValue | service/src/bud-name.ts:80-80 | the suffix is the number in decimal without leading zeros |
| BudName.VariantMeans | service/src/bud-name.ts:47-53 | a variant is the base, a dash and at least one digit |
| BudName.PickBudName | service/src/bud-name.ts:60-86 | the name is never taken; a current name is kept when recognised and free; otherwise the base or the least free candidate, at most 120 long |
| BudName.PickedUnique | service/src/bud-name.ts:60-86 | the rule determines the name |
| BudName.KeptOnReconnect | service/src/bud-name.ts:68-74 | a name is returned again whenever it is free, whatever else is taken, exactly when it is recognised |
| BudName.NewNameKept | service/src/bud-name.ts:47-86 | a newly suffixed name is recognised exactly when base and suffix fit into 120 code units |
| BudName.LongNameLost | service/src/bud-name.ts:60-86 | for every base of 119 or 120 code units: with the base taken a suffixed name is given, and once the base is free the Bud is given the base instead of keeping its name |
| AccentColor.PickNextAccentColor | service/src/bud-accent.ts:34-51 | the first palette colour with the fewest uses, computed by the counting and minimum loops |
| AccentColor.OrderUnique | service/src/bud-accent.ts:59-66 | there is only one way to put rows in creation order |
| AccentColor.OrderIndependent | service/src/bud-accent.ts:73-88 | with distinct ids, fallback colours do not depend on the order of the input |
| AccentColor.PersistedKept | service/src/bud-accent.ts:73-88 | stored colours are kept, every other row gets a palette colour, and nothing else changes |
| AccentColor.ClaimMatchesList | service/src/bud-accent.ts:73-97 | the claim-time colour is what the list would give a Bud created last, and the others are shown as before |
| AccentColor.ClaimLatest | service/src/bud-accent.ts:59-97 | the same in terms of creation times, a missing one counting as 0 |
| AccentColor.Balanced | service/src/bud-accent.ts:34-88 | a palette colour that was handed out ends at most one use above the least used one |
| AccentColor.WithFallbackAccentColors | service/src/bud-accent.ts:73-88 | the loops compute the specified list |

## Left out

- UTF-8, JSON, base64 and RFC 3339 are parameters of the codec, not modelled; error texts are not modelled.
- The sums of machine-sized lengths in the reader (bud/src/proto_wire.rs:1829-1832, 1848-1849) are natural numbers, so an overflow of the address range is not captured.
- The bits of a varint are added, where the program uses a bitwise or of disjoint bits.
- Frame types with a reader but no field-level writer (the terminal frames) take part in the theorems about unknown fields and frame_json, not in the field-level round trip, which needs a writer.
- InstanceLock: the momentary shared lock of `running_pid`, the contents of lock and pid files, and path resolution.
- InvocationMode: the callback on a lost connection and the SQL of the schema checks, whose outcome is free.
- TargetOwnership: the filtering and session pruning around the ownership closure.
- CaptureFocus: target ids are not used again, and a late execution of a capture's focus command whose acknowledgement was lost does not outlive a later acknowledged switching off on another connection; the frames of a stream are not modelled.
- LocalLlm: at most one running task is not claimed; the opening handshake and headers are not modelled.
- CacheTee: the pull schedule of the stream machinery is free, which includes every real schedule; piping through a fixed-length stream, range requests and cache look-ups are not modelled.
- SseDetector: a character stands for a UTF-16 code unit; the detector looks only for CR and LF.
- RequestMetrics: durations, sums and quantiles are real numbers, so floating-point rounding is not captured; rows are keyed by the three parts instead of their JSON text.
- RunQueue: run execution itself, the working directory and the `run_finished` frames.
- BudName: the database query for the other names.
- AccentColor: creation times are valid dates, and ids are compared by character rather than UTF-16 code unit, which agree for the ids in use; the range check for user-chosen colours is not modelled.
- Network, TLS, WebSocket and gRPC plumbing, launching Chrome, file downloads, archives, prompts, service files and user interface: input and output with few claims of their own.
