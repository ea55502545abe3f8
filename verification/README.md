# Verification of the agent runtime's stateful core

A Dafny 4.11 model of the parts of the repository that keep state across calls, crashes, threads or
arbitrary splits of a byte stream, with proofs about whole runs of them.  `dafny verify dfyconfig.toml`
checks everything; the modules are independent of each other except where they import.

| component | modules |
|---|---|
| JSONL logs: rotation, crash points, tail reads | `FileSystem`, `JsonlLog`, `JsonlSizes`, `JsonlTail`, `JsonlLines`, `TailRecords` |
| session files: codec, save and load, crash safety | `Messages`, `SessionCodec`, `SessionFormat`, `SessionStore`, `SessionMarkers`, `SessionFallback` |
| memory index: chunker, concurrent indexing, tables | `MarkdownChunker`, `MarkdownCuts`, `IndexProtocol`, `MemoryIndex` |
| broker connector: frames, reader, concurrent sends | `WebSocketFrames`, `WebSocketLayout`, `BrokerConnector`, `BrokerOutcomes` |
| OpenAPI bundler | `ReferenceGraph`, `OpenApiBundle`, `OpenApiReferences`, `OpenApiScan` |
| streaming: SSE parser, retries, deltas, framing, tool calls | `Stepper`, `SseParser`, `SseFields`, `RetryLoop`, `RetryBackoff`, `RetryNumbers`, `StreamRetry`, `StreamEvents`, `StreamAdapter`, `SseFraming`, `SseStandard`, `ToolCalls` |
| Base64, pinned prompts, JSON strings | `BlockCoding`, `Base64`, `Base64Table`, `HostPrompts`, `HostHead`, `JsonString`, `JsonFields` |
| shared string functions | `Text` |

How the model is built:

- A string of bytes is a `string` whose characters are bytes (`seq<bv8>` for WebSocket frames).  Code that
  updates fields, files or buffers in place is a class or a loop, proved against a function of its
  inputs or of its old state; the properties are then lemmas about that function.
- `FileSystem.Disk` records every directory state an operation passes through.  A crash may happen in any
  of them, so "at every crash point" is a statement about that trace.
- Threads and processes are state machines over atomic steps (`BrokerConnector`, `IndexProtocol`).  A run
  is any sequence of enabled steps; theorems hold for all runs.
- `recv`, the network, the random generator, the JSON library, path resolution and the outcome of each SQL
  statement are parameters or nondeterministic choices.
- Each `Stepper`, `BlockCoding`, `ReferenceGraph` and `IndexProtocol` theorem is about any machine, code,
  graph or chunker, and is then used for the real one.
- The theorems about runs, splittings and references are stated over functions such as "this append
  rotates" or "this line starts a chunk".  What those functions say is stated once more, without them, in
  numbers and characters: `JsonlSizes`, `SessionFormat`, `SessionMarkers`, `MarkdownCuts`, `WebSocketLayout`,
  `BrokerOutcomes`, `OpenApiReferences`, `OpenApiScan`, `SseFields`, `RetryNumbers`, `StreamEvents`,
  `HostHead`, `Base64Table` and `JsonFields`.

Where the code does less than it seems to promise, a lemma gives a concrete input and another one the exact
condition:

- A tail read over several files may skip records in the middle, because a file that was cut leaves part of
  the budget to older files (`GapIffRefills`); and it may exceed its byte limit by the line feed it adds to
  an unterminated backup (`LimitKeptIffNoTornBackup`), which a crash and a rotation leave
  (`CrashThenRotationTears`).
- A record whose append crashes is not completed.  The next one that finishes shares its line
  (`Fused`) exactly when it is appended to bytes left there; it does not when a rotation lies between them
  (`CrashCostsTheNextRecord`, `Apart`).
- Saving is not crash-safe where rename does not replace its target and `.json` is not up to date
  (`SaveIsCrashSafe`); two crashes then bring back an old session.  `SafeIffNoneLoses` says in which runs.
- Contents are handed over as C strings: codec, filter and prompt rebuild cut them at the first NUL.
- The clean-up for an unreadable memory file is two statements outside a transaction: two indexers can
  leave a file that counts as indexed and has no chunks (`TwoIndexersCanLoseChunks`), and nothing else can
  (`IndexIsSound`).
- A WebSocket data frame can follow the close frame, which section 5.5.1 of RFC 6455 forbids
  (`ResultCanFollowClose`; `NothingFollowsCloseIff` says when none does).
- Bundling is not idempotent when the value of a `$ref` starts with `|` or `>`: the line is then also taken
  for a block scalar header (`HarmlessIffTame`, `StableIffPlain`).
- The proxy fallback repeats chunks (`ChunksComeFromOneRequest`).
- With tuning, the back-off shrinks for some bases of 2^34 ms and more, because its shift wraps around
  (`BackoffWrapsAtTheBound`); `BackoffIsMonotone` says for which.  Without tuning it is 0 at some retries
  (`UntunedIsExponential`).
- Both base64 decoders ignore the bits that padding leaves unused (`EncodingComesBackIff`).
- The comment at cli/src/openai_client.cpp:318-320 says excess events are dropped.  They are not: the parser
  keeps them and the next write gives them (`PartsGiveAllInOrder`); only those of the last write are lost.
- The SSE framing trims one carriage return a line and the parser another, so a line that ends in two loses
  both (`RoundTripThroughCore`).
- With an unknown host profile the pinned prompts are rebuilt at every call (`UnknownProfileNeverSettles`).
- The JSON reader takes `\b` and `\f` for the letters and `\u` escapes above 007F for `?`
  (`ReaderAgreesWithStandard`), and steps past the end of a text that ends inside a `\u` escape
  (`StepsPastIff`).

## Model

| member | source | states |
|---|---|---|
| FileSystem.Disk.Append | cli/src/session_store.cpp:449-464 | opening for appending and writing leaves the old content followed by the data, and the recorded trace holds one directory state per byte written |
| FileSystem.Disk.RenameOrReplace | cli/src/session_store.cpp:147-160 | after remove-then-rename the target has the source's bytes; the trace shows the moment without the target exactly where rename does not replace |
| JsonlLog.ShiftBackups | cli/src/session_store.cpp:422-446 | the rotation loop ends in the closed form of the shift, and every crash point inside it is a shift that is finished from some file on |
| JsonlLog.Rotate | cli/src/session_store.cpp:415-447 | rotation as a whole, including truncation when no backups are kept; every state on the way is one a crash of the call can leave |
| JsonlLog.ShiftedAt | cli/src/session_store.cpp:422-446 | what the shift does, name by name: file i-1 is now i, the first place is free, every other name is untouched, holes move along |
| JsonlLog.AppendJsonl | cli/src/session_store.cpp:401-465 | one append with its three statuses: new directory and status when all goes well, what is left when the directory or the file cannot be opened, and every state a crash can leave |
| JsonlSizes.AppendBySizes | cli/src/session_store.cpp:403-464 | an append in numbers: a record above its limit is refused and changes nothing; when max_bytes is 0 or baractivebar + barrecordbar + 1 is at most max_bytes the line is added to the active file and no other name changes; otherwise the active file is that line alone, files 1 to max_files - 1 are those one place below, and no other name changes |
| JsonlSizes.FittingRunDropsNothing | cli/src/session_store.cpp:414-464 | a run of accepted records whose lines fit behind what the active file holds drops nothing and touches nothing else |
| JsonlSizes.RunKeepsEnough | cli/src/session_store.cpp:414-447 | what a run keeps at least, from any directory: every backup it began is so full that the longest line did not fit, the files of the start have moved up as often as it rotated, and as long as the backups suffice all that was written is kept |
| JsonlLog.OutcomeShows | cli/src/session_store.cpp:414-464 | at every such crash point the bytes of all files, oldest first, are those of the finished rotation followed by a prefix of the record |
| JsonlLog.CallRefinesPieces | cli/src/session_store.cpp:514-581 | a call on bytes, finished or crashed anywhere, refines the call on lists of written pieces |
| JsonlLog.CallTouchesOwnFiles | cli/src/session_store.cpp:514-581 | it touches no file of the other log and none beyond the oldest backup |
| JsonlLog.CallDropsOldestPart | cli/src/session_store.cpp:407-447 | a call drops exactly the oldest file when it rotates, and nothing otherwise, wherever it crashes |
| JsonlLog.RunKeepsNewestPieces | cli/src/session_store.cpp:401-465 | from any directory, after any run of calls of which any may crash: the log is a suffix of what it was followed by all that was written, cut between pieces; holes that crashes leave among the backups do not matter |
| JsonlLog.RunRetainsNewestRecords | cli/src/session_store.cpp:401-465 | from any directory of records, after any run of finished appends the log is a record-aligned suffix of what it held and all that was accepted, ending in the newest record |
| JsonlLog.RunStaysBounded | cli/src/session_store.cpp:403-447 | from any directory, over any run with crashes: with both limits set no file grows beyond max(max_bytes, max_record_bytes + 1), or beyond the largest it started with, and no file past the first max(1, max_files) is created or touched |
| JsonlLog.UnlimitedRunKeepsEverything | cli/src/session_store.cpp:401-465 | without a size limit the active file keeps what it held, gains every accepted record, and nothing else changes |
| JsonlLog.CrashLeavesWholeRecordsAndATear | cli/src/session_store.cpp:401-465 | at every crash point of an append after any run on a directory of records the files hold, oldest first, the newest records, whole and in order, then a prefix of the record being written |
| JsonlTail.ReadTailFile | cli/src/session_store.cpp:90-128 | seeking, reading and cutting one file give the specified tail |
| JsonlTail.TailIsLongestAlignedSuffix | cli/src/session_store.cpp:90-128 | the tail is the whole file when it fits and otherwise the longest line-aligned suffix shorter than max_bytes; with max_bytes 0 it is empty |
| JsonlTail.ReadTailMulti | cli/src/session_store.cpp:472-512 | the loop over files with its remaining budget computes the recursive reader |
| JsonlTail.ReadAssembles | cli/src/session_store.cpp:493-508 | reading equals taking each file's chunk for what is left of the budget and joining the chunks oldest first |
| JsonlTail.UnterminatedBackupExceedsBudget | cli/src/session_store.cpp:499-506 | after one crash and one append that rotates the multi-file reader returns five bytes under a limit of four |
| JsonlTail.LimitKeptIffNoTornBackup | cli/src/session_store.cpp:472-512 | the multi-file reader keeps every byte limit if and only if no backup without its last line feed lies behind a non-empty newer file |
| JsonlTail.CrashThenRotationTears | cli/src/session_store.cpp:414-464 | a crash inside a record followed by an append that rotates always leaves such a backup |
| JsonlTail.ReadsOneFile | cli/src/session_store.cpp:484-494 | asked for one file or for none the multi-file reader is the single-file one |
| JsonlTail.ReadsTwoFiles | cli/src/session_store.cpp:496-508 | asked for two files that fit it puts the backup first, with a line feed behind it where that is missing |
| JsonlLines.FileIsLines | cli/src/session_store.cpp:459-463 | every file of any directory is its lines and, behind the last of them, what crashes left there |
| JsonlLines.CallAddsItsLines | cli/src/session_store.cpp:401-465 | a call, finished or crashed anywhere, adds its lines at the end of the files' lines and drops exactly those of the oldest file when it rotates |
| JsonlLines.CrashedLog | cli/src/session_store.cpp:401-465 | from any directory, after any run of calls of which any may crash: the lines of the files, oldest backup to active file, are a suffix of those at the start and those the calls wrote |
| JsonlLines.WhatACallLeaves | cli/src/session_store.cpp:414-464 | what a call leaves behind the last line feed of the active file: nothing when it finishes or moves that file away, otherwise its own bytes, behind those that were there unless it rotated first |
| JsonlLines.OneLinePerFinishedCall | cli/src/session_store.cpp:459-464 | as many lines are written as calls with accepted records finish |
| JsonlLines.CrashCostsTheNextRecord | cli/src/session_store.cpp:403-463 | what a crash costs: in any run of calls with newline-free records the finished ones write one line each, in their order; the line of a finished call is its record alone if and only if its append rotates first, or finds the active file empty or ending in a line feed, and otherwise the bytes left there followed by the record |
| JsonlLines.Fused | cli/src/session_store.cpp:459-463 | a concrete crash whose next record shares its line |
| JsonlLines.Apart | cli/src/session_store.cpp:414-463 | the same two calls under a size limit: a rotation lies between them and the record is alone on its line |
| JsonlLines.ReaderKeepsLines | cli/src/session_store.cpp:472-512 | from any directory, so after crashes too, the multi-file reader gives of each file it reads the newest lines, within max_bytes, and what a crash left behind the last of them as a line of its own when newer text follows |
| TailRecords.TailOfRecords | cli/src/session_store.cpp:90-128 | on a file of newline-free records the tail is all records, or the most that take fewer than max_bytes bytes |
| TailRecords.FittingIsLongestSuffix | cli/src/session_store.cpp:113-126 | those records are a suffix of the file's, and every longer suffix takes max_bytes or more |
| TailRecords.MultiTailReadsWholeRecords | cli/src/session_store.cpp:588-629 | the multi-file reader returns whole records in order within max_bytes; it is a contiguous suffix of the log when no budget is refilled, and it leaves a gap exactly when the sizes say that one is |
| TailRecords.ChosenAreSuffixes | cli/src/session_store.cpp:588-629 | from each file it takes that file's newest records |
| TailRecords.GapIffRefills | cli/src/session_store.cpp:492-508 | a record is skipped if and only if a file was cut and the rest of the budget still bought a record of an older file |
| TailRecords.RoomyBudgetNeverRefills | cli/src/session_store.cpp:492-508 | a budget as large as the files never leads to that |
| TailRecords.RefilledBudgetSkipsARecord | cli/src/session_store.cpp:492-508 | a concrete log in which the reader skips the middle record |
| TailRecords.RecordsAfterRun | cli/src/session_store.cpp:401-465 | a directory of newline-free records is one again after any run of finished appends: the files of this configuration hold a suffix of all records, and backups beyond them, left by one that kept more, stay as they are |
| TailRecords.TailAfterRun | cli/src/session_store.cpp:472-512 | append any newline-free records to a directory of such, then read: whole records in order, and without a refill exactly the newest ones, of the log alone when no backup beyond this configuration is asked for |
| SessionCodec.EscapeContent | core/src/agent_session_codec.c:91-126 | the escaping loop computes Escape |
| SessionCodec.UnescapeContent | core/src/agent_session_codec.c:135-188 | the unescaping loop computes Unescape, malformed escapes included |
| SessionCodec.UnescapeEscape | core/src/agent_session_codec.c:91-188 | unescaping undoes escaping on every content |
| SessionCodec.EscapeIsOneField | core/src/agent_session_codec.c:91-126 | escaped text holds no tab, line feed or carriage return, so it stays one field of one line |
| SessionCodec.EncodeSession | core/src/agent_session_codec.c:190-241 | the encoder's loop over the messages |
| SessionCodec.DecodeSession | core/src/agent_session_codec.c:259-349 | the decoder's loop over the lines, with its error cases |
| SessionCodec.DecodeEncode | core/src/agent_session_codec.c:190-349 | decoding an encoded session gives the session with each content cut at its first NUL |
| SessionCodec.DecodeEncodeExact | core/src/agent_session_codec.c:190-349 | it gives the session itself if and only if no content holds a NUL |
| SessionFormat.WrittenInCharacters | core/src/agent_session_codec.c:190-241 | the file is the header line and, message by message, M, role and escaped content between tabs |
| SessionFormat.RolesByName | core/src/agent_session_codec.c:190-349 | four roles, by these names and no others, both ways |
| SessionFormat.EscapesInCharacters | core/src/agent_session_codec.c:91-126 | the escape of each character: four by letter, other control characters and 7F by two upper-case hexadecimal digits, any other none |
| SessionFormat.EscapeReadInFront | core/src/agent_session_codec.c:135-188 | which letters may follow a backslash, what they mean, and that no other can be read |
| SessionFormat.HexEscapeReadInFront | core/src/agent_session_codec.c:135-188 | the hexadecimal escape takes two digits, of either case, the first one counting sixteen |
| SessionFormat.ReadInCharacters | core/src/agent_session_codec.c:259-349 | a message line of any writer, with plain text, in front of others is read as that message in front |
| SessionFormat.SkippedLine | core/src/agent_session_codec.c:259-349 | blank lines and comments are skipped wherever they are |
| SessionFormat.OtherLineFails | core/src/agent_session_codec.c:259-349 | any line of another form makes the file unreadable |
| SessionStore.FilterMessages | cli/src/session_store.cpp:177-203 | the filter drops portable tool transcript markers and copies the rest as C strings |
| SessionStore.MessagesForJson | cli/src/session_store.cpp:305-331 | the list written to .json leaves the same markers out |
| SessionStore.StoredFormsAgree | cli/src/session_store.cpp:163-283 | the session read back from .sess and the one read back from .json are the same filtered session |
| SessionStore.FilteringKeepsText | cli/src/session_store.cpp:16-27 | the filter only removes markers if and only if no message it keeps holds a NUL |
| SessionMarkers.LoadedAsSaved | cli/src/session_store.cpp:16-27 | a saved session is loaded, each content up to its first NUL, if and only if no assistant message starts with "[tool_call] name=" or "[tool_result] name="; as it was, if and only if no content holds a NUL either |
| SessionMarkers.LoadedInFront | cli/src/session_store.cpp:177-203 | one message in front of a session is loaded in front, or not at all if it is such a message, and changes nothing else |
| SessionMarkers.WrittenInFront | cli/src/session_store.cpp:305-331 | the same of the list written to .json |
| SessionMarkers.LoadedInWords | cli/src/session_store.cpp:206-283 | what a load does with whatever it finds, the failing case included |
| SessionStore.LoadSession | cli/src/session_store.cpp:206-283 | .sess first, .json when that cannot be used |
| SessionStore.WriteFileAtomic | cli/src/session_store.cpp:130-161 | write-temporary-then-rename: final directory and every directory state on the way |
| SessionStore.SaveSession | cli/src/session_store.cpp:285-338 | a save: final directory and every state on the way |
| SessionStore.SaveIsCrashSafe | cli/src/session_store.cpp:130-161 | every crash point of a save loads as the old or the new session if and only if rename replaces its target, or there was no .sess, or what loads without .sess already is the old or the new session |
| SessionStore.SaveAfterSaveIsCrashSafe | cli/src/session_store.cpp:285-338 | a save that follows a finished save is crash-safe with either rename |
| SessionStore.LoadAfterSave | cli/src/session_store.cpp:206-338 | without a crash loading gives the filtered session that was saved, also after .sess is lost |
| SessionStore.RunsOfCrashesLoadTheLastRename | cli/src/session_store.cpp:130-338 | over any run of saves, each finished or crashed anywhere, a load finds exactly the last session that got past its rename |
| SessionStore.TwoCrashesOnFallbackRevive | cli/src/session_store.cpp:151-160 | where rename does not replace, two crashes in a row bring back a session older than both |
| SessionFallback.AttemptIsStep | cli/src/session_store.cpp:147-160 | where rename does not replace, a save that finishes or crashes anywhere changes what loads, with and without .sess, as the stage it reached says |
| SessionFallback.RunsFollowTheStages | cli/src/session_store.cpp:130-338 | so does any run of such saves, from any directory, with or without a JSON library |
| SessionFallback.SafeIffNoneLoses | cli/src/session_store.cpp:147-160 | in such a run every load finds the session before the save or the one being saved if and only if no save stops while .sess is missing and what then loads is neither |
| SessionFallback.SafeUnlessStoppedBetween | cli/src/session_store.cpp:285-338 | and from a directory whose two files agree it takes a save that stops between its two renames to get there |
| MarkdownChunker.ChunkMarkdownForIndex | cli/src/memory_index.cpp:77-139 | the loop with its current text, start line and skip flag computes the specified chunks |
| MarkdownChunker.ChunkingIsGreedyPartition | cli/src/memory_index.cpp:77-139 | the lines outside marker blocks are partitioned in order, and a cut is made exactly where the next line would not fit |
| MarkdownCuts.CutsInCharacters | cli/src/memory_index.cpp:124-133 | in characters: no line of a chunk text after its first is a heading or without text; every text after the first begins with a line that is, or whose length and that of the text before it reach the limit |
| MarkdownCuts.KeptInCharacters | cli/src/memory_index.cpp:112-122 | in characters: exactly the lines that do not begin a marker block, and before which every begun block has been ended, are handed on |
| MarkdownCuts.LinesComeBack | cli/src/memory_index.cpp:80-93 | lines ended by a line feed, or by a carriage return and a line feed, come back as they are |
| MarkdownCuts.FirstThousandChunks | cli/src/memory_index.cpp:141-142 | the first thousand chunks are kept |
| MarkdownCuts.TrimInCharacters | cli/src/memory_index.cpp:31-37 | trimming takes the white space of the C locale from both ends and no more |
| MarkdownChunker.GreedyPartitionIsUnique | cli/src/memory_index.cpp:100-136 | such a partition is determined by the lines, so the scan computes the only one |
| MarkdownChunker.HandedTextsAreKeptLines | cli/src/memory_index.cpp:82-136 | the texts handed to flush, concatenated, are exactly the lines outside marker blocks, each with its line feed; each text is shorter than the limit or a single line |
| MarkdownChunker.StartLinesIncrease | cli/src/memory_index.cpp:85-99 | start lines of emitted chunks strictly increase |
| MarkdownChunker.ChunkStartsNearItsText | cli/src/memory_index.cpp:85-136 | a chunk is emitted exactly for a text that is not blank, and only blank or skipped lines lie between its start line and its first text |
| MarkdownChunker.GroupsAreContiguous | cli/src/memory_index.cpp:100-136 | no kept line between two lines of a chunk is missing from it |
| IndexProtocol.IndexIsSound | cli/src/memory_index.cpp:256-338 | in every reachable state, for any number of indexers, writers and crashes: a row with the file's current mtime has exactly the chunks of its current content if and only if it is not stripped, that is, unless the file has chunks and a clean-up of it when unreadable is, or died, between its two statements |
| IndexProtocol.NeverCleanedIsSound | cli/src/memory_index.cpp:266-276 | a path whose chunks no indexer deletes as those of an unreadable file is always sound |
| IndexProtocol.ReadableFileIsSound | cli/src/memory_index.cpp:256-276 | so is a file that is rewritten at will but never deleted or made unreadable |
| IndexProtocol.SoleIndexerIsAlwaysSound | cli/src/memory_index.cpp:365-400 | with one indexer that exception disappears |
| IndexProtocol.SkipsAreSound | cli/src/memory_index.cpp:382-395 | when the comparison finds equal mtimes and the file was not rewritten since its stat, the index already holds what re-chunking would give if and only if the row is not stripped |
| IndexProtocol.TwoIndexersCanLoseChunks | cli/src/memory_index.cpp:266-276 | a run of two indexers after which a file counts as current and has no chunks |
| IndexProtocol.IndexingRun | cli/src/memory_index.cpp:278-338 | the steps of one undisturbed indexer lead to exactly the file's mtime and chunks |
| IndexProtocol.AllVisitedIsARun | cli/src/memory_index.cpp:365-400 | visiting any list of paths in turn is a run of the protocol in which one indexer alone works, from any tables and any stage of the others |
| MemoryIndex.RowsInNumbers | cli/src/memory_index.cpp:266-329 | the rows of a file are those of the chunks, of 1600 characters, of the first 20000 lines of its first 2097152 bytes |
| MemoryIndex.MemoryFilesCanLoseChunks | cli/src/memory_index.cpp:266-276 | that loss with the real chunker and a file of one letter |
| MemoryIndex.ReadFileBounded | cli/src/memory_index.cpp:46-70 | at most the first max_bytes bytes |
| MemoryIndex.InsertChunks | cli/src/memory_index.cpp:316-329 | the loop of insertions gives one row a chunk, in order, unless a statement fails |
| MemoryIndex.Index.IndexOneFile | cli/src/memory_index.cpp:256-338 | indexing one file, any statement failing: other paths are untouched; a failed transaction leaves the entry as it was; a failed clean-up may leave the row without chunks |
| MemoryIndex.Index.Refresh | cli/src/memory_index.cpp:365-408 | a successful refresh brings every allowed file up to date; a failed one leaves each path as it was, up to date, or stripped by a half-done clean-up |
| MemoryIndex.RefreshIsARun | cli/src/memory_index.cpp:365-408 | a refresh beside no writer is such a run: it leaves for every path the row and chunks that the method leaves |
| MemoryIndex.RefreshedEntryIsExact | cli/src/memory_index.cpp:256-338 | after a refresh a readable file is indexed exactly, an unreadable one exactly or not at all, and a second refresh changes nothing |
| WebSocketFrames.BigEndianOfNetworkOrder | tools/agentd_codexw_native_broker_connector.py:537-541 | reading a big-endian field gives the number that was packed |
| WebSocketLayout.SentInNumbers | tools/agentd_codexw_native_broker_connector.py:532-544 | the bytes of a sent frame in numbers, as section 5.2 of RFC 6455 lays them out: 128 + opcode, the masked length in its shortest form, the mask, the masked payload |
| WebSocketLayout.ReadInNumbers | tools/agentd_codexw_native_broker_connector.py:551-564 | what is read from any bytes, in numbers: masked or not, whatever the flags, and None exactly when the frame is not all there |
| WebSocketLayout.DeliveredInNumbers | tools/agentd_codexw_native_broker_connector.py:567-593 | frames of opcode 1 and 8 are delivered, 9 is answered, any other is dropped |
| WebSocketFrames.MaskedTwice | tools/agentd_codexw_native_broker_connector.py:532-544 | masking is its own inverse |
| WebSocketFrames.ParseAfterPrint | tools/agentd_codexw_native_broker_connector.py:532-564 | parsing a sent frame followed by any bytes gives its four-bit opcode and payload and leaves exactly those bytes, in all three length forms |
| WebSocketFrames.NoFrameInAPrefix | tools/agentd_codexw_native_broker_connector.py:551-564 | no proper prefix of a sent frame parses |
| WebSocketFrames.ParseAllOfWire | tools/agentd_codexw_native_broker_connector.py:532-564 | a peer that reads any number of sent frames, cut inside the next one, gets exactly those frames |
| WebSocketFrames.ParseIgnoresWhatFollows | tools/agentd_codexw_native_broker_connector.py:551-564 | bytes that arrive later change nothing about a frame that parses |
| WebSocketFrames.ParseByParts | tools/agentd_codexw_native_broker_connector.py:551-564 | the parser equals the one that reads head, extended length, mask and payload in turn |
| WebSocketFrames.DeliverOfSent | tools/agentd_codexw_native_broker_connector.py:567-593 | what one read makes of a peer's frames: the first text or close frame is delivered, the pings before it are answered, other frames dropped, and what follows stays unread |
| WebSocketFrames.Socket.RecvExact | tools/agentd_codexw_native_broker_connector.py:477-484 | however recv splits the stream, exactly the next bytes, or an end of stream |
| WebSocketFrames.Socket.ReadHead | tools/agentd_codexw_native_broker_connector.py:551-560 | length and mask are read in order |
| WebSocketFrames.Socket.ReadFrame | tools/agentd_codexw_native_broker_connector.py:551-564 | however recv splits the stream, the result is that of parsing it, and exactly the frame is consumed |
| WebSocketFrames.Socket.SendFrame | tools/agentd_codexw_native_broker_connector.py:532-544 | one whole frame with this opcode and payload is appended to the wire, or nothing when no length field can hold the length |
| WebSocketFrames.Socket.ReadJson | tools/agentd_codexw_native_broker_connector.py:567-593 | the loop delivers, answers and leaves unread what parsing the byte stream determines |
| BrokerConnector.PeerReadsWholeFrames | tools/agentd_codexw_native_broker_connector.py:1323-1329 | for every interleaving of main loop, heartbeat and command threads, and also when a send is cut off, a peer gets whole frames in sending order |
| BrokerConnector.OneResultPerCommand | tools/agentd_codexw_native_broker_connector.py:1334-1356 | at most one result a command, with that command's request id; reported count <= results sent <= commands received |
| BrokerOutcomes.ResultsTellOutcomes | tools/agentd_codexw_native_broker_connector.py:1217-1308 | over all runs: every result sent tells how its command ended, which it did once: 200 with its result, 404 with the path, or 500 with the error, and none for an exception outside the handler |
| BrokerOutcomes.FramesInNumbers | tools/agentd_codexw_native_broker_connector.py:1323-1329 | over all runs: results, notices and heartbeats are frames of opcode 1, pongs of 10, and the close frame is empty with opcode 8 |
| BrokerConnector.OnlyStragglersAfterClose | tools/agentd_codexw_native_broker_connector.py:1340-1434 | of the frames complete on the wire only command results and at most one heartbeat follow the close frame; there is one close frame |
| BrokerConnector.NoResultAfterStop | tools/agentd_codexw_native_broker_connector.py:1341-1345 | a command that is still being handled when the stop flag is set never sends a result |
| BrokerConnector.ResultCanFollowClose | tools/agentd_codexw_native_broker_connector.py:1343-1346 | a run in which a result does follow the close frame |
| BrokerConnector.NothingFollowsCloseIff | tools/agentd_codexw_native_broker_connector.py:1341-1346 | in every reachable state in which the close frame is the last one sent, no run ever sends another frame if and only if nobody holds the lock with a send that can finish, the heartbeat is not about to send and no command thread with a reply that fits a frame is past its check of the stop flag, or the socket is closed |
| ReferenceGraph.InlineIsExpansion | tools/openapi_bundle.py:80-121 | what is inlined with a `seen` set equals the plain recursive expansion of the reference graph, indented by the reference's depth |
| ReferenceGraph.ExpansionIsInlined | tools/openapi_bundle.py:101-117 | and the check against `seen` rejects nothing that has an expansion |
| ReferenceGraph.ExpandedChainsDoNotRepeat | tools/openapi_bundle.py:105-107 | where there is an expansion no chain of references repeats one |
| ReferenceGraph.FailureHasChain | tools/openapi_bundle.py:101-116 | every failure has its reason: an empty reference, or a chain that ends badly, in a reference being inlined, or in one it has passed |
| ReferenceGraph.InlineSucceedsIffSane | tools/openapi_bundle.py:80-121 | inlining succeeds if and only if every reachable reference has its block, none is empty and no chain repeats |
| OpenApiBundle.KeyLineIsFirst | tools/openapi_bundle.py:57-59 | the block found is that of the first line that is the key |
| OpenApiBundle.BodyIsLongestRun | tools/openapi_bundle.py:62-65 | its body is the longest run of blank or deeper lines |
| OpenApiBundle.FindBlock | tools/openapi_bundle.py:56-77 | the loops of `_extract_block` compute that block, dedented |
| OpenApiBundle.DedentThenIndent | tools/openapi_bundle.py:66-76 | dedenting is undone by indenting exactly for empty lines, lines with more than the trimmed spaces, and trim 0 |
| OpenApiBundle.BlockTexts | tools/openapi_bundle.py:56-77 | an extracted block has no text its file does not have |
| OpenApiBundle.Bundler.InlineLines | tools/openapi_bundle.py:80-121 | the loop over lines with its mutated `seen` computes the specified inlining, terminates, and leaves `seen` as it was on success |
| OpenApiBundle.Bundler.InlineReference | tools/openapi_bundle.py:101-118 | the recursive step for one reference, with the same guarantee and its three errors |
| OpenApiBundle.BundleSpec | tools/openapi_bundle.py:124-128 | the text of the bundle: each line with a line feed, at least one line feed |
| OpenApiBundle.BundleIsExpansion | tools/openapi_bundle.py:80-128 | bundling gives `out` if and only if some depth of the recursive expansion does |
| OpenApiBundle.BundleSucceedsIffSane | tools/openapi_bundle.py:80-128 | bundling succeeds if and only if the reachable references are sane |
| OpenApiReferences.KeyReference | tools/openapi_bundle.py:47-121 | in characters: a document of one line $ref: p#/key bundles if and only if p resolves to a file with a line that is the key and a colon and what stands under the first such line expands; to that expansion, moved in by the depth of the reference |
| OpenApiReferences.FragmentRefused | tools/openapi_bundle.py:47-53 | in characters: a fragment is refused if and only if, after its leading hashes and one slash, nothing or a slash is left; any other bundles as with what is left, and fails with the key where no line is it |
| OpenApiReferences.FileReference | tools/openapi_bundle.py:101-118 | without a fragment the reference stands for the whole file |
| OpenApiReferences.BlockInCharacters | tools/openapi_bundle.py:56-77 | the block under a key, line by line: all deeper or blank lines under the first line that is the key, moved out by its depth and two spaces |
| OpenApiScan.InsideScalar | tools/openapi_bundle.py:88-92 | inside a block scalar every blank or deeper line is text; any other ends it |
| OpenApiScan.ScalarBegins | tools/openapi_bundle.py:93-97 | a block scalar begins exactly where a bar or an angle bracket follows the first colon |
| OpenApiScan.ForeignReference | tools/openapi_bundle.py:35-38 | a reference into the same document, or with a scheme, is copied |
| OpenApiScan.QuotedReference | tools/openapi_bundle.py:31-34 | quotes around the value make no difference |
| OpenApiScan.WithoutReferences | tools/openapi_bundle.py:80-121 | a document without references is its own bundle |
| OpenApiScan.ScalarIsCopied | tools/openapi_bundle.py:84-99 | so is one block scalar, whatever its text looks like |
| OpenApiBundle.BundleIsFixedPoint | tools/openapi_bundle.py:80-121 | the output refers to no file outside block scalars, and bundling it again, in any tree, changes nothing, when no reference looks like a block scalar header |
| OpenApiBundle.StableIffPlain | tools/openapi_bundle.py:80-121 | a document, for example a bundle, is given back by bundling in every tree if and only if its scan meets no reference to a file and no empty one |
| OpenApiBundle.BarReferencesBreakTheFixedPoint | tools/openapi_bundle.py:88-99 | a concrete document, with a file name that starts with a bar, whose bundle holds a live reference |
| OpenApiBundle.HarmlessIffTame | tools/openapi_bundle.py:88-99 | the condition is exact for each reference line: bundling is idempotent in all trees with no other such line if and only if this one does not look like a block scalar header |
| Stepper.CappedRunContinues | core/src/agent_sse_parser.c:163-198 | stopping for lack of room loses and doubles no event |
| Stepper.FeedsGiveAllInOrder | core/src/agent_sse_parser.c:163-198 | for any step machine over a growing buffer: events given so far, then those still in the buffer, are the events of all bytes |
| SseParser.Reader.Feed | core/src/agent_sse_parser.c:163-198 | one feed gives the events of the buffered lines up to the caller's room and keeps the rest, reporting a limit exactly when a line is left; an empty feed does nothing, and without room for any event all are thrown away |
| SseFields.LinesInCharacters | core/src/agent_sse_parser.c:91-130 | what each field does to the event being collected: name and id are overwritten, data lines joined by line feeds, others ignored; one space after the colon and a carriage return at the end are dropped |
| SseFields.BlankLine | core/src/agent_sse_parser.c:91-93 | a blank line gives the event if anything was collected, its data without the last line feed, and starts afresh |
| SseParser.PartsGiveAllInOrder | core/src/agent_sse_parser.c:163-198 | however the bytes are split and however little room each feed has, if it has any, events come in order, none lost, none doubled |
| SseParser.SplittingDoesNotMatter | core/src/agent_sse_parser.c:163-198 | when the last feed was not cut short the events do not depend on the splitting |
| RetryBackoff.ComputeSleepMs | cli/src/openai_client.cpp:133-172 | the computed delay is one of the delays the formula allows for some random number, and lies between 0 and the cap |
| RetryNumbers.TunedIsExponential | cli/src/openai_client.cpp:140-146 | the delay before jitter is base * 2^n, up to the cap, as long as nothing overflows |
| RetryNumbers.JitterInNumbers | cli/src/openai_client.cpp:147-157 | what jitter allows: exactly the delay when it is 0 or less, all of [0, 2 * delay] when it is 1 or more, and otherwise all that is at most that share of the delay away |
| RetryNumbers.WithoutJitterExact | cli/src/openai_client.cpp:133-172 | without jitter the time slept is the delay, or Retry-After where that is longer and respected, at most the cap |
| RetryBackoff.SleepIsBounded | cli/src/openai_client.cpp:159-171 | with positive tuning a delay lies in [0, cap], is at least min(cap, Retry-After) when that is respected, and is otherwise the one picked |
| RetryBackoff.BackoffIsMonotone | cli/src/openai_client.cpp:140-146 | without jitter the delay never shrinks from one retry to the next, whatever the cap, if and only if the base is below 2^34 ms or all its bits from 33 up to its top bit are set |
| RetryBackoff.SettledBackoffIsMonotone | cli/src/openai_client.cpp:133-172 | for such a base the same holds of the time slept, whatever Retry-After says |
| RetryBackoff.BackoffWrapsAtTheBound | cli/src/openai_client.cpp:142-150 | at 2^34 ms it falls from the cap to 0 at retry 30 |
| RetryBackoff.UntunedIsExponential | cli/src/openai_client.cpp:48-55 | without tuning the delay is min(4000, 250 * 2^n) if and only if n <= 23 or n = 29, and otherwise 0 |
| RetryLoop.Last | cli/src/openai_client.cpp:621-734 | the loop ends, within max_retries, at the first attempt that may not be repeated |
| RetryNumbers.RetriedInNumbers | cli/src/openai_client.cpp:23-47 | another attempt follows if and only if retries are left, the deciding request gave no chunk and no end mark, and it ended with status 408, 429 or 500 to 599 or one of eight transport errors |
| RetryNumbers.ReportedInNumbers | cli/src/openai_client.cpp:699-724 | what is reported of the deciding request: status, failure, body, and the end mark only with a status from 200 to 299 |
| RetryLoop.ChunksComeFromOneRequest | cli/src/openai_client.cpp:681-733 | over all attempts the callback gets the chunks of the deciding request and nothing else if and only if no failed request through a proxy gave it anything |
| RetryLoop.NoAttemptAfterAChunk | cli/src/openai_client.cpp:708-712 | without a proxy an attempt that gives a chunk or [DONE] is the last, and there are at most max_retries + 1 |
| RetryLoop.ProxyFallbackDuplicates | cli/src/openai_client.cpp:681-692 | after a proxy that fails midway the callback gets its chunks and then the whole direct answer |
| StreamRetry.StreamContext.Write | cli/src/openai_client.cpp:286-322 | one write callback: chunks handed on, [DONE] noted, count, captured prefix and parser state |
| StreamEvents.EventInCharacters | cli/src/openai_client.cpp:298-320 | an event is handed on once unless its data is empty or [DONE] |
| StreamRetry.SeenIsStartOfBody | cli/src/openai_client.cpp:298-320 | the callback gets the events of the body in order, however it is cut into writes; only what the last write had no room for is missing |
| StreamRetry.CaptureIsPrefix | cli/src/openai_client.cpp:291-295 | the captured body is the longest prefix within the limit |
| StreamRetry.Attempt | cli/src/openai_client.cpp:646-697 | one attempt, the direct request after a failed proxy included |
| StreamRetry.Decide | cli/src/openai_client.cpp:699-724 | whether the loop goes on, and otherwise what is reported |
| StreamRetry.PostJsonStream | cli/src/openai_client.cpp:608-734 | the loop makes exactly the specified attempts, hands on exactly their chunks, reports the deciding one, and every pause is within its cap |
| SseFraming.FrameData | cli/src/openai_stream_adapter.cpp:340-368 | the index loop writes one data line a line of input, then a blank line; empty data feeds nothing |
| SseFraming.JoinedLines | cli/src/openai_stream_adapter.cpp:350-362 | the lines, trimmed and joined, are the input without its line-end carriage returns; empty lines and a last line feed stay |
| SseFraming.FramesParse | cli/src/openai_stream_adapter.cpp:340-368 | a series of framed chunks gives one event each, in order, and leaves the parser clean |
| SseFraming.RoundTripThroughCore | cli/src/openai_stream_adapter.cpp:340-368 | the core parser gives back the chunk without its line-end carriage returns if and only if no line ends in two of them |
| SseStandard.RoundTripThroughStandard | cli/src/openai_stream_adapter.cpp:340-368 | a reader that follows section 9.2 of the WHATWG HTML Standard gets that one event if and only if no other carriage return is in the chunk |
| SseStandard.EventsHaveNoCr | cli/src/openai_stream_adapter.cpp:340-368 | no event that the standard reads from any stream has a carriage return in its data |
| StreamAdapter.Adapter.constructor | cli/src/openai_stream_adapter.cpp:372-400 | a fresh adapter, with 128 bytes where no limit is given |
| StreamAdapter.Adapter.Reset | cli/src/openai_stream_adapter.cpp:402-414 | reset forgets text and pending delta and keeps what was emitted |
| StreamAdapter.Adapter.AssistantDelta | cli/src/openai_stream_adapter.cpp:246-268 | the step for one delta keeps the adapter in agreement with its whole history |
| StreamAdapter.Adapter.Flush | cli/src/openai_stream_adapter.cpp:431-441 | after a flush the callback has been given exactly the assistant text |
| StreamAdapter.DeltasAreConserved | cli/src/openai_stream_adapter.cpp:246-268 | no delta is lost, doubled or reordered; what is held is shorter than the limit; every piece before a flush reaches the limit only with its last delta |
| StreamAdapter.TextIsConserved | cli/src/openai_stream_adapter.cpp:246-268 | emitted text followed by pending text is the assistant text after every operation |
| ToolCalls.Accumulator.Apply | cli/src/openai_stream_decoder.cpp:98-109 | after any batches the calls are those reassembled from all fragments since the reset, however they were batched |
| ToolCalls.Accumulator.Reset | cli/src/openai_stream_decoder.cpp:94-96 | reset forgets all calls |
| ToolCalls.PutAnother | cli/src/openai_stream_decoder.cpp:99-108 | one step (skip, grow, overwrite, append) adds one fragment to the reassembly: arguments concatenated per index, last non-empty id and name |
| ToolCalls.LastIdInWords | cli/src/openai_stream_decoder.cpp:99-108 | the id of a call is that of its last fragment that has one |
| ToolCalls.LastNameInWords | cli/src/openai_stream_decoder.cpp:99-108 | so is the name |
| ToolCalls.ArgumentsInWords | cli/src/openai_stream_decoder.cpp:99-108 | its arguments are those of all its fragments, concatenated in order |
| ToolCalls.OnlyOrderWithinACallMatters | cli/src/openai_stream_decoder.cpp:98-109 | streams with the same fragments for each index give the same calls |
| ToolCalls.DifferentCallsCommute | cli/src/openai_stream_decoder.cpp:98-109 | neighbouring batches for different indices may change places anywhere in a stream |
| ToolCalls.ArgumentsOnlyGrow | cli/src/openai_stream_decoder.cpp:105-107 | later fragments only extend arguments already seen, and no call disappears |
| BlockCoding.EncodedLength | cli/src/base64.cpp:11-45 | encoded length is four characters for each three bytes begun |
| BlockCoding.BlocksComeBack | cli/src/base64.cpp:58-118 | for any faithful block code both ways of decoding invert encoding |
| BlockCoding.StrictIsOnlyLastPadded | tools/agent_ed25519_tool.cpp:55-86 | decoding that allows padding in the last block only differs from decoding that allows it anywhere exactly by that |
| BlockCoding.ComesBackIffClean | cli/src/base64.cpp:58-118 | for any faithful block code, encoding what a text decodes to gives the text back if and only if only its last block is padded and that block is clean |
| Base64.MakeDecodeTable | cli/src/base64.cpp:47-56 | the table agrees with the other tool's search on every byte |
| Base64.ValueOfAlphabet | tools/agent_ed25519_tool.cpp:57-66 | a character's value is its place in the alphabet |
| Base64.AlphabetOfValue | tools/agent_ed25519_tool.cpp:57-66 | and no other character has that value |
| Base64.BlockComesBack | cli/src/base64.cpp:75-114 | one block of one to three bytes comes back |
| Base64.EncodeByTriples | cli/src/base64.cpp:11-45 | the first encoder computes Encode |
| Base64.EncodePadded | tools/agent_ed25519_tool.cpp:36-53 | the second encoder computes the same Encode |
| Base64.DecodeLeniently | cli/src/base64.cpp:58-118 | the first decoder, by table and after dropping white space |
| Base64.DecodeStrictly | tools/agent_ed25519_tool.cpp:55-86 | the second decoder |
| Base64Table.TableInNumbers | cli/src/base64.cpp:11-13 | the characters by code, as in table 1 of RFC 4648 |
| Base64Table.BlockInNumbers | cli/src/base64.cpp:11-45 | a block in bits: groups of six, most significant first, padded with zero bits and equals signs |
| Base64Table.AcceptedInNumbers | cli/src/base64.cpp:75-114 | exactly which blocks are decoded, and to how many bytes |
| Base64.LenientInvertsEncode | cli/src/base64.cpp:58-118 | any text that is an encoding once white space is dropped decodes to its bytes |
| Base64.StrictInvertsEncode | tools/agent_ed25519_tool.cpp:55-86 | the strict decoder inverts encode on every byte string but the empty one |
| Base64.StrictIsLenientAndMore | tools/agent_ed25519_tool.cpp:55-86 | the strict decoder accepts exactly what the lenient one does, with the same bytes, minus empty text, white space, and padding before the last block |
| Base64.UnusedBitsAreIgnored | cli/src/base64.cpp:75-114 | two blocks, QQ== and QR==, that decode to the same byte |
| Base64.BlockComesBackIffClean | cli/src/base64.cpp:84-115 | an accepted block is the encoding of its bytes if and only if the bits its padding leaves unused are zero |
| Base64.EncodingComesBackIff | cli/src/base64.cpp:58-118 | of a text the lenient decoder accepts, encoding gives back the text without its white space if and only if padding occurs in the last block only and the bits this leaves unused are zero |
| Base64.StrictlyComesBackIff | tools/agent_ed25519_tool.cpp:55-86 | of a text the strict decoder accepts, encoding gives it back if and only if those bits are zero |
| HostPrompts.Scan | cli/src/host_session_prompts.cpp:118-154 | the three scanning loops, early return included |
| HostPrompts.Ensure | cli/src/host_session_prompts.cpp:182-257 | the session and the flag that the call leaves |
| HostPrompts.RebuildKeepsUnmanaged | cli/src/host_session_prompts.cpp:226-252 | a rebuild loses, adds and reorders none of the unmanaged messages |
| HostPrompts.TextKeptIffNoNul | cli/src/host_session_prompts.cpp:241-252 | it keeps their text if and only if none of it holds a NUL |
| HostPrompts.RebuildIsStable | cli/src/host_session_prompts.cpp:226-252 | a rebuild of a rebuilt session changes nothing, whatever the profile |
| HostPrompts.WantedPromptsLead | cli/src/host_session_prompts.cpp:190-207 | after a rebuild every wanted prompt is found at the head |
| HostPrompts.NoStalePrompt | cli/src/host_session_prompts.cpp:204-207 | and no unwanted one is |
| HostHead.InPlaceAfterEnsure | cli/src/host_session_prompts.cpp:182-257 | after every call, whatever the session was: the wanted prompts lead it, the unwanted ones do not, and the marker of a known profile shows |
| HostHead.UpToDateIff | cli/src/host_session_prompts.cpp:190-215 | a call does nothing if and only if all of that and the profile marker already hold among the first twelve messages, up to the first that is no system message |
| HostHead.DroppedInCharacters | cli/src/host_session_prompts.cpp:226-252 | exactly the system messages that begin as one of the four kinds of prompts are dropped by a rebuild |
| HostPrompts.SecondCall | cli/src/host_session_prompts.cpp:208-215 | a second call changes nothing, and says so if and only if the profile marker shows at the head |
| HostPrompts.EnsureIsIdempotent | cli/src/host_session_prompts.cpp:182-257 | for a profile whose prompt holds its marker a second call returns false and the same session |
| HostPrompts.UnknownProfileNeverSettles | cli/src/host_session_prompts.cpp:192-215 | for a profile whose marker is nowhere every call reports a change |
| JsonString.EscapeString | tools/esp32sim.cpp:126-147 | the escaping loop computes Escape |
| JsonString.ExtractStringField | tools/esp32sim.cpp:176-231 | the loops over the text compute Extract, and leave no text on failure |
| JsonString.ExtractAfterEscape | tools/esp32sim.cpp:126-231 | extracting a key from an object whose first field it is gives back the string that was escaped, for every key, string and tail |
| JsonFields.KeyIsFirst | tools/esp32sim.cpp:176-183 | the reader takes the first place where the quoted key stands |
| JsonFields.ExtractAnywhere | tools/esp32sim.cpp:176-231 | and extracts the string that was escaped after it, whatever stands before, behind and around the colon |
| JsonFields.OnlyStrings | tools/esp32sim.cpp:184-190 | a value that is no string is not extracted |
| JsonFields.UnicodeInCharacters | tools/esp32sim.cpp:205-218 | a unicode escape gives an ASCII character, or a question mark |
| JsonString.EscapedIsStandard | tools/esp32sim.cpp:126-147 | by section 7 of RFC 8259 escaped text is a string with the same code units; so it has no bare quote |
| JsonString.StandardHasNoControls | tools/esp32sim.cpp:126-147 | and, like every string of that grammar, no character below 0x20 |
| JsonString.ReaderAgreesWithStandard | tools/esp32sim.cpp:191-228 | the reader takes every string of the grammar, and gives it its meaning if and only if it has no \b, no \f and no \u escape above 007F |
| JsonString.StepsPastIff | tools/esp32sim.cpp:205-218 | the reader steps past the end of its text if and only if it reaches a \u with fewer than four characters behind it; the model gives no string then |

## Left out

- SessionStore.SaveIsCrashSafe: a crash loses no bytes the program has written and reorders none; caches of the operating system, failing writes and failing directory operations other than a rename that does not replace are not modelled.
- SessionStore.LoadAfterSave: the JSON library is any pair of printer and parser that invert each other; its text is not modelled.
- JsonlLog.RunKeepsNewestPieces: within a run nothing else changes the log, and renames of existing files to a free name succeed; `session_store_delete` starts a new run, on whatever backups it leaves.
- JsonlLog.AppendJsonl: the two append functions (audit, client events) are one method with the kind of log as a parameter; their mutexes are not modelled, so appends do not overlap; a write that fails without a crash leaves what a crash would.
- SessionStore.WriteFileAtomic: a temporary file that cannot be opened or written is not modelled; the function then returns early and leaves at most a temporary file, as a crash does.
- SessionStore.SaveSession: the early returns after a directory that cannot be created or a first write that fails are not modelled.
- SessionStore.LoadSession: a file that exists but cannot be read is not modelled, and skipping malformed entries of `.json` is part of the JSON reader that is a parameter.
- IndexProtocol.IndexIsSound: every write of a file takes an mtime that was never used before; a commit does not fail (the code ignores the result of COMMIT); paths are already normalised and no symbolic links exist.
- MemoryIndex.Index.Refresh: the list of allowed files is given; walking the directory and normalising paths are not part of this model.
- WebSocketFrames.Socket.ReadFrame: no timeout inside a frame; fragmented messages and the handshake are not modelled, as the code gives them no meaning.
- WebSocketFrames.Socket.ReadJson: decoding the text frame as UTF-8 and JSON is the caller's.
- BrokerConnector.PeerReadsWholeFrames: a send fails only because the main thread has closed the socket under it; other partial sends are not modelled.
- BrokerConnector.OneResultPerCommand: what a command does is any reply; only the shape of `handle_command` (one reply with the request's id) is kept.
- OpenApiBundle.BundleIsFixedPoint: shown for documents without a reference line that looks like a block scalar header; `HarmlessIffTame` shows that some document with such a line fails, whichever the line is, and `StableIffPlain` gives the exact condition on one bundle.
- OpenApiBundle.Bundler.InlineLines: files do not change while they are bundled; lines are what `splitlines` gives.
- RetryBackoff.ComputeSleepMs: `double` is taken as exact real arithmetic, and the addition of the jitter to the delay does not overflow; a shift by 32 or more, which C++ leaves undefined, may give any number between the bounds.
- StreamRetry.PostJsonStream: libcurl is any sequence of writes with a result code and a status; failure of `curl_easy_init`, header parsing and the texts of errors and retry events are not modelled.
- SseParser.Reader.Feed: allocation succeeds.
- SseStandard.RoundTripThroughStandard: works on code units after decoding; byte order mark and UTF-8 are not modelled.
- StreamAdapter.Adapter.AssistantDelta: starts at the delta text; parsing the event's JSON and the other event types are not modelled.
- ToolCalls.Accumulator.Apply: starts at decoded fragments; `openai_stream_parse_chunk_json` is field access on a JSON library's values.
- Base64.DecodeLeniently: texts of the error messages are not modelled.
- HostPrompts.Ensure: parts of a message other than its text, which the rebuild drops, are not modelled; reading and wrapping AGENTS.md files is not part of this model.
- JsonString.ExtractStringField: for a text that makes the code read past its end (`StepsPastIff`) the model gives no string.
- Word sizes: `size_t` and 64-bit counters do not overflow, except in the back-off, where wrap-around of a 32-bit `int` and a 64-bit `long` is modelled.
- `session_store_list`, the full-text query and ranking of `memory_index_search_ranked`, enrolment and runtime actions of the connector, and the edge consensus node, of which only argument parsing is in the repository.
- The simulator's heap accounting (`budget_malloc`, `budget_free`), a counter with one bound.
