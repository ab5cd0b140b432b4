# Verified models: device sync, session buffer, benchmark runner, ranking metrics

Dafny models of four parts of the repository, each with the properties it is relied on for.

**Device to memory sync** (`bridge/firmware/`). The device appends one JSON line per remembered utterance to
`memory.jsonl` and reads it back from a byte offset kept in a cursor file. It filters the lines, posts them in
batches of at most 200 and moves the cursor only after a 2xx. The model is a class `Device` over the file, the
cursor file and the server's log, proved against functions, and runs of any length in which POSTs fail,
acknowledgements are lost, the cursor cannot be read, is lost, or is torn in the middle of a write. It includes
the decimal cursor, the day buckets, the string escaper and reader, the record reader and the payload writer.

**Session buffer and boundary stage** (`memory/src/everos/service/`). Messages of a session are merged,
deduplicated and sorted into a durable buffer; a boundary detector cuts a prefix into cells and the tail goes
back. The detector is an oracle: its contract is that cells and tail cut the merged list in order
(`_boundary.py:457`, `470-473`). The calls are modelled one after the other, as methods on the two tables behind
a session, and concurrently, as a state machine whose steps lie between two awaits and which a timeout can
cancel at each of them; an exception of a repository or a pipeline is an outcome too.

**Benchmark runner** (`memory/benchmarks/run.py`). The append-only stage artifact as the bytes of a UTF-8 file that
is read strictly, over every sequence of runs in which any append and any rewrite may stop at any byte; the ingest,
quiesce, read schedule over a fleet of servers, with pools of a given width, as a state machine whose steps interleave
freely; and the round-robin sampler.

**Ranking metrics** (`memory/benchmarks/metrics/ir.py`), over the reals, with any positive, strictly decreasing
discount in the place of `1 / log2(i + 2)`.

Text is a sequence of characters that stand for bytes, except in the stage artifact, where characters and bytes are
different things and `Utf8` relates them.

## What the proofs found

Properties that do not hold of the code as it stands are stated with the condition under which they do.

- The escaper and the reader of the bridge undo each other exactly for texts without control bytes other than
  tab, LF and CR: the escaper writes `\u001b`, the reader drops the backslash and keeps `u001b`
  (`JsonText.EscapeReadBack`, `MemoryRecord.RecordRecovered`). A reader that follows section 7 of RFC 8259 gets
  every text back (`JsonText.EscapedIsRfc`).
- The test for a cursor text without any digit cannot be reached (`SyncCursor.ParseCursor`).
- Before 1970 the division that rounds toward zero names the following day, except at midnight
  (`CivilDate.NamesUtcDay`).
- A torn cursor write only moves the cursor back, but it may land inside a line. `TornRead.MidLineSent` says what
  is then sent, for every record and position: up to the role key a message with the record's text but without its
  time, also for uptime records, which are otherwise never sent. `TornRead.TornCursorForges` is a run in which the
  server ends up with such a second message.
- A memory file whose size cannot be read counts as empty: a sync then writes the cursor back to 0, and everything is
  sent again (`SyncSessions.SyncMoves`).
- The session ids of different devices meet before the year -999: the dash between name and date and the sign of the
  year look alike. Otherwise they agree exactly when device and day do (`CivilDate.SessionIdExact`, `CivilDate.IdsMeet`).
- Message ids are in exactly one place exactly when no id is sent again after it was extracted
  (`BoundaryRuns.ServeConserves`; `BoundaryRuns.ResendBreaks` is a run that breaks it). A call that is cancelled, or raises,
  between inserting the ledger rows and rewriting the buffer leaves messages in both places exactly when a row took a
  message from the buffer (`SessionLock.TornRun`, `SessionLock.HaltedConserves`; `SessionSchedules.TornSchedule` is a
  schedule that does).
- In agent mode a flush that is given cells extracts exactly when every buffered and new row can be mapped
  (`BoundaryRuns.FlushExtractsExactly`). One deferred tool row without a call id, which the buffer accepts, blocks every
  later extraction of its session (`BoundaryRuns.OrphanFromEmpty`).
- An append or rewrite that stops inside a character leaves a stage file that no later run can read, so that none ever
  finishes; otherwise the file stays readable. This is an equivalence over all runs (`StageRuns.AlwaysSound`,
  `StageRuns.StuckForEver`), it can happen exactly when an answer has a character outside ASCII
  (`StageTears.FirstRunBreakable`), and `StageTears.CutInsideCharacter` is such a run.
- A stage that is resumed behind a torn last row and then finishes is silently short by the first row it appended,
  and by the torn row too if that was complete but for its newline (`StageRuns.FinishedExact`; in
  `StageTears.LosesBoth` a run of two questions finishes without any row). The next undisturbed run is complete.
- When the account runs out while another conversation of the pass is queued, collecting that conversation's future
  raises `CancelledError`, which `_run_pass` does not catch, so the run does not reach the exit that reports a spent
  account. A group ends so exactly in that case (`FleetBudget.AbortedExact`), and it is possible exactly when something
  is read and a server has more conversations than its pool has workers (`FleetBudget.AbortPossibleExactly`).

## Model

| member | source | states |
|---|---|---|
| `SyncCursor.ParseCursor` | bridge/firmware/sync_protocol.h:38-69 | the loop computes the value of the first run of digits modulo 2^64 and rejects exactly the texts with a stray character; the rejection for lack of a digit is dead code |
| `SyncCursor.CursorReads` | bridge/firmware/sync_protocol.h:38-69 | blanks, digits, and then the end or a blank and anything: the number modulo 2^64; blanks alone: 0 |
| `SyncCursor.CursorRejects` | bridge/firmware/sync_protocol.h:52-60 | a character that is neither blank nor digit before a blank ends the number rejects the text; with the former row this is every text |
| `SyncCursor.TornCursorValue` | bridge/firmware/sync_protocol.h:38-73 | any prefix of a written cursor reads back as the offset without the digits that were lost |
| `SyncCursor.CursorRoundTrip` | bridge/firmware/sync_protocol.h:38-73 | a written cursor reads back as itself for all 64-bit offsets; every prefix reads back as at most that, and as less exactly when a digit of a positive offset is missing |
| `CivilDate.CivilStep` | bridge/firmware/sync_protocol.h:78-89 | every day number, negative ones included, gives a valid Gregorian date, and consecutive numbers give consecutive dates |
| `CivilDate.CivilIsCalendar` | bridge/firmware/sync_protocol.h:77-89 | the closed formula is the calendar counted from 1970-01-01 one day at a time |
| `CivilDate.CivilInjective` | bridge/firmware/sync_protocol.h:78-89 | different day numbers are different dates |
| `CivilDate.SessionIdExact` | bridge/firmware/sync_protocol.h:75-94 | for all instants, two session ids agree exactly when device and truncated day agree, or when one device is the other with a dash behind it and the dates are the same day of opposite years from 1000 on |
| `CivilDate.IdsMeet` | bridge/firmware/sync_protocol.h:91-93 | the second case is real: 1 March of the years 1000 and -1000 |
| `CivilDate.SessionIdPerUtcDay` | bridge/firmware/sync_protocol.h:75-94 | a device's ids agree exactly on one truncated day; from the epoch on they change exactly at UTC midnight |
| `CivilDate.IdReads` | bridge/firmware/sync_protocol.h:75-94 | for every device and instant the id is the device, a dash, the sign of a negative year, and digits that read as year, month and day of the date |
| `CivilDate.IdReadBack` | bridge/firmware/sync_protocol.h:75-94 | from the epoch to the year 9999 the last nine characters are a dash and eight digits, which are year, month and day of the calendar counted from the epoch, and the rest is the device |
| `CivilDate.KnownId` | firmware/genesis-mini/test/test_sync_protocol/test_main.cpp:35-41 | the id of 1704153600 ends in -20240102 |
| `CivilDate.NamesUtcDay` | bridge/firmware/sync_protocol.h:77 | the date is that of the UTC day of the instant, and the id that of the midnight that day begins with, exactly from the epoch on and at midnights before it |
| `JsonText.JsonEscape` | bridge/firmware/sync_protocol.h:235-267 | the loop writes the escaped form that the round trips below are about |
| `JsonText.ParseJsonString` | bridge/firmware/sync_protocol.h:125-162 | the loop is the specified reader, including what it leaves in its arguments when the literal is not closed |
| `JsonText.FindKey` | bridge/firmware/sync_protocol.h:164-178 | finds the value of the first occurrence of the quoted key, exactly when a colon follows that occurrence; where it leaves the position on a hit and on a miss |
| `JsonText.Find` | bridge/firmware/sync_protocol.h:165-166 | the first occurrence of the needle, and None only when there is none |
| `JsonText.GarbledExact` | bridge/firmware/sync_protocol.h:153-155 | what the reader makes of escaped text is the text itself exactly when it has no control byte but tab, LF and CR |
| `JsonText.EscapeReadBack` | bridge/firmware/sync_protocol.h:125-162 | for every text and whatever surrounds it, reading a quoted escaped text closes just past its quote and gives the text back exactly when it is clean |
| `JsonText.EscapedIsRfc` | bridge/firmware/sync_protocol.h:235-267 | for every text the escaped form is valid string content under section 7 of RFC 8259 and decodes to the text |
| `MemoryRecord.ParseMemoryLine` | bridge/firmware/sync_protocol.h:182-233 | the trimming, digit and key loops compute the specified fields for any line, malformed ones included |
| `MemoryRecord.RecordRecovered` | bridge/firmware/sync_protocol.h:182-233 | every record laid out as remember writes it is read back with its time, role and clock, and with its text exactly when that is clean |
| `MemoryRecord.ClockAbsent` | bridge/firmware/sync_protocol.h:223-229 | no text can pass for a clock field: the needle followed by a colon does not arise inside escaped text |
| `AnyLayout.LineRead` | bridge/firmware/sync_protocol.h:182-233 | for every line, whatever the order of its keys, the blanks around and behind them and the sign of its time: time, role and text are those of the first such keys, the clock is uptime exactly when it is written so, and the line counts exactly when it has role and text |
| `AnyLayout.OpenLiteral` | bridge/firmware/sync_protocol.h:125-162 | a value without closing quote is kept as far as it goes, but makes no clock |
| `AnyLayout.ReadsAsRfc` | bridge/firmware/sync_protocol.h:125-162 | every literal that section 7 of RFC 8259 allows, without the escapes b, f and u, is read as the RFC reads it |
| `AddPayload.BuildMemorizeAddJson` | bridge/firmware/sync_protocol.h:291-320 | the appending loop builds the specified payload |
| `AddPayload.AddPayloadRoundTrip` | bridge/firmware/sync_protocol.h:291-320 | an independent reader of the payload gets back session, application, project and all messages in order, for all inputs |
| `SyncDevice.Device.LoadCursor` | bridge/firmware/sync_client.cpp:46-57 | an unreadable, empty or bad cursor file counts as offset 0 |
| `SyncDevice.Device.SaveCursor` | bridge/firmware/sync_client.cpp:59-62 | what each outcome of the rewrite leaves in the cursor file and reports |
| `SyncDevice.Device.ReadLineAt` | firmware/genesis-mini/src/sd_store.cpp:143-172 | the byte loop stops behind the next newline or at the end of the file and drops carriage returns; behind the end it answers false |
| `SyncDevice.Device.SyncNow` | bridge/firmware/sync_client.cpp:134-229 | the method leaves the store and returns the answer that the step function of the runs gives |
| `SyncDevice.Device.CollectBatch` | bridge/firmware/sync_client.cpp:158-179 | the reading loop collects the messages and ends at the offset the batch function gives |
| `SyncDevice.Device.SyncAll` | bridge/firmware/sync_client.cpp:231-247 | the loop over batches leaves the store the drain function gives; its looks at cursor and size fail each on its own |
| `SyncSessions.ValidDeviceIds` | bridge/firmware/sync_protocol.h:20-36 | an accepted device id goes into the payload unescaped; of 1 to 128 letters all are accepted and no more |
| `SyncSessions.SyncPosts` | bridge/firmware/sync_client.cpp:104-229 | the server gets a batch exactly when there are messages behind the cursor and a request is sent and stored; it is one batch with these messages in the session of a set clock, else of its first message but never before 1700000000 |
| `SyncSessions.SyncAnswers` | bridge/firmware/sync_client.cpp:134-229 | a sync answers true exactly when there was nothing to post, or it was acknowledged with a 2xx and the cursor was written |
| `SyncSessions.SyncMoves` | bridge/firmware/sync_client.cpp:142-156 | where the cursor stands after a sync, cursors behind the end and files of unknown size included |
| `SyncSessions.DrainTrace` | bridge/firmware/sync_client.cpp:231-247 | a drain is a row of syncs of which all but the last answer true, and it answers what the last one did |
| `SyncSessions.RunFiles` | bridge/firmware/sync_client.cpp:191-200 | over every run each batch on the server stands in the session that a clock of the run, or its own first message, names |
| `SyncSessions.SessionPerDay` | bridge/firmware/sync_client.cpp:191-200 | two batches of a device posted with set clocks share a session exactly when the clocks are on one UTC day |
| `SyncSessions.OneDayOneSession` | bridge/firmware/sync_client.cpp:191-200 | a run whose clocks are set and on one day fills the session of that day and no other |
| `SyncRuns.SavedValue` | firmware/genesis-mini/src/sd_store.cpp:87-103 | after a rewrite that may fail or tear, the stored offset is the old one or at most the new one, and the new one when success is reported |
| `SyncRuns.CollectCovers` | bridge/firmware/sync_client.cpp:158-179 | a batch read from any byte holds the message of every sendable line that starts from there up to its end, as often as there are such lines |
| `SyncRuns.SyncKeepsAcked` | bridge/firmware/sync_client.cpp:134-229 | one sync, with any faults, keeps the at-least-once invariant |
| `SyncRuns.AtLeastOnce` | bridge/firmware/sync_client.cpp:134-247 | over every run of appends, syncs, drains, faults and cursor losses the sendable lines that start before the stored cursor are on the server, each as often as it stands in the file |
| `SyncRuns.StoredLine` | bridge/firmware/sync_client.cpp:134-229 | in words: each sendable line that starts before the cursor has its message on the server |
| `SyncRuns.LineTailIs` | firmware/genesis-mini/src/sd_store.cpp:143-172 | reading from any byte of any line of the file gives the rest of that line and goes on at the next line |
| `SyncRuns.ReturnsDropped` | firmware/genesis-mini/src/sd_store.cpp:160-168 | of a line carriage returns are dropped and nothing else |
| `SyncRuns.CutAtNul` | bridge/firmware/sync_client.cpp:172-173 | what follows the first NUL of a line is not seen |
| `SyncRuns.CollectExact` | bridge/firmware/sync_client.cpp:158-179 | from a line start a batch is the filtered messages of the next lines and ends at a line start |
| `SyncRuns.SyncExact` | bridge/firmware/sync_client.cpp:134-229 | with a working card and faithful acknowledgements a sync moves the cursor over whole lines and posts exactly their messages, or stays |
| `SyncRuns.ExactlyOnce` | bridge/firmware/sync_client.cpp:134-247 | after every such run the cursor is a line start and the server's log is filter and map over the lines before it, in order, without gap or repetition |
| `SyncDrain.FullBatchOrEnd` | bridge/firmware/sync_client.cpp:164-229 | a successful sync reaches the end of the file or delivers exactly 200 messages |
| `SyncDrain.BatchesExact` | bridge/firmware/sync_client.cpp:164-180 | the number of batches pending lines need, in closed form |
| `SyncDrain.DrainReachesEnd` | bridge/firmware/sync_client.cpp:231-247 | with everything working, draining ends at the end of the file exactly when it may post that many batches |
| `SyncDrain.DrainBound` | bridge/firmware/sync_client.cpp:231-247 | E / 200 + 1 batches always suffice for E sendable pending lines, and then everything is on the server |
| `TornRead.MidLineSent` | bridge/firmware/sync_client.cpp:164-179 | what a device sends that starts reading at any byte of any record line |
| `TornRead.MidFileCollect` | bridge/firmware/sync_client.cpp:158-179 | a batch from any byte of a record line anywhere in the file is what the tail of that line sends, then exactly the messages of the next lines, and ends at a line start |
| `TornRead.MidFileSync` | bridge/firmware/sync_client.cpp:134-229 | so a whole sync from there adds exactly that batch to the log of the server |
| `TornRead.RecordLineSent` | firmware/genesis-mini/src/agent_runtime.cpp:181-199 | a whole record line is sent as that record, unless its clock is uptime or its text empty: from the device, under its role, with its time or 1, and with its text exactly when that is clean |
| `TornRead.TornCursorForges` | bridge/firmware/sync_client.cpp:222-225 | a run in which a torn cursor write makes the server store a second, timeless message for a record |
| `TornRead.RememberedAndSynced` | bridge/firmware/sync_client.cpp:134-247 | from remember to the server: after an undisturbed run to the end of the file the log holds the wall-clock records, each once, in order |
| `MessageMerge.MergeDedupeSort` | memory/src/everos/service/_boundary.py:442-450 | the loops give the one sorted listing of the merged messages |
| `MessageMerge.MergeFacts` | memory/src/everos/service/_boundary.py:442-450 | oldest first, ids deciding between equal times, one message per id, exactly the ids of both lists, the buffered copy on a collision |
| `MessageMerge.MergeMembers` | memory/src/everos/service/_boundary.py:442-450 | the merged messages are the last copy of each buffered id and the first copy that arrived of each other id |
| `MessageOrder.LexExact` | memory/src/everos/service/_boundary.py:450 | ids are ordered by their first difference, a beginning before the whole |
| `MessageMerge.MergeTwice` | memory/src/everos/service/_boundary.py:442-450 | two arrivals one after the other merge like both at once |
| `MessageMerge.DeferredIsOneBatch` | memory/src/everos/service/_boundary.py:96-116 | any number of deferred arrivals leaves the buffer that one batch of them leaves |
| `MessageMerge.MergeIdempotent` | memory/src/everos/service/_boundary.py:442-450 | merging an arrival again changes nothing |
| `MessageMerge.MergeEqual` | memory/src/everos/service/_boundary.py:442-450 | two arrivals merge alike exactly when they leave the same copy for each id |
| `MessageMerge.MergeOrderFree` | memory/src/everos/service/_boundary.py:442-450 | for id-consistent messages neither order nor repetition of the arrivals matters |
| `BoundaryPlan.FilterConcat` | memory/src/everos/service/_boundary.py:227-233 | the mode filter works message by message, so it keeps order and repetition |
| `BoundaryPlan.FilterPicks` | memory/src/everos/service/_boundary.py:227-233 | for any list the result is the subsequence of exactly those messages that are in agent mode, or are no tool rows and call no tools |
| `BoundaryPlan.SplitMessagesPerCell` | memory/src/everos/service/_boundary.py:464-480 | the pointer loop gives the specified split, None standing for the IndexError |
| `BoundaryPlan.SplitExact` | memory/src/everos/service/_boundary.py:464-480 | the pointer stays inside the merged list exactly when the cells have no more items than it, and the cells are then its first ids in order |
| `BoundaryPlan.PartitionExact` | memory/src/everos/service/_boundary.py:453-480 | cells and tail slice give back the merged ids exactly when the detector keeps its contract, empty tail included |
| `BoundaryStage.SessionStore.BufferMessages` | memory/src/everos/service/_boundary.py:96-116 | the deferred path changes the buffer and answers as the step function of the runs says, also when a repository raises |
| `BoundaryStage.SessionStore.PrepareCells` | memory/src/everos/service/_boundary.py:119-221 | every return path, every raise of the stage itself and every exception of a repository, between the two writes included, leaves the state and answer of the step function |
| `BoundaryStage.SessionStore.Memorize` | memory/src/everos/service/memorize.py:250-302 | the dispatch between the two under the lock; a pipeline that raises behind an extraction leaves what was written |
| `BoundaryRuns.ServePlaces` | memory/src/everos/service/_boundary.py:119-221 | on every path that returns, buffer and ledger hold the old ledger, and the buffered and new messages once per id |
| `BoundaryRuns.ServeConserves` | memory/src/everos/service/_boundary.py:119-221 | a call that returns keeps every accepted id in exactly one place exactly when it re-sends nothing already extracted; a call that the stage itself ends by raising changes nothing (exceptions of the repositories: SessionLock.HaltedConserves) |
| `BoundaryRuns.RunsConserve` | memory/src/everos/service/_boundary.py:96-221 | over every run of adds, deferred adds and flushes each accepted message is in exactly one memcell or in the buffer |
| `BoundaryRuns.ExactlyOnceMeans` | memory/src/everos/service/_boundary.py:199-212 | the invariant in words: an id is accepted exactly when it is buffered or in a row, never both, never twice |
| `BoundaryRuns.FlushEmpties` | memory/src/everos/service/_boundary.py:199-212 | a flush whose detector leaves no tail empties the buffer into the ledger |
| `BoundaryRuns.DeferredMerge` | memory/src/everos/service/_boundary.py:96-116 | after any deferred calls the buffer is one merge of all their messages and the ledger is untouched |
| `BoundaryRuns.DeferThenFlush` | memory/src/everos/service/memorize.py:250-277 | deferring and then flushing is one flush of everything, unless the flush raises: then the deferred messages are still buffered |
| `BoundaryAnswers.DeferredOnlyBuffers` | memory/src/everos/service/memorize.py:250-256 | a deferred call that is not final adds its messages to the buffer and never extracts, for every session, detector answer and exception, with an LLM and without |
| `BoundaryAnswers.AnswersExactly` | memory/src/everos/service/_boundary.py:119-221 | by the fields of the call: when it raises and leaves everything alone, else its status, its count, that it hands out exactly the rows it adds to the ledger, and that rows and buffer are the merged messages in order |
| `BoundaryAnswers.HaltedExactly` | memory/src/everos/service/_boundary.py:96-221 | when an exception of a repository or pipeline ends a call, what it leaves then, and that a call that returns holds all its messages |
| `BoundaryRuns.ExtractsExactly` | memory/src/everos/service/_boundary.py:119-221 | a call answers that it extracted exactly under these conditions on its fields, the merged messages and the detection |
| `BoundaryRuns.FlushExtractsExactly` | memory/src/everos/service/_boundary.py:304-357 | an agent flush that is given cells extracts exactly when every row, buffered or new, can be mapped, and otherwise raises and changes nothing |
| `BoundaryRuns.OrphanBlocks` | memory/src/everos/service/_boundary.py:304-357 | a buffered row that cannot be mapped stops extraction in agent mode and stays |
| `BoundaryRuns.OrphanBlocksForEver` | memory/src/everos/service/_boundary.py:304-357 | so it does over every later run of agent calls |
| `BoundaryRuns.OrphanFromEmpty` | memory/src/everos/service/_boundary.py:96-116 | one deferred call from the empty session is enough to get there: nothing is ever extracted |
| `BoundaryRuns.ResendBreaks` | memory/src/everos/service/_boundary.py:199-212 | a message that is extracted and sent again is in a row and in the buffer |
| `SessionLock.StepExclusive` | memory/src/everos/service/memorize.py:230-238 | at most one call is inside, and until it writes, the buffer is what it read and its own rows are in the ledger |
| `SessionLock.GoesOn` | memory/src/everos/service/memorize.py:230-238 | while a call waits or is inside, some call can take a step that is not a cancellation |
| `SessionLock.StepCovers` | memory/src/everos/service/memorize.py:230-256 | no step, cancellations included, loses an id, and a write covers the writer's ids |
| `SessionLock.NoLostUpdate` | memory/src/everos/service/memorize.py:230-238 | for any interleaving with cancellations anywhere, whatever was buffered and whatever belongs to a call that returned is in the buffer or the ledger ever after |
| `SessionLock.EqualsSerialOrder` | memory/src/everos/service/memorize.py:230-256 | unless an extraction is cancelled between its writes, every interleaving leaves the session, and gives the answers, of the calls one after the other in the order in which they ended |
| `SessionLock.ConcurrentExactlyOnce` | memory/src/everos/service/memorize.py:230-256 | so concurrent calls keep each accepted message in exactly one place |
| `SessionLock.TornExtraction` | memory/src/everos/service/_boundary.py:199-212 | what is in both places after a cancellation between the two writes, and exactly when anything is |
| `SessionLock.TornRun` | memory/src/everos/service/_boundary.py:199-212 | the same at the end of any run whose last step is such a cancellation |
| `SessionLock.HaltedConserves` | memory/src/everos/service/_boundary.py:199-212 | wherever an exception ends a call no message is lost, and some are held twice exactly when it comes between the two writes of an extraction that takes from the buffer |
| `SessionSchedules.LostWithoutLock` | memory/src/everos/service/_session_lock.py:3-14 | over the same steps without the guard of the lock, read, read, write, write overwrites the first call: both return, and of what was brought exactly what only the first call had is nowhere; with the guard the second cannot get in |
| `SessionSchedules.TornSchedule` | memory/src/everos/service/_boundary.py:199-212 | for any message, a schedule of a deferred call and a flush that is cancelled between its writes and leaves it in both places |
| `RowText.RowReadBack` | memory/benchmarks/run.py:1247-1258 | a row is stripped to itself and read as its index |
| `RowText.TornRowUnread` | memory/benchmarks/run.py:1252-1255 | a row cut short between two characters is not read; cuts inside one are Utf8.CutRead |
| `RowText.GluedRowUnread` | memory/benchmarks/run.py:1252-1255 | nothing written behind the remains of another row is read, whichever characters the rows hold |
| `StageText.RowAmongBlanks` | memory/benchmarks/run.py:1248-1258 | a row is read as itself whatever blanks stand around it in its line |
| `Utf8.DecodeEncode` | memory/benchmarks/run.py:1223-1248 | what is written is decoded as the text it was |
| `Utf8.DecodeStrict` | memory/benchmarks/run.py:1247-1248 | the reader is strict: what it accepts is the encoding of what it reads |
| `Utf8.CutRead` | memory/benchmarks/run.py:1247-1248 | a text cut at any byte, with other text behind it, decodes exactly when the cut is between characters, and then to the characters in front of it and the rest |
| `Utf8.CutsExact` | memory/benchmarks/run.py:1223-1229 | a text can be cut inside a character exactly when it is not all ASCII |
| `StageText.PieceStep` | memory/benchmarks/run.py:1213-1259 | what is read after any number of characters of one line has been added behind anything a run can leave |
| `StageText.AppendDirty` | memory/benchmarks/run.py:1213-1229 | behind a torn row the remains and the first appended row are lost, the others read |
| `StageText.SortSorts` | memory/benchmarks/run.py:1304 | sorting by index is a permutation into ascending order |
| `StageLog.StageFile.Append` | memory/benchmarks/run.py:1213-1229 | a finished item becomes one line at the end of the file, or so many bytes of it as the disk takes |
| `StageLog.StageFile.DoneKeys` | memory/benchmarks/run.py:1232-1259 | the loop gives the printed indices of the rows that are read, blank and unreadable lines skipped, and raises exactly when the file does not decode |
| `StageLog.StageFile.ReadRows` | memory/benchmarks/run.py:1262-1292 | the tolerant read gives the readable rows in file order, and raises exactly when the file does not decode |
| `StageLog.StageFile.Finalize` | memory/benchmarks/run.py:1295-1308 | the file becomes its readable rows, sorted, one per line, or so many bytes of that as the disk takes |
| `StageLog.StageFile.RunStage` | memory/benchmarks/run.py:1623-1645 | a run that is not killed appends the answers to what was not done, in any completion order, goes on when appends fail, and finalises only if none did |
| `StageRuns.WrittenRead` | memory/benchmarks/run.py:1213-1229 | whatever pieces of rows a run appends, they decode exactly when none ends inside a character |
| `StageRuns.StepSound` | memory/benchmarks/run.py:1213-1308 | a run on a sound file leaves one that decodes exactly when nothing stopped inside a character, and then a sound one |
| `StageRuns.AlwaysSound` | memory/benchmarks/run.py:1213-1308 | after any sequence of runs, any append or rewrite of which may stop at any byte, the file decodes exactly when none stopped inside a character, and then no two rows that are read belong to one question |
| `StageRuns.StuckForEver` | memory/benchmarks/run.py:1247-1248 | a file that does not decode makes every later run raise and stays as it is |
| `StageRuns.FinishedExact` | memory/benchmarks/run.py:1295-1308 | a run finishes exactly when the file decodes and all it writes reaches the disk; it then leaves strictly ordered rows of exactly all questions but those lost to a torn tail, at most two, and every other row unchanged |
| `StageRuns.FinishedOnClean` | memory/benchmarks/run.py:1623-1645 | on a file that decodes and ends in a complete line one undisturbed run has exactly one row per question, in order |
| `StageRuns.TwoFinishedRuns` | memory/benchmarks/run.py:1623-1645 | after any sequence of runs, the second of two undisturbed ones has exactly one row per question and keeps every row of the first if nothing stopped inside a character; if something did, neither of them gets anywhere |
| `StageTears.FirstRunBreakable` | memory/benchmarks/run.py:1223-1229 | some way of stopping the appends of a first run makes the file unreadable exactly when one of its answers is not all ASCII |
| `StageTears.AsciiNeverInside` | memory/benchmarks/run.py:1213-1308 | while all answers are ASCII no sequence of runs makes it so |
| `StageTears.CutInsideCharacter` | memory/benchmarks/run.py:1247-1248 | a run stopped inside a two-byte character, after which no run finishes |
| `StageTears.LosesBoth` | memory/benchmarks/run.py:1295-1308 | two runs over two questions, of which the second finishes without any row |
| `FleetSchedule.GroupByServer` | memory/benchmarks/run.py:4464-4468 | the grouping loop gives each server in use its share of the conversations, in order |
| `FleetSchedule.SharePicks` | memory/benchmarks/run.py:4466-4468 | the share of a server is the subsequence of exactly its conversations, in order |
| `FleetSchedule.PassingFirst` | memory/benchmarks/run.py:4520-4531 | what is left to read keeps the order of the ingest |
| `FleetSchedule.StepInv` | memory/benchmarks/run.py:4480-4531 | every step of every group keeps the schedule's invariant, results and budget flag shared |
| `FleetSchedule.ReadsSafe` | memory/benchmarks/run.py:4505-4531 | in every interleaving, as soon as a server has a read pass all its ADD passes have ended, it was quiesced, and only conversations whose ingest went well are read |
| `FleetSchedule.ResultsExact` | memory/benchmarks/run.py:4486-4491 | when all groups finish within budget the results single out exactly the conversations all of whose stages went well, and failed ingests were never read |
| `FleetOrder.AlwaysInOrder` | memory/benchmarks/run.py:4480-4483 | in every interleaving the conversations of a pool start in order and no more run than there are workers |
| `FleetBudget.NeverStuck` | memory/benchmarks/run.py:4480-4531 | with at least one worker, until a group is at an end one of its steps can be taken |
| `FleetBudget.CancelledForEver` | memory/benchmarks/run.py:4501-4502 | a group with a cancelled future keeps it |
| `FleetBudget.CancelledExact` | memory/benchmarks/run.py:4501-4541 | a group has a cancelled future exactly when it collected a spent account with another conversation of the pass queued |
| `FleetBudget.ExhaustedWhileQueued` | memory/benchmarks/run.py:4492-4541 | a spent account with another conversation of the pass queued: in every continuation that group never finishes, and ends by CancelledError if it ends |
| `FleetBudget.SpentBeforeQuiesce` | memory/benchmarks/run.py:4518-4531 | a group whose server was not yet asked to quiesce when the account was spent leaves it alone and reads nothing, in every continuation |
| `FleetBudget.AbortedExact` | memory/benchmarks/run.py:4492-4541 | a group that is at an end was left by CancelledError exactly when that happened |
| `FleetBudget.BrokenExact` | memory/benchmarks/run.py:4505-4531 | a group is given up before its read pass exactly when its quiesce failed |
| `FleetBudget.FinishExact` | memory/benchmarks/run.py:4553-4561 | when all groups are at an end, the exit behind them is reached exactly when neither happened in any group |
| `FleetBudget.WideEnough` | memory/benchmarks/run.py:4472-4504 | with as many workers as the server has conversations no group is aborted |
| `FleetBudget.TooNarrow` | memory/benchmarks/run.py:4472-4504 | with fewer, a reachable run in which the first conversation read finds the account spent while another is queued |
| `FleetBudget.AbortPossibleExactly` | memory/benchmarks/run.py:4472-4541 | so an abort is possible exactly when something is read and the share of the server exceeds the width of its pool |
| `StratifiedSample.GroupByCategory` | memory/benchmarks/run.py:761-765 | the queues hold the positions of each category in order, items without one left out |
| `StratifiedSample.Round` | memory/benchmarks/run.py:769-777 | one round takes the next item of each category in order until there are enough, and picks none only when all queues are empty |
| `StratifiedSample.Sample` | memory/benchmarks/run.py:755-782 | for every n the sample is in order, has min(n, categorised) items, takes a prefix of each category and is fair; the loop ends |
| `StratifiedSample.Fairness` | memory/benchmarks/run.py:758-777 | two categories differ by at most one item unless the smaller is used up, and the lower one has no less unless it is used up |
| `StratifiedSample.FirstItems` | memory/benchmarks/run.py:774-775 | with an item all earlier ones of its category are chosen |
| `StratifiedSample.SampleUnique` | memory/benchmarks/run.py:755-782 | that contract leaves exactly one answer |
| `RankMetrics.Walk` | memory/benchmarks/metrics/ir.py:56-70 | the one pass computes the gains and the precision sum |
| `RankMetrics.ScoreOne` | memory/benchmarks/metrics/ir.py:53-80 | the scores of one question are those of the specification |
| `RankMetrics.Score` | memory/benchmarks/metrics/ir.py:36-93 | the report is the mean over the questions that have gold, None without any |
| `RankValues.ReciprocalRankIs` | memory/benchmarks/metrics/ir.py:53-55 | the reciprocal rank is one over the place of the first gold entry, 1 exactly when the list starts with gold, and 0 exactly without any |
| `RankValues.PrecisionCounts` | memory/benchmarks/metrics/ir.py:76 | precision times k is the number of gold places among the first k, repetitions included; it is 1 exactly when all k are gold |
| `RankValues.RecallCounts` | memory/benchmarks/metrics/ir.py:75 | recall times the gold is the number of gold sessions among the first k |
| `RankValues.AveragePrecisionMore` | memory/benchmarks/metrics/ir.py:56-71 | from zero on, an entry adds its precision to average precision times the gold when it is new gold and nothing otherwise |
| `RankValues.NdcgMore` | memory/benchmarks/metrics/ir.py:77-80 | from zero on, an entry adds the discount of its place, as a share of the discounts of all places that gold and list can fill, when it is new gold within k |
| `RankMetrics.GainsCount` | memory/benchmarks/metrics/ir.py:57-70 | the gains of any prefix count its distinct gold sessions, so nDCG, average precision and recall see the same hits |
| `RankMetrics.FrontLoaded` | memory/benchmarks/metrics/ir.py:32-33 | of all lists with so many ones those with the ones in front have the largest discounted gain, and only those |
| `RankMetrics.NdcgIsRatio` | memory/benchmarks/metrics/ir.py:77-80 | nDCG@k lies in [0, 1] and is 1 exactly when the first min(gold, k) places hold distinct gold sessions |
| `RankMetrics.PerfectNdcgRecall` | memory/benchmarks/metrics/ir.py:12-19 | a perfect nDCG@k means that all the gold that fits was recalled |
| `RankMetrics.AveragePrecisionIsRatio` | memory/benchmarks/metrics/ir.py:56-71 | average precision lies in [0, 1] and is 1 exactly when the list begins with all the gold sessions |
| `RankMetrics.SwapNdcg` | memory/benchmarks/metrics/ir.py:63-80 | moving a first gold session one place ahead of an entry without gain raises nDCG@k when it lands in the first k places and otherwise changes nothing |
| `RankMetrics.SwapAveragePrecision` | memory/benchmarks/metrics/ir.py:63-71 | and always raises average precision |
| `RankMetrics.SwapReciprocalRank` | memory/benchmarks/metrics/ir.py:54-55 | and raises the reciprocal rank when it was the first relevant entry and otherwise keeps it |
| `RankMetrics.PrefixOnly` | memory/benchmarks/metrics/ir.py:73-80 | entries behind place k change no value at k |
| `RankMetrics.RecallGrows` | memory/benchmarks/metrics/ir.py:74-75 | recall never falls as k grows, and is 1 exactly when all gold is among the first k |
| `RankValues.ReportPerfect` | memory/benchmarks/metrics/ir.py:83-93 | every reported value is a ratio, and 1 exactly when every scored list starts with gold (MRR), with all of it (MAP), contains it (full recall), or has in its first k places all the gold, nothing but gold, or as many different gold sessions as fit |
| `RankValues.AddQuestion` | memory/benchmarks/metrics/ir.py:47-93 | a question without gold changes nothing; one with gold counts as one more and adds its own number to each reported value times the count |

## Left out

- HTTP, TLS, WiFi and the SD driver: a POST and a file operation are steps with the outcomes the code tells apart.
- The search side of the bridge (formatRagContext, buildSearchJson, log truncation): single passes without state.
- ArduinoJson: a record line has the key order of `remember` and the escaping of `jsonEscape`; the library itself is not part of this model.
- SyncRuns.AtLeastOnce: appends are whole lines; an append torn in the middle of a record is not modelled. Files are shorter than 2^64 bytes and the 32-bit `size_t` of the device is not modelled.
- MemoryRecord.ParseMemoryLine: the signed 64-bit overflow of a time with too many digits is not modelled.
- JsonText.EscapedIsRfc: `\u` escapes from U+0100 on, which the escaper never writes, are not decoded.
- The SQLite and LanceDB stores: replacing the buffer and inserting the rows are each atomic; the app and project partitions of a session are one session.
- The conversation status timestamps, the senders of a cell and the extraction pipelines behind the boundary stage.
- The detector's retries and the LLM client: a detection fails or returns cells and a tail.
- SessionLock.EqualsSerialOrder: waiting calls get the lock in any order, of which the first-come order of asyncio is one.
- BoundaryStage.SessionStore.Memorize: the status and message count that memorize reports on top of the stage's; a pipeline either raises or not.
- StageRuns.FinishedExact: a row read and dumped again is the same text; a line ends at a line feed only; answers are encodable, so no lone surrogates; a stage without questions, whose file does not exist, is not modelled.
- RowText.RowReadBack: stripping knows the blanks of ASCII and Latin-1.
- FleetSchedule.ReadsSafe: what a stage does inside a conversation is an outcome.
- FleetBudget.WideEnough: with the assumption, not needed by the other results, that the futures a pool has workers for are picked up before the first one is collected; without it a free worker may still be on its way to the queue.
- RankMetrics.NdcgIsRatio: real numbers in the place of floating point, and an abstract discount.
- Prompts, answer and judge stages, provider routing, process and port management of the benchmark runner.
