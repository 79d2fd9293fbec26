# The FEP queues and codecs, modelled and proved in Dafny

The front-end processor moves orders and fills between processes through shared-memory rings, files and
small indexes. This project models those parts and proves what they guarantee, for every input and every
run. `dafny verify dfyconfig.toml` checks all of it.

| file | what it covers |
|---|---|
| `SeamRing.dfy` | the 4096-slot staging ring: an unbounded log with four cursors (`SeamLog`), and the class that keeps it in slots (`SeamRing`) |
| `SeamSegment.dfy` | the shared segment and the SEAM_* calls of one process, each proved to be one step of a log |
| `SeamRuns.dfy` | whole runs of a log: conservation, independence of readers, at-least-once delivery with crashes |
| `SeamProcs.dfy` | many processes, statement by statement, with crashes at any statement: mutual exclusion, the magic guard, order of writers, torn slots, and when a call is as good as one step |
| `SeamRefine.dfy` | such runs refine the runs of a log, so conservation and at-least-once delivery hold over all processes |
| `HeaderCodec.dfy` | the bracketed record header and its inverse |
| `Kernel.dfy` | read() and write(), whose outcomes are inputs, and the loops around them |
| `FileLog.dfy` | the append-only file queue, with short and failing writes and reads |
| `Dshm.dfy` | the sequence-stamped ring with the file behind it: what each operation does to ring, counts and file bytes (`DshmRing`), and the class that does it (`Dshm`) |
| `DshmRuns.dfy` | what that means for the log of records: whole runs of a reader, the sync manager, lapping and restarts |
| `MicheIdx.dfy`, `MicheRuns.dfy`, `MicheFull.dfy` | the order-number cache, what it guarantees over every run of Put, and that its probes can be exhausted |
| `KeySearch.dfy` | the five-mode binary search against a linear scan |
| `SeqSave.dfy`, `SeqSaveRuns.dfy` | persisted read cursors, their throttle, and whole runs with a monotone clock |
| `SeqLoad.dfy` | restoring the persisted cursors at a start |
| `Framing.dfy` | splitting the market-data stream into packets |
| `Ini.dfy` | the configuration printer and parser, and their round trip |
| `IniLines.dfy` | the lines of an exported file, section by section and marker by marker |
| `Bytes.dfy` | bytes, `%08d` texts and AtoIf |

Code that changes state in place is a class or a method with loops, proved equal to a function; the
theorems are then about that function over whole runs. So a class operation is `SeamQueue.Read`, its
meaning is `Cursor.Read` and `Delivery`, and `SeamRuns.Conservation` speaks of every run of those.
The SEAM_* calls of `SeamSegment.Segment` are stated as steps of `SeamRuns.Log`, and the statement-by-
statement calls of `SeamProcs` are proved to come to the same steps. The methods of `Dshm.DshmQueue` are
stated on `DshmRing.Machine`, whatever its bytes hold; `DshmRuns.Step` is made of the same operations, and
only there a log of records is put beside the machine.

## What does not hold

Each of these is stated with the exact condition under which the code does meet the property.

- A crash between the slot copy and `w_seq++` in seam_ring_write (SEM_UNDO gives the lock to the next
  process) leaves the record at `w_seq - 4096` overwritten but still readable: `TornSlot`. The next
  write mends it: `NextWriteMends`.
- A crash between the two statements of the lapped-reader step counts a loss twice: `CrashInsideJump`. A
  crash between the two statements of a commit leaves r_seq beyond w_seq, and later records are passed over
  uncounted, exactly when n is more than the unread records: `InterruptedCommit`. These two are the only
  crashes that leave a reader unsound: `CrashClean`, `ReadersSound`.
- seam_ring_commit of more than was peeked skips unreturned records: `CommitCovers`.
- Miche_Idx_Put says it overwrites the last probe position when 32 probes fail. It writes the cell after
  it, which Miche_Idx_Get never looks at, so a value just put cannot be found, and no Put of that key
  makes it findable before the next Reset: `PutThenGet`, `FullForever`. It does happen: from any Reset
  there are 33 order numbers that lead to it (`PutsThatLose`), and 32 keys never do (`FewKeysExact`). A hit
  is still never wrong: `HitsAreRight`.
- A restart takes the data-SHM write count from the file size and the read counts and the sync manager's
  count from their saved copies. Readers are served rightly from there on if and only if the reader's cursor
  is not beyond the file, the file holds whole records, and the manager's count is their number:
  `RestartIsSafe`. A manager that died between its write and its count, or a count that is not restored, is
  enough to break it: a blank goes into the file and a reader is handed it for a record: `ManagerBehind`,
  `BlankIsHandedOut`.
- The data-SHM sync manager copies slots without looking at their stamps; the file stops being the log
  exactly when the manager has been lapped, and a reader is then handed another record for the one it waits
  for: `SyncIsRight`, `LappedManagerMisleads`.
- A failed append leaves the file aligned with w_cnt exactly when it has written no byte; repeated after k
  whole records it leaves those twice, with the same numbers: `FailedAppends`, `RetryRepeats`.
- Seq_Save notes the time of a save before it has the lock. If the lock is refused, the next save within the
  interval is skipped all the same, and has a save that recent behind it exactly when an earlier save or flush
  was: `RefusedLockMutes`.
- A file name keeps the place it was first saved for: a save of the same name for another place writes the
  cursors of the first (`FirstPlaceStays`). With one place per name the file shows that place's cursors:
  `SaveShowsPlace`, `FileIsOfPlace`.
- A start leaves the cursors of a file queue at 0 when the data file is empty, whatever was saved:
  `SavedIsRestored`.
- A sequence number of nine digits names a much older record: `SeqRoundTrip`, `NineDigitsAlias`.
- A header field with a NUL loses what follows it: `RoundTrip`, `FileRoundTrip`.
- A start restores data-SHM counts only from a _dseq file that holds all ten of them, so none is restored
  before the sync manager has saved its own: `DseqRestored`, `NothingBeforeTheLast`. They then begin at 0,
  which `RestartIsSafe` shows to be right only over an empty file.
- The packet receiver can wedge, and then for good, exactly on a stream with a packet of more than 8192 bytes
  or with 8192 bytes or more behind its last packet: `WedgesExactlyWhen`, `NoRunGetsPast`.
- A printed .ini line, read as the parser reads it, gives back just the row it was printed from exactly when
  key and value are printable and neither holds a line break: `LineRoundTrip`.

## Model

| member | source | states |
|---|---|---|
| `SeamLog.Padded` | st01/sub/seam_ring.c:32-33 | a stored record is 480 bytes: the bytes written, and blanks behind them |
| `SeamRing.SeamQueue.Write` | st01/sub/seam_ring.c:19-37 | the log grows by one record of 480 bytes: the caller's byte j for j below recsz and blanks behind, so the first 480 bytes of a longer record and only blanks for a negative recsz; a NULL record changes nothing and gives -1 |
| `SeamRing.SeamQueue.SkipLost` | st01/sub/seam_ring.c:59-63 | a lapped reader jumps to w_seq-4096 and what it skips is added to its own dropped, no other reader's |
| `SeamRing.SeamQueue.Read` | st01/sub/seam_ring.c:45-72 | the bytes copied are the log slice from max(r_seq, w_seq-4096), the cursor moves by the count returned, the other readers and the rest of the buffer stay |
| `SeamRing.SeamQueue.Peek` | st01/sub/seam_ring.c:80-109 | the same slice, and the cursor stays but for the jump |
| `SeamRing.SeamQueue.Commit` | st01/sub/seam_ring.c:115-123 | the cursor advances by n and never past w_seq; bad arguments change nothing |
| `SeamLog.CursorMeans` | st01/sub/seam_ring.c:45-123 | in figures: a reader more than 4096 behind is brought to w_seq-4096 and the difference counted, a read then moves it by what there is up to max, a peek does not, a commit of n moves it by n but not past w_seq, any other call does nothing; readers are 0 to 3 |
| `SeamLog.NextIsGiven` | st01/sub/seam_ring.c:45-72 | a reader that has read everything is given the next record written, and no other |
| `SeamSegment.Segment.Init` | st01/sub/seam_queue.c:45-101 | attaching changes no log, whichever process does it first and whatever the segment held before the magic was stored |
| `SeamSegment.Segment.Write` | st01/sub/seam_queue.c:107-121 | the log of queue 0 or 1 grows by that record, byte by byte as for the ring, and no other log changes; -1 and no change for a failed attach, a bad queue or a NULL record |
| `SeamSegment.Segment.Read` | st01/sub/seam_queue.c:128-151 | one read step of the chosen log, the records of that step, and its error cases |
| `SeamSegment.Segment.Peek` | st01/sub/seam_queue.c:157-180 | one peek step, likewise |
| `SeamSegment.Segment.Commit` | st01/sub/seam_queue.c:185-199 | one commit step, likewise |
| `SeamRuns.Independence` | st01/sub/seam_ring.c:45-123 | in every run a reader's cursor, losses and deliveries are those of a queue without the other readers |
| `SeamRuns.Conservation` | st01/sub/seam_ring.c:45-109 | over every run of writes, reads and peeks the records delivered are the log with exactly the dropped indices removed |
| `SeamRuns.OnlyLappedAreLost` | st01/sub/seam_ring.c:59-63 | an index counted as dropped lies more than 4096 behind the writer |
| `SeamRuns.NeverLapped` | st01/sub/seam_ring.c:45-72 | with at most 4096 records written a reader is given the whole log |
| `SeamRuns.Accounting` | st01/sub/seam_ring.c:45-72 | delivered + dropped = r_seq, and one more read of a whole ring brings delivered + dropped to w_seq, for every reader of a fresh queue whatever the others do |
| `SeamRuns.NothingGoesBack` | st01/sub/seam_ring.c:19-123 | in every run the log only grows and no cursor or loss count decreases |
| `SeamRuns.ReadIsPeekThenCommit` | st01/sub/seam_ring.c:45-123 | a read equals a peek and the commit of its return value, in output and state; peeking twice is peeking once |
| `SeamRuns.ReadsCompose` | st01/sub/seam_ring.c:45-72 | reads of m1..mk with no write between equal one read of their sum, in output and state |
| `SeamRuns.AtLeastOnceStep` | st01/sub/seam_ring.c:80-123 | every write, peek, commit of the returned count, and crash keeps: each index below r_seq was returned or is dropped, and committed + dropped = r_seq |
| `SeamRuns.AtLeastOnceAlways` | st01/sub/seam_ring.c:74-123 | hence at-least-once delivery after every run with crashes and restarts |
| `SeamRuns.CommitCovers` | st01/sub/seam_ring.c:115-123 | committing m after a peek of n keeps every passed index covered if and only if m <= n or the clamp stops within the peeked records |
| `SeamRuns.CrashInsideJump` | st01/sub/seam_ring.c:61-62 | a crash between the two statements makes dropped too high by the skip, so the count is exact if and only if nothing was skipped |
| `SeamProcs.NextKeeps` | st01/sub/seam_ring.c:45-123 | every statement of a read, peek or commit keeps the ring and the reader, up to the marks that say what a crash here would leave |
| `SeamProcs.StepExclusive` | st01/sub/semipc.c:61-100 | mutual exclusion is kept by every statement of every process, crashes included |
| `SeamProcs.StepGuarded` | st01/sub/seam_queue.c:83-90 | no step moves the segment under a process inside the lock; nobody writes before the magic is stored |
| `SeamProcs.StepRings` | st01/sub/seam_ring.c:19-123 | every statement of a write, read, peek or commit, and every crash, keeps each queue a ring over its log, except for the one slot a dead writer may have torn, with readers sound but for their marks |
| `SeamProcs.StepInterleaved` | st01/sub/seam_queue.c:107-121 | every step keeps each log an interleaving of what the writers published, in each writer's order |
| `SeamProcs.EveryRun` | st01/sub/seam_queue.c:45-199 | mutual exclusion, rings over their logs and each writer's order after every run of any number of processes, with crashes at any statement |
| `SeamProcs.NoReset` | st01/sub/seam_queue.c:83-90 | once the magic is stored no step of any run shortens a log or moves a loss count back, nor a cursor, as far as the log goes |
| `SeamProcs.CrashClean` | st01/sub/seam_ring.c:59-63 | a crash leaves a mark on a reader if and only if it falls between the two statements of the jump, or of a commit that went past w_seq |
| `SeamProcs.StepClean` | st01/sub/seam_ring.c:45-123 | no other step of any process leaves one |
| `SeamProcs.ReadersSound` | st01/sub/seam_ring.c:45-123 | in every run without those two crashes 0 <= dropped <= r_seq <= w_seq for every reader whenever the lock is free |
| `SeamProcs.CallIsOneStep` | st01/sub/seam_ring.c:45-123 | statement by statement a call moves its cursor and copies its slots as the one step of the log does |
| `SeamProcs.CallsAreAtomic` | st01/sub/seam_queue.c:128-199 | in every such run each finished read, peek or commit has done just that step, and handed out the log slice unless the slot is torn |
| `SeamProcs.InterruptedCommit` | st01/sub/seam_ring.c:120-122 | a commit cut off between its two statements is as good as whole if and only if n is at most the unread records; otherwise no later read starts below the cursor it leaves and dropped does not count what is passed over |
| `SeamRefine.StepRefines` | st01/sub/seam_queue.c:107-199 | every statement of every process, and every crash but the two, leaves each queue's log alone or moves it by the call that ends there |
| `SeamRefine.RunRefines` | st01/sub/seam_queue.c:45-199 | after every run of any number of processes without those two crashes each queue is what the whole writes, reads, peeks and commits of the run, in the order they took effect, make of an empty log |
| `SeamRefine.AccountingForAll` | st01/sub/seam_ring.c:45-72 | in every such run the records handed out to a reader and dropped make r_seq, whichever processes read |
| `SeamRefine.ConsumerFollows` | st01/sub/seam_ring.c:80-123 | the peeks, cut peeks and commits of a reader move the consumer of the at-least-once theorem as they move the log |
| `SeamRefine.AtLeastOnceForAll` | st01/sub/seam_ring.c:74-123 | in every such run, when a reader is only peeked and committed with the count last returned, by whichever processes, each index below r_seq was returned by a finished peek or is counted once in dropped, and committed + dropped = r_seq |
| `SeamProcs.ZeroingComesFirst` | st01/sub/seam_queue.c:83-90 | a step that clears a queue is the magic-guarded memset and comes before any write |
| `SeamProcs.CopiedIsTheLog` | st01/sub/seam_ring.c:65-71 | what is copied out of the slots is the log slice, unless the slot is torn and the reader is at the window's end |
| `SeamProcs.TornSlot` | st01/sub/seam_ring.c:32-35 | after a writer dies between copy and w_seq++ a read is still the log slice if and only if the reader is within 4095 of w_seq or the two records are equal |
| `SeamProcs.NextWriteMends` | st01/sub/seam_ring.c:30-36 | the next completed write makes the ring whole again |
| `HeaderCodec.StripEncode` | st01/sub/shm_rw.c:213-247 | stripping an encoded record gives the field texts, the write number and the payload, for every record |
| `HeaderCodec.RoundTrip` | st01/sub/shm_rw.c:116-129 | the record comes back with only the sequence field replaced if and only if no header field holds a NUL |
| `HeaderCodec.SeqRoundTrip` | st01/sub/shm_rw.c:77 | the write number reads back as itself if and only if it is below 10^8 |
| `HeaderCodec.NineDigitsAlias` | st01/sub/shm_rw.c:222-223 | record 100000000 carries the number 10000000 |
| `HeaderCodec.EncodeLayout` | st01/sub/shm_rw.c:221-247 | the header by position: '[' at 0, 10, 20, 30, 36, 48 and 62, ']' at 19, 29, 35, 47, 61 and 83, between them the texts of bytes 8-15, 16-23, 24-27, 28-37, 38-49 and 50-69, the payload from 84 on |
| `HeaderCodec.EncodeNumber` | st01/sub/shm_rw.c:222-226 | bytes 1 to 8 are the first eight digits of the number, and byte 9 is ']' below 10^8 |
| `HeaderCodec.TextAt` | st01/sub/shm_rw.c:227-242 | a field's text is the field up to its first NUL and blanks from there |
| `Bytes.AtoIf` | st01/sub/atoif.c:19-40 | the loop computes the digit value of the first len characters, negative if a minus sign is among them |
| `Bytes.SeqTextReadsBack` | st01/sub/atoif.c:19-40 | eight characters of a printed count read back as the count if and only if it is below 10^8 |
| `Bytes.DecimalDigit` | st01/sub/shm_rw.c:222 | character k of a printed number is its digit of that weight |
| `FileLog.FileQueue.StrLen` | st01/sub/file_rw.c:360 | the length is that of the batch, because no line holds a NUL |
| `FileLog.FileQueue.PutLine` | st01/sub/file_rw.c:315-353 | the buffer gets the bracketed, NUL-free line behind what it held, and nothing else changes |
| `FileLog.FileQueue.FillBuffer` | st01/sub/file_rw.c:302-358 | the buffer holds the batch numbered from w_cnt+1, and NULs behind it |
| `FileLog.FileQueue.WriteAll` | st01/sub/file_rw.c:363-376 | for every sequence of write() results: as many bytes of the batch are appended as the calls moved, and it fails exactly when a call does before the end |
| `FileLog.FileQueue.FWProc` | st01/sub/file_rw.c:293-409 | for every sequence of write() results: when none fails file and w_cnt grow by exactly the batch; when one does w_cnt stays and what the calls before it wrote is in the file |
| `Kernel.WriteText` | st01/sub/file_rw.c:363-376 | the write loop: the text goes behind the file up to the first call that fails |
| `Kernel.NoErrorWrites` | st01/sub/file_rw.c:366-374 | all of it is written, in however many pieces, unless a call fails |
| `Kernel.ReadWindow` | st01/sub/file_rw.c:137-163 | the bytes read are those available at the offset, however read() splits them, unless a call fails |
| `Kernel.NoErrorReads` | st01/sub/file_rw.c:141-161 | the loop fails only when a call has failed |
| `FileLog.Records` | st01/sub/file_rw.c:165-168 | a byte count that ends within a record is refused |
| `FileLog.StripLoop` | st01/sub/file_rw.c:170-191 | the output is every record of the window, stripped |
| `FileLog.FRProc` | st01/sub/file_rw.c:129-196 | it fails exactly when a read call does; otherwise result and records are a function of the bytes available, as long as those fit the buffers |
| `FileFormat.StripRecords` | st01/sub/file_rw.c:173-191 | reading whole records strips them one by one |
| `FileFormat.LineLayout` | st01/sub/file_rw.c:315-353 | the line in the file by position: brackets, field texts and number as in `HeaderCodec.EncodeLayout` |
| `FileFormat.LinePayload` | st01/sub/file_rw.c:338-353 | its payload from byte 84 on, a blank for every NUL |
| `Batches.PrintedAppend` | st01/sub/file_rw.c:306-314 | numbering goes on from one batch to the next |
| `Batches.AppendsAreOne` | st01/sub/file_rw.c:293-409 | any run of appends leaves what one append of all records would |
| `FileRuns.BatchIsPrinted` | st01/sub/file_rw.c:314-358 | what F_W_Proc appends is the batch printed line by line, so the run theorems apply to it |
| `FileRuns.FileIsTheLog` | st01/sub/file_rw.c:293-409 | after any run of successful appends the file is w_cnt records long and record k is the k-th one appended, numbered k+1 |
| `FileRuns.LineSeq` | st01/sub/file_rw.c:317-319 | and that number can be read in the line |
| `FileRuns.FailedAppends` | st01/sub/file_rw.c:363-378 | with failed appends in the run the file is what the successful ones wrote if and only if no failed one had written a byte |
| `FileRuns.RetryRepeats` | st01/sub/file_rw.c:363-378 | an append that failed after k whole records and is repeated leaves those records twice, with the same numbers |
| `FileRuns.StripScrub` | st01/sub/file_rw.c:347-353 | replacing NULs and stripping brackets commute |
| `FileRuns.FileRoundTrip` | st01/sub/file_rw.c:129-196 | a record comes back through the file with only its number replaced if and only if it holds no NUL |
| `Dshm.DshmQueue.CopyRecords` | st01/sub/shm_rw.c:71-132 | the ring path gives up if and only if the first slot does not carry the number wanted, and otherwise copies and strips the slots |
| `Dshm.DshmQueue.Fetch` | st01/sub/shm_rw.c:61-141 | count, bytes and advance of a call, by ring or by file, whatever ring and file hold; it fails exactly when it goes to the file and an open, lseek or read fails |
| `Dshm.DshmQueue.Read` | st01/sub/shm_rw.c:25-142 | 1 to 45 records, kinds 1 to 3 and cursors 0 to 8 are accepted and nothing else; an accepted call on a queue that holds the reader's record does not fail and returns at least 1, beginning with that record; for every other call result, bytes and the one cursor that may move; refusals and read errors move nothing |
| `Dshm.DshmQueue.PutRecord` | st01/sub/shm_rw.c:216-250 | one slot and the count change: the record encoded with its number |
| `Dshm.DshmQueue.WriteCore` | st01/sub/shm_rw.c:192-282 | a buffer is written record by record, for any numbers |
| `Dshm.DshmQueue.CopyBatch` | st01/src/PW/pw_1000_mp.c:213-220 | the manager's batch is the next slots up to the first that starts with a line feed |
| `Dshm.DshmQueue.AppendAll` | st01/src/PW/pw_1000_mp.c:246-264 | for every sequence of write() results: the batch goes behind the file up to the first call that fails, and it fails exactly when one does before the end |
| `Dshm.DshmQueue.Sync` | st01/src/PW/pw_1000_mp.c:182-270 | one round of the manager: the batch is in the file and counted, or, exactly when lseek or a write fails, a part of it is in the file and not counted; a slot with a line feed is passed over; a round with records to come makes progress |
| `Dshm.DshmQueue.Restart` | st01/sub/config_db.c:1107-1152 | w_cnt from the file size, an empty ring, and the ten counts restored or 0 |
| `Dshm.DshmQueue.AddCount` | st01/sub/shm_rw.c:153-177 | the one cursor named moves by the count; bad arguments end the process and move nothing |
| `DshmRing.StampEncode` | st01/sub/shm_rw.c:77 | a record's stamp is its number below 10^8 |
| `DshmRing.HeldIsReturned` | st01/sub/shm_rw.c:71-141 | a call on a queue whose slot holds the reader's record never fails, returns as many records as there are up to the number asked for, and begins with that record |
| `DshmRing.WriteThenRead` | st01/sub/shm_rw.c:71-250 | a record just written is what a reader that had read everything is given next |
| `DshmRing.FailsOnError` | st01/sub/shm_rw.c:71-107 | without an error of the file system no call fails; one served from the ring never does; one that goes to the file does when open, lseek or the first read fails |
| `DshmRing.CellLayout` | st01/sub/shm_rw.c:216-247 | how a written record stands in its slot, by position |
| `DshmRuns.HoldsNext` | st01/sub/shm_rw.c:216-249 | after a write the slots hold exactly the last max_rec records since the segment was created |
| `DshmRuns.FirstStampDecides` | st01/sub/shm_rw.c:76-77 | the first record's stamp matches if and only if it has not been overwritten, and then no record behind it has been |
| `DshmRuns.BlankStamp` | st01/sub/shm_rw.c:76-77 | a zeroed slot carries number 0, which no reader waits for |
| `DshmRuns.FileWindow` | st01/sub/shm_rw.c:91-102 | the file path hands out a prefix of the same records as the ring path |
| `DshmRuns.ReadIsTheLog` | st01/sub/shm_rw.c:61-141 | while ring, stamps and file belong to one log, a call by ring or by file hands out that log from the cursor on, stripped, and moves the cursor by as many records |
| `DshmRuns.NewQueueIsIntact` | st01/sub/shm_rw.c:192-282 | in a queue just created over an empty file ring, stamps and file belong to one log, the empty one |
| `DshmRuns.WriteKeeps` | st01/sub/shm_rw.c:216-250 | a write keeps ring, stamps and file one log, longer by the record |
| `DshmRuns.SyncIsRight` | st01/src/PW/pw_1000_mp.c:213-266 | the file goes on being the log if and only if the manager has not been lapped |
| `DshmRuns.WriteAllIsRun` | st01/sub/shm_rw.c:216-250 | a buffer written by the class is a run of write events |
| `DshmRuns.MovedIsSyncs` | st01/src/PW/pw_1000_mp.c:213-266 | a round of the manager is a run of sync events |
| `DshmRuns.BatchIsLog` | st01/src/PW/pw_1000_mp.c:213-264 | what an unlapped manager leaves in the file when it dies within a round is a part of the log |
| `DshmRuns.StepKeeps` | st01/sub/shm_rw.c:25-282 | every event keeps ring, stamps and file one log |
| `DshmRuns.StepDelivers` | st01/sub/shm_rw.c:25-142 | what the slots or the file bytes give in one event is the log between the reader's old and new cursor |
| `DshmRuns.GapFree` | st01/sub/shm_rw.c:76-141 | over every run of writes, syncs, reads and restarts in which the manager is not lapped and every restart restores the counts as they were, the cursor not beyond the file, the bytes handed out are the log without gap or repetition, however often the ring is lapped, and the file is a whole prefix of the log |
| `DshmRuns.NeverStarved` | st01/sub/shm_rw.c:61-141 | a reader with records to come gets some, while the sync manager is not lapped |
| `DshmRuns.LappedManagerMisleads` | st01/src/PW/pw_1000_mp.c:213-266 | once the manager has been lapped by one record and goes on, a reader at its place is handed another record and passes its own |
| `DshmRuns.RestartIsSafe` | st01/sub/config_db.c:1107-1152 | every run after a restart serves the reader rightly and keeps the file the log if and only if its cursor is not beyond the file, the file holds whole records and the manager's restored count is their number |
| `DshmRuns.ReaderBeyondFile` | st01/sub/shm_rw.c:62-138 | a cursor beyond the file makes the next read return a negative count and move the cursor back |
| `DshmRuns.ManagerBehind` | st01/src/PW/pw_1000_mp.c:182-220 | a manager behind its file appends a blank |
| `DshmRuns.ManagerAhead` | st01/src/PW/pw_1000_mp.c:182-220 | a manager ahead of its file leaves records out of it |
| `DshmRuns.BlankIsHandedOut` | st01/sub/shm_rw.c:76-141 | a lap later a reader at the end of the old file is handed that blank for its next record, and its cursor passes it |
| `MicheIdx.Index.Reset` | st01/sub/miche_idx.c:34-44 | every cell is empty, the keys stay |
| `MicheIdx.Index.HashOf` | st01/sub/miche_idx.c:14-28 | the loop is FNV-1a over ten bytes cut to 14 bits |
| `MicheTable.HashMeans` | st01/sub/miche_idx.c:14-28 | the hash in figures: from 2166136261, for every byte the exclusive or into the low byte and the product with 16777619 modulo 2^32, at the end modulo 16384 |
| `MicheTable.XorOfBytes` | st01/sub/miche_idx.c:23 | the exclusive or, bit by bit |
| `MicheTable.HashOfOne` | st01/sub/miche_idx.c:14-28 | the text "1" has FNV value 873244444 and hash 10012 |
| `MicheIdx.Index.Put` | st01/sub/miche_idx.c:53-75 | exactly one cell changes: the first that is empty or holds the key, or the one after 32 failed probes |
| `MicheIdx.Index.Get` | st01/sub/miche_idx.c:83-102 | the slot at the first such cell, or -1 |
| `MicheRuns.StepKeeps` | st01/sub/miche_idx.c:53-75 | a Put, evicting or not, keeps every key within 32 of its hash with all nearer cells taken, and every value current |
| `MicheRuns.OneCellPerKey` | st01/sub/miche_idx.c:61-71 | no key occupies two cells |
| `MicheRuns.HitsAreRight` | st01/sub/miche_idx.c:83-102 | in every run since Reset a value Get returns is the last one put for that key |
| `MicheRuns.PutThenGet` | st01/sub/miche_idx.c:61-73 | a value just put is found if and only if its 32 probes had not all failed |
| `MicheRuns.FullForever` | st01/sub/miche_idx.c:53-102 | a key whose window is full is not found again in any run before Reset, however often it is put |
| `MicheRuns.PutKeepsOthers` | st01/sub/miche_idx.c:53-75 | a Put that finds its cell changes the answer for no other key |
| `MicheRuns.ExactMap` | st01/sub/miche_idx.c:53-102 | while no Put has used up its probes the cache is a map: the last value put, -1 for absent keys |
| `MicheRuns.OccupantsAndOne` | st01/sub/miche_idx.c:61-67 | a failed window and its key take 33 distinct keys |
| `MicheRuns.FewKeysExact` | st01/sub/miche_idx.c:53-102 | with at most 32 distinct keys since Reset the cache is a map, whatever their hashes |
| `MicheFull.Pigeonhole` | st01/sub/miche_idx.c:14-28 | among more than m * c numbers put into m classes c + 1 are in one |
| `MicheFull.FillWindow` | st01/sub/miche_idx.c:53-75 | keys of one hash put into a fresh table take the cells of its window in order |
| `MicheFull.PutsThatLose` | st01/sub/miche_idx.c:53-102 | from any Reset there are 33 different ten-digit order numbers after whose Puts Get does not find the last one, so 32 keys are the most that are always safe |
| `KeySearch.ScanIsTheAnswer` | st01/sub/key_search.c:85-99 | the linear scan gives the one index that answers the mode: the match, the greatest below, the least above, or -1 |
| `KeySearch.ModesMean` | st01/sub/key_search.c:85-99 | the five modes in signs of the comparison results |
| `KeySearch.BsearchMode` | st01/sub/key_search.c:101-200 | the loop equals the scan in all five modes, terminates, and makes at most ceil(log2(n-1)) + 2 comparisons |
| `KeySearch.CeilLog2Least` | st01/sub/key_search.c:121-199 | the bound's logarithm is the least power of two that covers n |
| `KeySearch.MemcmpEqual` | st01/sub/key_search.c:67-72 | the comparator is 0 on equal codes only, and antisymmetric |
| `KeySearch.MemcmpLess` | st01/sub/key_search.c:67-72 | a code is below another exactly when it has the smaller byte at their first difference |
| `KeySearch.MemcmpTransitive` | st01/sub/key_search.c:67-72 | a code below a second one that is not above a third is below the third |
| `KeySearch.SortedIsAscending` | st01/sub/key_search.c:67-72 | a table sorted by it is ascending against every key |
| `KeySearch.KeySearchFif` | st01/sub/key_search.c:42-53 | the index stored for the code, or NOTOK when the code is absent or its index is negative |
| `CursorText.SavedReadsBack` | st01/sub/seq_save.c:117-122 | each of the nine saved cursors reads back as itself if and only if it is below 10^8 |
| `CursorText.SavedTextAt` | st01/sub/seq_save.c:117-122 | cursor i stands at byte 8i as the first eight characters of its zero-padded decimal text |
| `CursorText.SavedAtMost` | st01/sub/seq_save.c:117-122 | and never as more |
| `CursorText.OneSavedReadsBack` | st01/sub/seq_save.c:243-250 | saving one cursor in place changes that one and no other |
| `Throttle.Check` | st01/sub/seq_throttle.c:59-88 | when the save is skipped and what the table of last saves becomes |
| `Throttle.CheckMeans` | st01/sub/seq_throttle.c:59-88 | in figures: with an interval set a save is skipped exactly when its key was noted less than that ago; otherwise the time is noted, under a new entry of at most 63 characters while there are fewer than eight |
| `SeqSave.Saver.FdGet` | st01/sub/seq_save.c:41-80 | the cached stream of a path, opened at most once with the caller's place, up to eight; a missing file changes nothing |
| `SeqSave.Saver.SeqSave` | st01/sub/seq_save.c:142-167 | NOTOK for a file that cannot be opened or locked, a skip that leaves the file alone, or a snapshot of the live cursors of the stream's place |
| `SeqSave.Saver.WriteSlotOf` | st01/sub/seq_save.c:90-130 | the snapshot is written and OK, or the lock is refused and nothing changes |
| `SeqSave.Saver.Flush` | st01/sub/seq_save.c:178-189 | every cached _seq stream that can be locked is written, in order |
| `SeqSaveRuns.KeyInjective` | st01/sub/seq_save.c:161 | different files and places have different throttle keys |
| `SeqSaveRuns.KeyStored` | st01/sub/seq_throttle.c:80-85 | such a key is stored whole |
| `SeqSaveRuns.SaveResult` | st01/sub/seq_save.c:142-167 | it is -1 exactly when the file has no stream and is missing or eight are open, or when a save that is not skipped is refused the lock, else 0 |
| `SeqSaveRuns.SaveShowsPlace` | st01/sub/seq_save.c:73-130 | a save neither skipped nor refused makes the file show the live cursors of the caller's place, when earlier saves of the name were for that place, and leaves every other file alone |
| `SeqSaveRuns.FirstPlaceStays` | st01/sub/seq_save.c:48-51 | when they were for another place it writes the cursors of that one |
| `SeqSaveRuns.FileIsOfPlace` | st01/sub/seq_save.c:90-167 | after any run that saves a name for one place its file is never ahead of that place's live cursors, and the next save that goes through makes it show them |
| `SeqSaveRuns.FlushShowsPlace` | st01/sub/seq_save.c:178-189 | and so does a flush |
| `SeqSaveRuns.RunKeeps` | st01/sub/seq_save.c:90-189 | every run keeps: files show their last snapshot, exactly each cursor below 10^8 and less for any other, live cursors are at or above it, and, if no save was refused its lock, every throttle entry has a save behind it |
| `SeqSaveRuns.NeverAhead` | st01/sub/seq_save.c:90-130 | in every run no persisted cursor exceeds the live one, however many digits it has |
| `SeqSaveRuns.SkipFollowsSave` | st01/sub/seq_save.c:160-166 | in runs where every save got its lock, a skipped save at time t follows a save of that file later than t - interval, which the file still shows |
| `SeqSaveRuns.NextSkips` | st01/sub/seq_throttle.c:70-88 | the next attempt within the interval is skipped if and only if its key is in the table or still fits |
| `SeqSaveRuns.RefusedLockMutes` | st01/sub/seq_save.c:160-166 | after any run, when a save is let through at t0 and the next one at t1 within the interval is skipped, there is a save of the file later than t1 - interval behind the skip if and only if the first was given the lock or some earlier save or flush was that recent; a refused lock is reported and changes no file |
| `SeqSaveRuns.FlushCatchesUp` | st01/sub/seq_save.c:178-189 | after a flush every cached _seq file that can be locked shows a live cursor as it is if and only if that is below 10^8, and never more; the cache and the cursors are left alone |
| `SeqSaveRuns.FlushIsComplete` | st01/sub/seq_save.c:178-189 | the same at the end of any run |
| `SeqLoad.ReadSeq` | st01/sub/config_db.c:1129-1145 | the loop ends full exactly when no read call fails and the file has all the bytes wanted, however read() splits them |
| `SeqLoad.ParseSeq` | st01/sub/config_db.c:1146-1148 | the ten or nine numbers of the buffer, by position |
| `SeqLoad.Load` | st01/sub/config_db.c:849-880 | the cursors of a complete file, and none of an incomplete one or exactly when a read call fails |
| `SeqLoad.LoadSeq` | st01/sub/config_db.c:827-882 | the cursors of a file queue after a start: those of a complete _seq file, and none over an empty data file or after a failing read call |
| `SeqLoad.SavedIsRestored` | st01/sub/config_db.c:827-882 | what Seq_Save wrote comes back over a restart if and only if every cursor is below 10^8, or, over an empty data file, if and only if every cursor was 0 |
| `SeqLoad.DseqRestored` | st01/sub/config_db.c:1116-1152 | a start after Dshm_Seq_Save restores the saved cursor and the others if and only if the file holds all ten |
| `SeqLoad.NothingBeforeTheLast` | st01/sub/seq_save.c:204-258 | after any run of saves cursors can be restored if and only if the last one had been saved |
| `Framing.Receiver.Receive` | st01/sub/select_recv.c:432-495 | the packet up to the first delimiter of residue and new bytes, the rest kept; timeouts and errors change nothing |
| `Framing.NothingLost` | st01/sub/select_recv.c:462-494 | for every way recv cuts the stream, packets returned and residue together are the bytes received |
| `Framing.TakenIs` | st01/sub/select_recv.c:463 | recv takes the bytes waiting from the front, as far as there is room |
| `Framing.NothingArrivedIsLost` | st01/sub/select_recv.c:432-495 | over every run of arrivals there is room for, with timeouts and errors between them, packets returned and residue are exactly the bytes that arrived |
| `Framing.PacketMeans` | st01/sub/select_recv.c:478-489 | a packet ends in the bytes 255, 13, 10 and has them nowhere before |
| `Framing.AllPackets` | st01/sub/select_recv.c:478-489 | each packet ends in FF 0D 0A with no earlier occurrence |
| `Framing.SplitUnique` | st01/sub/select_recv.c:478-489 | a stream splits into packets in one way |
| `Framing.OutputIsTheSplit` | st01/sub/select_recv.c:462-494 | the output is the first packets of that split, and the residue holds the others |
| `Framing.CutsDoNotMatter` | st01/sub/select_recv.c:462-494 | two runs over the same bytes, cut differently, agree as far as both go |
| `Framing.CaughtUp` | st01/sub/select_recv.c:475-494 | a run has returned every packet if and only if its residue holds none; one packet a call at most |
| `Framing.FullMeansNoDelimiter` | st01/sub/select_recv.c:463 | a full buffer holds no delimiter, and no run goes on from it |
| `Framing.WedgesExactlyWhen` | st01/sub/select_recv.c:462-494 | recv can cut a beginning of the stream so that the buffer fills up if and only if the stream has a packet of more than 8192 bytes, or 8192 bytes or more behind its last packet |
| `Framing.NoRunGetsPast` | st01/sub/select_recv.c:462-494 | no run, however the stream is cut, takes in more than 8192 bytes from where the first packet begins that does not fit |
| `CText.StrTrim` | st01/utl/ini2db.c:197-204 | the loop drops trailing blanks and line ends |
| `CText.StrUpper` | st01/utl/ini2db.c:187-192 | the loop raises every letter and nothing else |
| `CText.TrimMeans` | st01/utl/ini2db.c:197-204 | what is trimmed is all the blanks, tabs and line ends at the end and nothing else |
| `CText.UpperMeans` | st01/utl/ini2db.c:187-192 | the letters a to z become those 32 below, every other byte stays |
| `IniParser.AcceptLine` | st01/utl/ini2db.c:397-463 | one line moves the parser as its class says: section start, end, marker, pair, or nothing |
| `IniParser.ParseGeneric` | st01/utl/ini2db.c:375-469 | the table and count after a whole file, lines cut at the 1024-byte buffer |
| `IniParser.InsertMeans` | st01/utl/ini2db.c:209-245 | a row with the section and key of another replaces it, all others stay |
| `IniParser.ParseKeepsUnique` | st01/utl/ini2db.c:375-469 | importing any text keeps one row for every section and key |
| `IniParser.PairMeans` | st01/utl/ini2db.c:429-463 | a pair inside a section becomes the row of that section, key and value with the next sort_order; outside one it changes nothing |
| `IniParser.RemarkLeftOut` | st01/utl/ini2db.c:429-459 | key=value with a remark behind a blank is read without the remark |
| `IniParser.OtherLines` | st01/utl/ini2db.c:400-437 | what begins a section, and what is passed over |
| `IniRoundTrip.NothingBetweenSections` | st01/utl/ini2db.c:421-431 | from the end of a section to the beginning of the next nothing is imported, whatever stands there |
| `IniPrinter.PrintRow` | st01/utl/db2ini.c:183-224 | one row prints section change, item boundary and entry |
| `IniPrinter.ExportGeneric` | st01/utl/db2ini.c:143-243 | the whole text is the heading, the rows' lines and the closing lines |
| `IniLines.ExportIsBlocks` | st01/utl/db2ini.c:143-233 | the exported text is the heading and one block of lines for every section, with keys repeated or not |
| `IniLines.BlockMarkers` | st01/utl/db2ini.c:176-233 | a block begins with its START line and ends with the marker and its END line; the markers in it number the rows with the section's first key |
| `IniLines.RowInBlock` | st01/utl/db2ini.c:200-224 | within a section a row has the marker directly before it exactly when its key repeats the section's first key |
| `IniRoundTrip.TrimmedRoundTrip` | st01/utl/ini2db.c:434-459 | one trimmed line gives the key and value it was printed from if and only if both are printable |
| `IniRoundTrip.ParseAdds` | st01/utl/ini2db.c:395-463 | the count tells how many rows a text has put into the table, and a single one holds no line break and a value of at most 511 characters |
| `IniRoundTrip.LineRoundTrip` | st01/utl/ini2db.c:395-463 | a printed line read inside a section, through fgets, puts just the row it was printed from into the table if and only if key and value are printable and neither holds a line break |
| `IniRoundTrip.ParseText` | st01/utl/ini2db.c:394-396 | parsing a text is parsing its lines, when each fits the buffer |
| `IniRoundTrip.RowParsed` | st01/utl/ini2db.c:397-463 | the lines of one row put that row, and only it, behind the table |
| `IniRoundTrip.RowsParsed` | st01/utl/db2ini.c:176-233 | from any point of the export on, the rest of the text adds the rest of the rows |
| `IniRoundTrip.ExportThenParse` | st01/utl/ini2db.c:375-469 | importing an export gives back every row in order, sort_order counted from 0 in each section |
| `IniRoundTrip.RenumberOrdered` | st01/utl/db2ini.c:152-156 | imported rows ascend strictly in each section, so ORDER BY returns them in that order only |
| `IniRoundTrip.ExportIsStable` | st01/utl/db2ini.c:143-243 | export, import, export gives the same file |

## Left out

- SEAM_ORD_Init, SEAM_ORD_W, SEAM_ORD_R: the same code over a segment of three queues; Seam_Order_Queue is a lookup.
- SEAM_Init when the semaphore cannot be had: it leaves the segment attached without a lock; acquisition is taken to succeed. The overflow log lines are not modelled.
- SeamProcs: the memset and memcpy of a slot are one step of the writer, and the copy of a record and the reader's r_seq++ are one step.
- SeamRing.SeamQueue.Read: slots and the caller's buffer are arrays of 480-byte records, not flat bytes, so an output buffer overlapping the ring is excluded.
- Integer widths: cursors are unbounded here, `long` or `int` there; the FNV hash is modelled with its 32-bit wrap-around.
- Dshm.DshmQueue.Read: does not model the overflow of `int` in r_cnt * rec_size, NULL buffers, or a call whose records waiting do not fit the 8192-byte buffers (`Room`), where the source writes beyond them; each call is one step although DSHM_R takes no lock; the saved copies are the matter of CursorText and SeqLoad.
- Dshm.DshmQueue.Fetch: the same bound.
- Dshm.DshmQueue.Restart: restored counts are not negative, as the saves print them.
- Dshm.DshmQueue.Sync: one round is one step under a live writer; what a crash within it leaves is the part of the batch in `!ok` and in `RestartIsSafe`. The file is open throughout.
- DshmRuns: one auto-advancing reader (p_type/10 >= 2), record numbers below 10^8, and a restored manager's count below 99999999.
- DSHM_W, DSHM_W2, DSHM_WT, F_R, F_W and Add_Count: argument checks, opening, locking and FIFO wake-ups around the cores.
- FileLog.FileQueue.FWProc: batches of less than 8192 encoded bytes; larger ones are written beyond the buffer.
- FileLog.FileQueue.FillBuffer: the same bound, for the same reason.
- FileLog.FRProc: at most 8192 bytes available in the window, for the same reason.
- Kernel.SysWrite: a write() of some bytes never moves none of them without an error; on that the loops of the source would not end.
- Key_Search, bond branch: it steps through 20-byte records with the size of 16-byte ones, so it agrees with no scan; CmpLongcode is the same comparator over other bytes; unknown modes of BsearchMode.
- KeySearch.BsearchMode: on tables that are ascending against the key, which is what a binary search asks of its callers.
- The quality of the FNV hash: only its value and range are used.
- Seq_Save: failures of fwrite; Dshm_Seq_Save is modelled as a text, not in the runs. `NeverAhead` is about files this process has written.
- SeqSaveRuns.KeyStored: file names of at most 19 characters without a colon; a throttle key of 64 characters or more never matches its stored copy, so such a file is saved every time.
- IniLines: sections of 1 to 3 and keys of 1 to 99 characters (`Storable`); longer ones are cut in the printer's buffers, as `ExportGeneric` models.
- IniParser.ParseGeneric: keys of 100 characters or more overflow a buffer in the source; the model keeps them whole. `RowOk` and `LineRoundTrip` exclude them. Characters are bytes other than NUL, as in any C string.
- parse_daemon_ini, export_daemon_ini and the IP lists: the same pair with fixed section prefixes; a NULL key_value prints as the empty text.
- SQLite, the configuration loaders, sockets, select, signals and logging.
