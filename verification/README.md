# Replication from MySQL to ClickHouse: a verified model

The system copies MySQL databases into ClickHouse and keeps them up to date. One process, the binlog
replicator, reads the MySQL binlog and appends matching events to a local relay: length-framed files per
database, rotated, cleaned up, and rebuilt when they have been lost. Another process per database first copies
the tables page by page and then replays the relay: it coalesces row events in per-table buffers, uploads the
buffers in batches, and records how far it has got. ClickHouse keeps every inserted row under a version and
shows, per key, the row with the highest version. Table structures are kept twice, for MySQL and for
ClickHouse, and ALTER statements are applied to both. Values arrive in MySQL's binary formats.

This project states that system in Dafny and proves what it is for:

- **Apply engine** (`Reference`, `ClickHouse`, `Buffers`, `Realtime`, `InitialCopy`, `ParallelCopy`, `Convergence`). The
  reference semantics applies events one at a time to a map from key to row. Buffered, batched, retried,
  checkpointed, stopped and resumed replay shows the same tables, and so does a paged copy of a changing source, made by
  one process or by workers page by page in any order, followed by reading the relay from the position saved before
  the copy.
- **Relay** (`Framing`, `Positioning`, `Relay`, `Writing`, `Tailing`, `Delivery`, `Resuming`, `RelayRuns`, `Cleanup`,
  `Recovery`, `BinlogRun`, `RelayFiles`). Whatever the interleaving of writing, flushing, removing old files and reading, a reader
  gets every stored event of its database once and in order. It is said exactly when the bounded search finds a
  checkpoint, when resuming there delivers everything after it, when cleanup leaves it to be found, and when the resume
  point of the binlog replicator runs ahead of what is stored; and it is shown that any number of runs, torn writes and
  removals keep the relay such that a protected checkpoint can be resumed at.
- **ALTER plans** (`TableStructures`, `AlterPlan`, `AlterCommands`, `AlterPlaces`, `AlterReplay`, `AlterExecution`). It is
  said where each clause puts the columns and when it passes. A dry run on a copy decides what the execution does; the execution mirrors every ClickHouse command in two structures that stay in
  lockstep. It is said exactly when a plan that was cut off anywhere, and is executed again from the structures saved
  before it, never takes the table back; then it catches up, after any number of such ends.
- **Formats** (`JsonBinary`, `JsonFormat`, `PackedDecimal`, `DecimalDecoders`, `GtidIntervals`, `Gtids`, `GtidText`). Two
  JSON parsers agree, and both read every document back from the bytes in which it is stored; two decimal decoders
  invert one format; and GTID interval lists are canonical sets with textual and binary round trips.

Objects that the system changes in place are classes with `modifies` clauses; what their methods promise is
stated through functions on values, about which the lemmas speak. Time, the network, process death, failing
commands and the order of unordered collections are nondeterministic choices, or parameters, so that each
statement holds for all of them. Exceptions are result values. What goes wrong by itself is counted: a failed command, a
process that dies, a stream that pauses. Every operation that may fail says what must have gone wrong if it does, so a run
in which nothing does must succeed.

Assumptions that hold throughout:

- A transaction is a pair of binlog file number and position. All binlog files have one base name with suffixes of
  equal width, so that comparing names agrees with comparing numbers.
- ClickHouse does not run as a cluster, tables are ordered by the primary key, and an update keeps the primary key.
- Pickling is a function and its inverse; only the transaction, the database and the number of records of an event
  matter to the relay.
- One poll of the relay reader is atomic with respect to the writer.

Where code and comments disagree, the model follows the code: `FileWriter` never updates its time of last flush, so
every write is followed by a flush; a reader that tails the relay is shown to cope with any delay.

## Model

| member | source | states |
|---|---|---|
| `Events.BeforeIff` | mysql_ch_replicator/binlog_replicator.py:67-72 | A transaction comes before another if and only if its file does, or the files are the same and its position is lower. |
| `Events.CoversIff` | mysql_ch_replicator/db_replicator_realtime.py:81-84 | A position covers exactly what is in earlier files and what is at or before it in its own. |
| `Events.IncreasingIff` | mysql_ch_replicator/binlog_replicator.py:67-72 | A log is in strictly increasing order if and only if its file numbers never fall and its positions rise within a file. |
| `Reference.RecordIdIff` | mysql_ch_replicator/db_replicator_realtime.py:114-124 | Two rows have the same key if and only if they agree in every key column. |
| `Reference.ApplyMeans` | mysql_ch_replicator/db_replicator_realtime.py:126-180 | Which rows are in a table after a change: of the inserted ones those with which no later one agrees in every key column, and of those from before the ones with which no row of the change agrees so; changes to other tables, and to ones that are not replicated, change nothing. |
| `Reference.BothAreThere` | mysql_ch_replicator/db_replicator_realtime.py:142-145 | Two inserted rows are both there afterwards if and only if they are equal or differ in a key column. |
| `Reference.OneMoreEvent` | mysql_ch_replicator/db_replicator_realtime.py:57-74 | A log is applied from its beginning on, one event after the other. |
| `Reference.LastWriteWins` | mysql_ch_replicator/db_replicator_realtime.py:126-180 | Under the reference semantics a key ends with the last write to it, or with its initial row if nothing wrote to it. |
| `Reference.FuzzyCopyConverges` | mysql_ch_replicator/db_replicator.py:269-278 | A copy that took each key at any moment from the saved position on is turned into the source table by replaying every event after that position. |
| `ClickHouse.MergeIsHighestVersion` | mysql_ch_replicator/clickhouse_api.py:276-276 | The row shown for a key is a stored row of that key that no stored row of the key outranks, and a key is shown exactly if it is stored. |
| `ClickHouse.FinalWithout` | mysql_ch_replicator/clickhouse_api.py:369-394 | A physical delete removes exactly the given keys from what is shown. |
| `ClickHouse.RetriedInsertIsOneInsert` | mysql_ch_replicator/clickhouse_api.py:304-367 | A batch numbered above all stored versions, delivered after any leftovers of failed attempts, shows as if its records were inserted once, one after the other. |
| `ClickHouse.LeftoversVisible` | mysql_ch_replicator/clickhouse_api.py:347-358 | After failed attempts a key shows what it showed before or one of the rows of the batch. |
| `ClickHouse.InsertVisibleIff` | mysql_ch_replicator/clickhouse_api.py:203-209 | An insert with any starting version shows as its records if and only if no record that is the last of its key meets a different row with a higher version. |
| `ClickHouse.StaleCounterLosesUpdate` | mysql_ch_replicator/db_replicator_realtime.py:106-112 | A version counter restored to an older value makes an update invisible: a concrete instance. |
| `ClickHouse.ClickhouseApi.SendBatch` | mysql_ch_replicator/clickhouse_api.py:346-358 | After at most five attempts the table holds what it held, leftovers of failed attempts, and the whole batch if it succeeded; other tables are untouched It fails if and only if five attempts have failed. |
| `ClickHouse.ClickhouseApi.Insert` | mysql_ch_replicator/clickhouse_api.py:304-367 | Records get consecutive versions above the counter, which moves past them only on success; the versions stay above everything stored. |
| `ClickHouse.ClickhouseApi.ExecuteTruncate` | mysql_ch_replicator/db_replicator_realtime.py:302-306 | The table is empty if the command took effect, also when it then reported failure, and as before otherwise It fails if and only if five attempts have failed. |
| `ClickHouse.ClickhouseApi.EraseKeys` | mysql_ch_replicator/clickhouse_api.py:369-394 | Deletes in batches: on success exactly the keys are gone, on failure exactly those of a subset It fails only after five failed attempts. |
| `Buffers.BatchingRefinesEvents` | mysql_ch_replicator/db_replicator_realtime.py:345-378 | Inserting and erasing the net effect of any sequence of events gives the same table as applying the events singly. |
| `Buffers.BufferInsertRow` | mysql_ch_replicator/db_replicator_realtime.py:142-145 | Buffering a row keeps the buffers disjoint and equal to the net effect including that row. |
| `Buffers.BufferEraseRow` | mysql_ch_replicator/db_replicator_realtime.py:178-180 | Buffering a deletion keeps the buffers disjoint and equal to the net effect including that deletion. |
| `Buffers.PartwayIsFuzzy` | mysql_ch_replicator/db_replicator_realtime.py:351-373 | A table left in the middle of an upload holds, per key, a state the source had from the checkpoint on. |
| `Buffers.UploadComplete` | mysql_ch_replicator/db_replicator_realtime.py:351-377 | When every buffer has been sent, all tables show all handled events. |
| `Buffers.UploadPartial` | mysql_ch_replicator/db_replicator_realtime.py:351-373 | When sending stopped anywhere, nothing the checkpoint covers is missing from any table. |
| `Buffers.TruncatedViews` | mysql_ch_replicator/db_replicator_realtime.py:272-306 | A truncation that took effect, or does not concern the replicator, is shown; one that did not is not. |
| `Delivery.ExactlyOnce` | mysql_ch_replicator/db_replicator_realtime.py:81-99 | From any relay made of stretches of the log, each starting no later than the relay reached before, the position check accepts exactly the log from the position on, in order, once. |
| `Delivery.AcceptedIncreasing` | mysql_ch_replicator/db_replicator_realtime.py:81-99 | Whatever the relay holds, the accepted events are strictly increasing, come from it, and lie after the position. |
| `Realtime.DbReplicatorRealtime.SaveState` | mysql_ch_replicator/db_replicator_realtime.py:106-112 | The checkpoint and the version counters are saved together. |
| `Realtime.DbReplicatorRealtime.HandleInsertEvent` | mysql_ch_replicator/db_replicator_realtime.py:126-145 | The buffers are the net effect of the events since the last upload, now including this one. |
| `Realtime.DbReplicatorRealtime.HandleEraseEvent` | mysql_ch_replicator/db_replicator_realtime.py:147-180 | The buffers are the net effect of the events since the last upload, now including this one. |
| `Realtime.DbReplicatorRealtime.HandleTruncateQuery` | mysql_ch_replicator/db_replicator_realtime.py:272-306 | Uploads everything pending, then empties the table; if that fails, nothing covered by the saved checkpoint is missing. |
| `Realtime.DbReplicatorRealtime.UploadRecords` | mysql_ch_replicator/db_replicator_realtime.py:345-378 | On success ClickHouse shows every handled event, the buffers are empty and the checkpoint is the last handled event; on failure the checkpoint stays and covers nothing that is missing It fails only after five failed attempts of a command. |
| `Realtime.DbReplicatorRealtime.UploadRecordsIfRequired` | mysql_ch_replicator/db_replicator_realtime.py:328-343 | Uploads everything if it is due or a buffer of the table holds 100,000 records, and otherwise does nothing; it fails only after five failed attempts of a command. |
| `Realtime.DbReplicatorRealtime.HandleEvent` | mysql_ch_replicator/db_replicator_realtime.py:81-104 | Events at or before the position change nothing; others are handled, the position moves to them, and the invariant tying ClickHouse, buffers and checkpoint to the handled events is kept It fails only after five failed attempts of a command, or for an event whose table has no recorded structure. |
| `Realtime.DbReplicatorRealtime.Reload` | mysql_ch_replicator/db_replicator.py:48-62 | A process that loads what a gracefully stopped one saved satisfies the invariant and stands at the same position. |
| `Realtime.DbReplicatorRealtime.StopAndResume` | mysql_ch_replicator/db_replicator_realtime.py:76-79 | A graceful stop leaves everything uploaded and saved; the new process has handled the same events. |
| `Realtime.DbReplicatorRealtime.ProcessEvents` | mysql_ch_replicator/db_replicator_realtime.py:57-74 | Over any delivered events, with idle polls, uploads and graceful restarts anywhere, exactly the accepted events are handled. |
| `Realtime.DbReplicatorRealtime.RunRealtimeReplication` | mysql_ch_replicator/db_replicator_realtime.py:57-79 | A whole run, restarted any number of times, ends with ClickHouse showing exactly the accepted events applied one at a time, and the checkpoint at the last of them; if it fails, nothing the saved checkpoint covers is missing It fails only after five failed attempts of a command, or at an accepted event whose table has no recorded structure. |
| `InitialCopy.GetRecords` | mysql_ch_replicator/mysql_api.py:110-136 | A page is the first keys beyond the cursor that belong to the worker, in order, at most the limit, and fewer only at the end. |
| `InitialCopy.PageSettles` | mysql_ch_replicator/db_replicator_initial.py:220-241 | A page that has reached the server, after any leftovers, settles every key of the worker up to the page's last one. |
| `InitialCopy.EmptyPageCompletes` | mysql_ch_replicator/db_replicator_initial.py:235-236 | An empty page means that every key of the worker is settled. |
| `InitialCopy.DbReplicatorInitial.CopyPage` | mysql_ch_replicator/db_replicator_initial.py:210-242 | One page is queried, converted and inserted; the cursor moves to its last key only on success, and the saved cursor never passes what the server holds It raises only after five failed attempts. |
| `InitialCopy.DbReplicatorInitial.CopyStep` | mysql_ch_replicator/db_replicator_initial.py:208-245 | A turn of the loop leaves fewer keys ahead of the cursor, or ends the copy with all keys settled and, on a table at rest, each row copied once. |
| `InitialCopy.DbReplicatorInitial.PerformInitialReplicationTable` | mysql_ch_replicator/db_replicator_initial.py:168-270 | From the start or a saved cursor, with the source changing between pages, the copy ends complete; dying anywhere leaves a saved cursor up to which everything is settled. |
| `InitialCopy.DbReplicatorInitial.PerformInitialReplication` | mysql_ch_replicator/db_replicator_initial.py:121-133 | All tables are copied; after dying anywhere a restart skips no table that is not complete It stops early only if a process has died or five attempts have failed. |
| `InitialCopy.DbReplicatorInitial.Restart` | mysql_ch_replicator/db_replicator.py:48-62 | A process that dies goes on from the state file; its counters cover the stored versions exactly if those in the file do. |
| `InitialCopy.DbReplicatorInitial.CopyWithRestarts` | mysql_ch_replicator/db_replicator_initial.py:121-133 | Over any number of processes that die in the middle, the copy ends complete or can be resumed; the counters are good in the end if the last process began with good ones It is not complete only if there were as many deaths, or fives of failed attempts, as processes. |
| `ParallelCopy.WorkersPartition` | mysql_ch_replicator/mysql_api.py:123-133 | What workers record that take the residues of a key hash, on a table at rest, is each row exactly once between them. |
| `ParallelCopy.OtherSettled` | mysql_ch_replicator/db_replicator_initial.py:389-436 | What other workers insert spoils no part of the copy that was settled. |
| `ParallelCopy.TakeTurn` | mysql_ch_replicator/db_replicator_initial.py:208-245 | A page of one process, also of one that is left from an earlier launch, leaves all of them where they stood or further; if it fails, where they stood. |
| `ParallelCopy.LeftResumable` | mysql_ch_replicator/db_replicator_initial.py:389-436 | From whatever the processes of the workers have left in the state files, whichever wrote last, all workers can be launched again. |
| `ParallelCopy.ConsolidateWorkerRecordVersions` | mysql_ch_replicator/db_replicator_initial.py:453-473 | If the query is answered, the counter of the table is at or above every stored version, whichever worker stored it; nothing changes otherwise. |
| `ParallelCopy.PerformInitialReplicationTableParallel` | mysql_ch_replicator/db_replicator_initial.py:389-451 | For every order of the pages of the workers and of processes still running from an earlier launch, and a source that changes between them, all keys are read since the start once the workers launched are done; on a table at rest fresh workers alone copy each row exactly once; the counters are good if the query is answered; if a worker fails, every process still stands It is not done only after five failed attempts or if some worker has not had turns enough. |
| `ParallelCopy.CopyWithRelaunches` | mysql_ch_replicator/db_replicator_initial.py:389-451 | Launched again and again beside whatever is still running, the workers end with a complete copy They do not only if five attempts have failed for every launch, or turns were too few in one. |
| `ParallelCopy.PerformInitialReplicationParallel` | mysql_ch_replicator/db_replicator_initial.py:121-133 | The same for all tables of a database, in order. |
| `Convergence.ReplayAfterCopy` | mysql_ch_replicator/db_replicator.py:269-278 | Replaying what is delivered from a point at or before the saved position turns a complete copy into the source tables. |
| `Convergence.Replicate` | mysql_ch_replicator/db_replicator.py:269-278 | Position, paged copy of a changing source, positioning in the relay and reading it to its end: every table shows the source table, whenever what is read leaves nothing out It does not succeed only after a death or five failed attempts, or if an event is for a table without a recorded structure. |
| `Convergence.ReplicateParallel` | mysql_ch_replicator/db_replicator.py:269-278 | The same with the tables copied by workers. |
| `Convergence.RestartAfterCrash` | mysql_ch_replicator/db_replicator_realtime.py:375-378 | After a crash anywhere, also inside an upload, replay from the saved checkpoint shows all events, given version counters not below what is stored. |
| `Convergence.RestartFromRelay` | mysql_ch_replicator/db_replicator_realtime.py:57-74 | The same with the events read from the relay after the saved checkpoint. |
| `Convergence.FirstRunStopsIdle` | mysql_ch_replicator/db_replicator.py:273-273 | A first run that is stopped before it has handled an event saves no position, whatever was saved before the copy. |
| `Framing.FrameBytes` | mysql_ch_replicator/binlog_replicator.py:259-267 | A frame is the size of its payload in four bytes, the highest first, and the payload. |
| `Framing.ParseWritten` | mysql_ch_replicator/binlog_replicator.py:259-267 | Parsing written frames gives the payloads back, whatever torn frame follows. |
| `Framing.ParseGrows` | mysql_ch_replicator/binlog_replicator.py:279-301 | Bytes added to a file never change the frames that were complete. |
| `Framing.ParseConcat` | mysql_ch_replicator/binlog_replicator.py:259-301 | Whole frames followed by any bytes parse as the frames followed by those of the rest. |
| `Framing.FileReader.ReadNextEvent` | mysql_ch_replicator/binlog_replicator.py:279-301 | Delivers the next complete frame, or none exactly if there is none, and keeps a partial frame for later. |
| `Framing.ReadInChunks` | mysql_ch_replicator/binlog_replicator.py:270-301 | However a file becomes visible in chunks, its frames are delivered once each, whole and in order. |
| `Positioning.LocateIff` | mysql_ch_replicator/binlog_replicator.py:370-395 | In a relay that may repeat itself but leaves nothing out, the search finds a transaction of the log if and only if the relay begins at or before it and a file starts after it, or one of the last eleven files holds it. |
| `Positioning.LocateSole` | mysql_ch_replicator/binlog_replicator.py:370-395 | In a relay without repetitions a stored transaction is found, and in its own file, if and only if a non-empty file or at most ten files follow. |
| `Positioning.ContiguousAround` | mysql_ch_replicator/binlog_replicator.py:370-395 | In a relay whose files continue each other, files before the one of a transaction do not start after it, later ones do, and no other file holds it. |
| `Positioning.LocateAfterRemovalIff` | mysql_ch_replicator/binlog_replicator.py:370-395 | When files before one that holds the transaction are removed, in any order, the search settles on that file if and only if it looks at it and at none of those left before it that hold the transaction. |
| `Positioning.StillFound` | mysql_ch_replicator/binlog_replicator.py:370-395 | When the oldest files go from a relay whose files leave nothing out between them, a transaction that was found is found, and in the same file if the relay began at or before it. |
| `Positioning.OlderCopyComesFirst` | mysql_ch_replicator/binlog_replicator.py:370-395 | That can fail: twenty files, thirteen of which go, with an older copy of the transaction in the first. |
| `Relay.DataReader.GetFirstTransactionInFile` | mysql_ch_replicator/binlog_replicator.py:347-354 | The transaction of the first complete event, or none. |
| `Relay.DataReader.FileHasTransaction` | mysql_ch_replicator/binlog_replicator.py:356-368 | True exactly if a complete event of the file has the transaction. |
| `Relay.DataReader.GetFileWithTransaction` | mysql_ch_replicator/binlog_replicator.py:370-395 | The loops over first transactions and over the window compute the specified search, not found included. |
| `Relay.DataReader.SetPosition` | mysql_ch_replicator/binlog_replicator.py:397-428 | Succeeds exactly if the search and the skip do; what remains to be read is then what follows the transaction, or everything if none is given. |
| `Relay.DataReader.ReadNextEvent` | mysql_ch_replicator/binlog_replicator.py:430-453 | Delivers the next frame across files, or none exactly if nothing visible is left; whatever the writer still holds back stays ahead. |
| `Relay.SameStream` | mysql_ch_replicator/binlog_replicator.py:441-451 | What is read from a file on depends on the files from there on only. |
| `Writing.NextFileNum` | mysql_ch_replicator/binlog_replicator.py:485-495 | One more than the newest number, 1 in an empty directory, never an existing one. |
| `Writing.DataWriter.GetOrCreateFileWriter` | mysql_ch_replicator/binlog_replicator.py:469-483 | Writing goes on in the current file while it has fewer records than the limit, and otherwise in the next one; no stream changes. |
| `Writing.DataWriter.StoreEvent` | mysql_ch_replicator/binlog_replicator.py:464-467 | The event comes at the end of every unbroken stream of its database and nowhere else; one too long for its size field is refused. |
| `Writing.DataWriter.CloseAll` | mysql_ch_replicator/binlog_replicator.py:544-546 | Everything written is in the files. |
| `Tailing.TailWhileWriting` | mysql_ch_replicator/binlog_replicator.py:430-495 | For every interleaving of storing, flushing, removing files older than the one being read, and polling, the reader gets what it had ahead and then every stored event of its database, in order, once. |
| `Resuming.FoundIff` | mysql_ch_replicator/binlog_replicator.py:370-395 | In a directory whose files leave nothing out between them an event is found if and only if the relay straddles it or one of the last eleven files holds it. |
| `Resuming.ResumeExactlyOnceIff` | mysql_ch_replicator/binlog_replicator.py:397-453 | Positioned at a checkpoint the search finds, the engine accepts a stretch of the log, each event once, if and only if no file after the one found starts behind what has been read by then; it is then everything after the checkpoint, as far as the files go. |
| `Resuming.ResumeInChained` | mysql_ch_replicator/binlog_replicator.py:397-453 | That is so if no file starts later than where the one before it ends. |
| `Resuming.ResumeInFirst` | mysql_ch_replicator/binlog_replicator.py:397-453 | It is so, too, if no file starts later than where any before it ended, and the file found is the first that holds the checkpoint. |
| `Resuming.ResumeWithoutPositionIff` | mysql_ch_replicator/binlog_replicator.py:397-453 | An engine that is positioned at a checkpoint but has no position of its own, as after the copy, gets a stretch of the log that begins at or before what comes after the checkpoint, if and only if the first event it reads does and no file from there on starts behind what has been read. |
| `Resuming.ChainedRereads` | mysql_ch_replicator/binlog_replicator.py:397-453 | That is so if no file starts later than where the one before it ends. |
| `Resuming.ResumeDeliversRest` | mysql_ch_replicator/binlog_replicator.py:397-453 | Positioned at a checkpoint the search finds in a relay without repetitions, reading delivers exactly the events after it, to the end of the relay. |
| `RelayRuns.StoreRun` | mysql_ch_replicator/binlog_replicator.py:464-495 | One run of the binlog reader, ending gracefully or in a torn write, with rotation wherever it comes: if it begins no later than the relay reaches, the relay of every database still leaves nothing out and reaches as far as the run got; if it begins no later than where the newest file ends, so does each file. |
| `RelayRuns.StoreRuns` | mysql_ch_replicator/binlog_replicator.py:744-756 | The same for any number of runs, from an empty directory on. |
| `RelayRuns.Protect` | mysql_ch_replicator/binlog_replicator.py:497-513 | A checkpoint in the first file that holds it protects that file: reading from there on leaves nothing out. |
| `RelayRuns.RemovalKeeps` | mysql_ch_replicator/binlog_replicator.py:538-542 | Removing files older than a protected one, in any order, keeps that so. |
| `RelayRuns.Continue` | mysql_ch_replicator/binlog_replicator.py:464-546 | Whatever runs and removals of older files follow, everything from a protected checkpoint on stays readable from its file, up to where the runs have got. |
| `RelayRuns.ProtectedResumes` | mysql_ch_replicator/binlog_replicator.py:397-453 | An engine that is then positioned at the checkpoint accepts exactly the log after it, up to there. |
| `Cleanup.ProtectedFileNums` | mysql_ch_replicator/binlog_replicator.py:497-513 | The file of every checkpoint, or nothing exactly if one cannot be found. |
| `Cleanup.RemoveFiles` | mysql_ch_replicator/binlog_replicator.py:524-542 | Exactly the old files before every protected one go, apart from the newest six. |
| `Cleanup.RemoveOldFiles` | mysql_ch_replicator/binlog_replicator.py:515-542 | Every database is cleaned up, or left alone if a checkpoint of it cannot be found; files being written stay. |
| `Cleanup.KeptFrom` | mysql_ch_replicator/binlog_replicator.py:531-542 | Every file from that of a checkpoint on is kept, and everything read from there is unchanged. |
| `Cleanup.SameFileIff` | mysql_ch_replicator/binlog_replicator.py:497-542 | After cleanup a protected checkpoint is found in the same file if and only if the search looks at that file and at no kept older one that holds it. |
| `Cleanup.CleanupKeepsFuture` | mysql_ch_replicator/binlog_replicator.py:497-542 | Positioning at a protected checkpoint then delivers the same events before and after cleanup. |
| `Cleanup.CleanupInOrder` | mysql_ch_replicator/binlog_replicator.py:497-542 | With ages in file order and files that leave nothing out between them, every protected checkpoint that was found is found, and if the relay begins at or before it the same events are delivered. |
| `Cleanup.CleanupInOrderResumes` | mysql_ch_replicator/binlog_replicator.py:497-542 | Wherever it is then found, an engine that resumes there gets everything after it. |
| `Cleanup.RemoveBesideReader` | mysql_ch_replicator/binlog_replicator.py:515-542 | Cleanup beside a reader takes nothing away from what it has ahead, if its checkpoint is found in the file it reads or an earlier one. |
| `Cleanup.CleanupKeepsFutureSorted` | mysql_ch_replicator/binlog_replicator.py:497-542 | In a relay without repetitions the same holds whatever the ages of the files. |
| `Cleanup.OlderCopyDisturbs` | mysql_ch_replicator/utils.py:73-90 | It can fail with ages out of order, which a failed touch brings about: twenty files after whose cleanup the checkpoint is found in an older file, with none following it. |
| `Recovery.MinTransaction` | mysql_ch_replicator/binlog_replicator.py:75-76 | One of the saved transactions, with none before it. |
| `Recovery.RelayRecovery.BackupBinFiles` | mysql_ch_replicator/binlog_replicator.py:658-682 | All files of the given databases are moved aside; if a move fails, each file is in exactly one of the two places It fails if and only if a mishap occurs. |
| `Recovery.RelayRecovery.RestoreBackups` | mysql_ch_replicator/binlog_replicator.py:684-693 | Every database with a backup has exactly its original files again; if a step fails, each of them is in place or still aside. |
| `Recovery.RelayRecovery.RebuildRelay` | mysql_ch_replicator/binlog_replicator.py:695-721 | Unless it raises, the relay of every affected database holds exactly its events from the start file on, and the final position is the stream's It raises if and only if a mishap occurs or an event is too long for its size field. |
| `Recovery.RelayRecovery.RecoverIfRequired` | mysql_ch_replicator/binlog_replicator.py:589-627 | Not required exactly if every checkpoint is found, and then nothing changes; on success every checkpoint is found and the relays are the filtered binlog from the start file; on an exception no state is saved and every database that had files has them back, unless moving files failed; however it ends, no file of the old relay is lost and other databases are untouched It raises only for a mishap, a start file that MySQL has no more, an event too long for its size field, or a rebuilt relay in which a checkpoint is not found. |
| `Recovery.GapFree` | mysql_ch_replicator/binlog_replicator.py:695-735 | What the rebuild has read, followed by the stream resumed at the saved position, is the binlog from the start file on. |
| `Recovery.SavedPositionIsBetween` | mysql_ch_replicator/binlog_replicator.py:696-721 | The saved position lies after everything the rebuild has read and before everything it has not. |
| `Recovery.RelayRecovery.RecoverAndResume` | mysql_ch_replicator/binlog_replicator.py:589-627 | After a rebuild and the run that resumes at the position it saved, the relay of every affected database holds exactly its events of the binlog from the start file on After a rebuild the run fails if and only if an event is too long. |
| `BinlogRun.BinlogReplicator.Start` | mysql_ch_replicator/binlog_replicator.py:744-756 | A new process begins no later than the relay reaches if its resume point is durable; without one, the relay stays intact if and only if the stream begins no later than that. |
| `BinlogRun.BinlogReplicator.UpdateStateIfRequired` | mysql_ch_replicator/binlog_replicator.py:891-900 | A save makes what was last seen the resume point, which is durable if and only if what was last seen is stored. |
| `BinlogRun.BinlogReplicator.Receive` | mysql_ch_replicator/binlog_replicator.py:842-871 | The state is saved before the event is stored; if the process dies in between, what it has last seen is stored if and only if an earlier run had stored it. |
| `BinlogRun.BinlogReplicator.Run` | mysql_ch_replicator/binlog_replicator.py:820-889 | At whatever point a run ends, everything up to the resume point is stored, except for what the run had loaded as last seen It ends gracefully unless the process dies; it then has saved where the stream stands, which without a pause is at the end of the log or at least a thousand events further for each turn. |
| `BinlogRun.BinlogReplicator.RunFromStored` | mysql_ch_replicator/binlog_replicator.py:838-900 | A run begun with everything last seen stored, wherever its stream begins, ends with everything up to its resume point stored, and gracefully in the condition it began in. |
| `BinlogRun.BinlogReplicator.RunAfterCrash` | mysql_ch_replicator/binlog_replicator.py:838-900 | A run after a crash restores that condition once it gets past what the crashed run had last seen. |
| `BinlogRun.BinlogReplicator.RunsAreAtLeastOnce` | mysql_ch_replicator/binlog_replicator.py:744-756 | As long as no run has begun behind what the relay had reached, the relay is made of stretches each of which starts no later than all before it had got to. |
| `BinlogRun.BinlogReplicator.RelayExactlyOnce` | mysql_ch_replicator/binlog_replicator.py:744-756 | The engine then accepts from the relay exactly the matching events up to where it reaches, once each. |
| `BinlogRun.BinlogReplicator.ResumePointInRelay` | mysql_ch_replicator/binlog_replicator.py:891-900 | Every matching event at or before a durable resume point is in the relay. |
| `BinlogRun.SaveRunsAheadIff` | mysql_ch_replicator/binlog_replicator.py:891-900 | A save moves the resume point past an event that is not stored if and only if what was last seen covers it, as it does after a crash between a save and a store. |
| `BinlogRun.RestartLosesNothingIff` | mysql_ch_replicator/binlog_replicator.py:744-756 | A run that begins anywhere loses nothing if and only if it begins no later than the relay reaches, or nothing in between is to be relayed. |
| `RelayFiles.WriteRelay` | mysql_ch_replicator/binlog_replicator.py:744-756 | The runs of the binlog replicator, each written through its own writer and any of them torn at the end, leave files from which an engine accepts exactly the matching events of each database up to where the runs have got, once each; everything at or before a durable resume point is among them. |
| `TableStructures.TableStructure.PreprocessKeys` | mysql_ch_replicator/table_structure.py:22-26 | The key indices are the first positions of the key names; raises exactly if one is missing. |
| `TableStructures.TableStructure.AddFieldFirst` | mysql_ch_replicator/table_structure.py:28-31 | The field comes first and the key indices follow. |
| `TableStructures.TableStructure.AddFieldAfter` | mysql_ch_replicator/table_structure.py:33-44 | The field comes after the last field of the given name and the key indices follow; raises exactly if there is none or a key is missing. |
| `TableStructures.TableStructure.RemoveField` | mysql_ch_replicator/table_structure.py:46-52 | The first field of the name goes; raises exactly if there is none or a key column would be missing. |
| `TableStructures.TableStructure.UpdateField` | mysql_ch_replicator/table_structure.py:54-59 | The first field of the name is replaced; raises exactly if there is none. |
| `TableStructures.TableStructure.RenameField` | mysql_ch_replicator/converter.py:1096-1102 | The first field of the name and the keys of that name are renamed and the key indices recomputed. |
| `TableStructures.TableStructure.GetField` | mysql_ch_replicator/table_structure.py:67-71 | The first field of the name, or none. |
| `AlterPlaces.AddColumnPlaces` | mysql_ch_replicator/converter.py:1117-1152 | A new column stands first, directly behind the last column of the given name, or behind the last MySQL column; the others keep their order, and each structure gets its own type. |
| `AlterPlaces.AddColumnInStep` | mysql_ch_replicator/converter.py:1117-1152 | In structures in lockstep it has the same place in both. |
| `AlterPlaces.DropColumnPlaces` | mysql_ch_replicator/converter.py:1154-1171 | The first column of the name goes from both, and the others keep their order. |
| `AlterPlaces.ModifyColumnPlaces` | mysql_ch_replicator/converter.py:1173-1205 | The column stays in its place and gets its own type in each structure. |
| `AlterPlaces.ChangeColumnPlaces` | mysql_ch_replicator/converter.py:1325-1357 | The column stays in its place, gets the new name, and gets its types unless ClickHouse has its already. |
| `AlterPlaces.RenameColumnPlaces` | mysql_ch_replicator/converter.py:1359-1384 | The column stays in its place with its types; nothing is done if only the new name is there. |
| `AlterPlaces.KeyPlaces` | mysql_ch_replicator/table_structure.py:22-26 | The key columns stay the same, under their new names if renamed, and the key indices say where they are now. |
| `AlterPlaces.PassesIff` | mysql_ch_replicator/converter.py:900-967 | For structures in lockstep a clause passes, in the dry run and in execution, if and only if what it needs is there: the column to put it behind, a column that is no key, the column to modify, or exactly one of the two names. |
| `AlterPlan.ExecuteMirrorsValidate` | mysql_ch_replicator/converter.py:900-967 | A clause that the dry run lets pass does not raise when executed and ends with the dry run's names, order, keys and ClickHouse types. |
| `AlterPlan.ExecutionMirrorsDryRun` | mysql_ch_replicator/converter.py:850-898 | The same for whole plans. |
| `AlterPlan.DryRunIffExecutable` | mysql_ch_replicator/converter.py:850-898 | For structures in lockstep a plan passes the dry run if and only if it can be executed. |
| `AlterPlan.ExecuteKeepsLockstep` | mysql_ch_replicator/converter.py:1095-1205 | Every executed clause keeps names unique, key indices right, and both structures in lockstep. |
| `AlterPlan.PlanKeepsLockstep` | mysql_ch_replicator/converter.py:864-883 | The same for whole plans. |
| `AlterPlan.DropRaisesIff` | mysql_ch_replicator/converter.py:920-932 | Dropping a column raises, in the dry run and in execution, if and only if it is a key column. |
| `AlterPlan.KeysOnlyRenamed` | mysql_ch_replicator/converter.py:1096-1102 | No clause changes the key columns otherwise than by renaming them. |
| `AlterPlan.ReplayChangesNothing` | mysql_ch_replicator/converter.py:1117-1205 | Executing a plan whose clauses are about different columns a second time leaves both structures unchanged. |
| `AlterPlaces.EffectMeans` | mysql_ch_replicator/converter.py:1117-1205 | The same of the commands on the columns of the table, with exactly when one cannot succeed. |
| `AlterCommands.EffectTwice` | mysql_ch_replicator/clickhouse_api.py:189-197 | A command that has taken effect changes nothing when it is sent again. |
| `AlterCommands.CommandsAreMirrored` | mysql_ch_replicator/converter.py:1117-1205 | The commands of a clause, sent to a table as recorded, make the columns what the execution then records. |
| `AlterCommands.PlanIsMirrored` | mysql_ch_replicator/converter.py:864-883 | The same for whole plans. |
| `AlterReplay.StandsUnlessUndone` | mysql_ch_replicator/converter.py:1117-1205 | A command that has taken effect goes on changing nothing exactly as long as no later command undoes it: removes the column it added, brings back the one it dropped or renamed, or gives another type to the one whose type it set. |
| `AlterReplay.NeverTakenBackIff` | mysql_ch_replicator/clickhouse_api.py:157-197 | For every sequence of commands that take effect: stopped anywhere and sent again, however far, it never takes the table back if and only if none of its commands undoes an earlier one. |
| `AlterReplay.PlanNeverTakenBackIff` | mysql_ch_replicator/converter.py:864-883 | The same for the commands of every plan that can be executed. |
| `AlterReplay.ReplayCatchesUp` | mysql_ch_replicator/converter.py:864-883 | A plan that undoes nothing, executed anew from the structures saved before it on a table that it has already changed in part, between clauses, between the two commands of a CHANGE, or by a command that reported failure, ends as if nothing had happened. |
| `AlterReplay.StaysUnderway` | mysql_ch_replicator/converter.py:864-883 | If it stops again, anywhere, the table has not fallen behind. |
| `AlterReplay.ApartUndoesNothing` | mysql_ch_replicator/converter.py:864-883 | A plan whose clauses are about different columns undoes nothing. |
| `AlterReplay.ReusedNameBlocksReplay` | mysql_ch_replicator/converter.py:864-883 | What a plan that undoes something can lead to, first: a name freed by a rename and taken again by a new column makes the repeated rename fail for good. |
| `AlterReplay.RenamedColumnIsDropped` | mysql_ch_replicator/converter.py:864-883 | Second: after a column is dropped and another renamed to its name, the plan executed again drops the renamed column, reports success, and records a column that the table does not have. |
| `AlterReplay.RetypedTwice` | mysql_ch_replicator/converter.py:1173-1205 | Third, at its mildest: with two types for one column the repeated commands end right, but set the first type again on the way. |
| `AlterExecution.Converter.ValidateAlterPlan` | mysql_ch_replicator/converter.py:885-898 | The dry run works on copies and passes exactly if no clause raises. |
| `AlterExecution.ClickhouseTable.ExecuteCommand` | mysql_ch_replicator/clickhouse_api.py:157-197 | After at most five attempts, any of which may have taken effect, the columns are those after one execution of the command or those before it; they are the former if success is reported It fails if and only if five attempts have failed or the command cannot succeed. |
| `AlterExecution.Converter.ConvertAddColumn` | mysql_ch_replicator/converter.py:1117-1152 | The structures and the columns, whatever they were, are changed alike; a failed command leaves the structures, and the columns with or without its effect. |
| `AlterExecution.Converter.ConvertDropColumn` | mysql_ch_replicator/converter.py:1154-1171 | The structures and the columns, whatever they were, are changed alike; a failed command leaves the structures, and the columns with or without its effect. |
| `AlterExecution.Converter.ConvertModifyColumn` | mysql_ch_replicator/converter.py:1173-1205 | The structures and the columns, whatever they were, are changed alike; a failed command leaves the structures, and the columns with or without its effect. |
| `AlterExecution.Converter.ConvertChangeColumn` | mysql_ch_replicator/converter.py:1325-1357 | Up to two commands, each recorded before the next is sent; if one fails, the recorded columns are the actual ones except perhaps for its effect. |
| `AlterExecution.Converter.ConvertRenameColumn` | mysql_ch_replicator/converter.py:1359-1384 | The structures and the columns, whatever they were, are changed alike; a failed command leaves the structures, and the columns with or without its effect. |
| `AlterExecution.Converter.ConvertAlterQuery` | mysql_ch_replicator/converter.py:850-883 | A plan with an unsupported clause, or one that fails in the dry run, sends no command and changes nothing; any other fails in a ClickHouse command only, with the columns changed by a part of the plan, and otherwise ends as the dry run did On columns as recorded a command fails only after five failed attempts. |
| `AlterExecution.ExecuteWithRestarts` | mysql_ch_replicator/converter.py:864-883 | Over any number of processes that die in a plan that undoes nothing, each starting from the structures saved before it, the plan ends as if there had been none, with the recorded columns the actual ones It does not end only if five attempts have failed for every process. |
| `JsonBinary.ReadVariableLength` | binlog_json_parser/mysql_json_parser.cpp:93-118 | The loop computes the length of at most five bytes of seven bits each, and refuses one beyond 32 bits. |
| `JsonBinary.DecodeVariableLength` | mysql_ch_replicator/pymysqlreplication/util/bytes.py:49-64 | The loop computes the same length, or (0, 0) when there is none. |
| `JsonBinary.ParseArrayOrObject` | binlog_json_parser/mysql_json_parser.cpp:325-413 | The loop builds the container of the specified elements and keys, all read inside the slice and nested values on strictly shorter slices, or fails. |
| `JsonBinary.ParseJsonObjectOrArray` | mysql_ch_replicator/pymysqlreplication/json_binary.py:75-127 | The two loops build the specified container, the null for an offset beyond the data, or the exception. |
| `JsonBinary.ParsersAgree` | binlog_json_parser/mysql_json_parser.cpp:244-428 | Whenever the C++ parser accepts a slice, the Python parser, on the same bytes and whatever follows them, builds the same document if it is nested no deeper than the recursion limit, and raises otherwise. |
| `JsonBinary.SelfReference` | mysql_ch_replicator/pymysqlreplication/json_binary.py:101-118 | On an array that points at itself the Python parser exhausts any recursion limit, while the C++ parser refuses it. |
| `JsonFormat.CppReads` | binlog_json_parser/mysql_json_parser.cpp:149-428 | Every document, written by the description of the format with integers of any width and containers small or large in any mixture, and followed by any bytes, is read as that document. |
| `JsonFormat.PyReads` | mysql_ch_replicator/pymysqlreplication/json_binary.py:36-139 | The Python parser reads it as well, if and only if it is nested no deeper than the recursion limit. |
| `JsonFormat.DocumentReads` | binlog_json_parser/mysql_json_parser.cpp:415-428 | Every document whose parts have a form at all is read back by both parsers from the small layout if it fits that, and from the large one if it fits that. |
| `JsonFormat.SignedReads` | mysql_ch_replicator/pymysqlreplication/json_binary.py:16-20 | Integers of two, four and eight bytes are read in two's complement, the lowest byte first. |
| `JsonFormat.LengthReads` | binlog_json_parser/mysql_json_parser.cpp:93-118 | The length of a string is written with seven bits a byte, the lowest first, and is read back. |
| `JsonFormat.LongLength` | binlog_json_parser/mysql_json_parser.cpp:93-118 | Lengths of 33 to 35 bits are refused by the C++ parser alone. |
| `PackedDecimal.LayoutParts` | mysql_ch_replicator/pymysqlreplication/row_event.py:499-505 | The digits before the point are fewer than nine leftover ones and groups of nine, and those after it groups of nine and fewer than nine leftover ones. |
| `PackedDecimal.CompressedBytesIsLeast` | mysql_ch_replicator/pymysqlreplication/row_event.py:499-500 | Leftover digits take the least number of bytes in which twice the numbers of so many digits fit. |
| `PackedDecimal.KnownDecimal` | mysql_ch_replicator/pymysqlreplication/row_event.py:492-539 | The bytes of 1234567890.1234 and its negative as DECIMAL(14, 4): the sign bit flipped, and complemented if negative. |
| `PackedDecimal.DecodersInvert` | mysql_ch_replicator/pymysqlreplication/util/bytes.py:67-113 | For every precision and scale, sign and digits, the texts both decoders write for the stored form read as the number that was stored. |
| `DecimalDecoders.Packet.Read` | mysql_ch_replicator/pymysqlreplication/packet.py:137-147 | Takes bytes from the front of what is pushed back and then of the packet; raises exactly if there are too few. |
| `DecimalDecoders.Packet.Unread` | mysql_ch_replicator/pymysqlreplication/packet.py:149-154 | Pushed-back bytes come behind those pushed back before, and are uncounted. |
| `DecimalDecoders.Packet.ReadIntBeBySize` | mysql_ch_replicator/pymysqlreplication/packet.py:207-220 | The two's complement big-endian integer of one to four bytes, three included; the unsigned one of five; an exception for eight, whose format is for four; no value for any other size. |
| `DecimalDecoders.ReadNewDecimal` | mysql_ch_replicator/pymysqlreplication/row_event.py:492-539 | Reads the specified text and consumes exactly the bytes of the decimal; raises if there are too few. |
| `DecimalDecoders.ParseDecimalFromBytes` | mysql_ch_replicator/pymysqlreplication/util/bytes.py:67-113 | Reads the specified text from a buffer; raises if it is too short. |
| `DecimalDecoders.StoredReads` | mysql_ch_replicator/pymysqlreplication/row_event.py:492-539 | Every stored decimal, whatever follows it, is one that both decoders write text for that reads as it. |
| `DecimalDecoders.DecodeFromPacket` | mysql_ch_replicator/pymysqlreplication/row_event.py:492-539 | The streaming decoder returns the decimal that a packet begins with and leaves just what follows. |
| `DecimalDecoders.DecodeFromBuffer` | mysql_ch_replicator/pymysqlreplication/util/bytes.py:67-113 | The buffer decoder returns the decimal that a buffer begins with. |
| `GtidIntervals.ContainsIffSubset` | mysql_ch_replicator/pymysqlreplication/gtid.py:146-158 | Between canonical lists, containment of intervals is containment of sets. |
| `GtidIntervals.SameSetSameList` | mysql_ch_replicator/pymysqlreplication/gtid.py:296-299 | Two canonical lists denote the same set only if they are the same list. |
| `Gtids.AddedIsUnion` | mysql_ch_replicator/pymysqlreplication/gtid.py:91-119 | Adding a non-empty interval keeps the list canonical and is set union, refused exactly when the sets meet. |
| `Gtids.RemovedIsDifference` | mysql_ch_replicator/pymysqlreplication/gtid.py:121-144 | Removing a non-empty interval keeps the list canonical and is set difference. |
| `Gtids.EmptyInterval` | mysql_ch_replicator/pymysqlreplication/gtid.py:91-119 | An empty interval is refused if and only if it lies strictly inside an interval of the list, vanishes if and only if it lies at a bound of one, and otherwise makes the list one that is not canonical. |
| `Gtids.AddThenRemove` | mysql_ch_replicator/pymysqlreplication/gtid.py:171-196 | Adding disjoint transactions and taking them away again gives the list back. |
| `Gtids.Gtid.AddInterval` | mysql_ch_replicator/pymysqlreplication/gtid.py:91-119 | The loop computes the specified list, or raises and changes nothing. |
| `Gtids.Gtid.SubInterval` | mysql_ch_replicator/pymysqlreplication/gtid.py:121-144 | The loop computes the specified list, or raises and changes nothing. |
| `Gtids.Gtid.Add` | mysql_ch_replicator/pymysqlreplication/gtid.py:171-184 | A new canonical Gtid with the union; raises exactly if the sids differ or the sets meet. |
| `Gtids.Gtid.Sub` | mysql_ch_replicator/pymysqlreplication/gtid.py:186-196 | A new canonical Gtid with the difference, or all of it if the sids differ. |
| `Gtids.Gtid.ComparisonsAreOfSets` | mysql_ch_replicator/pymysqlreplication/gtid.py:146-158 | `in` is the subset relation, and two Gtids of one server are equal exactly if they denote the same set. |
| `Digits.PrintedDigit` | mysql_ch_replicator/pymysqlreplication/gtid.py:198-207 | A number is printed with the decimal digits of its powers of ten, the highest first. |
| `Digits.DigitCount` | mysql_ch_replicator/pymysqlreplication/gtid.py:198-207 | It has as many digits as it needs and no more. |
| `GtidText.IntervalText` | mysql_ch_replicator/pymysqlreplication/gtid.py:198-207 | An interval is printed with its first and last number, or with the one it has. |
| `GtidText.TextRoundTrip` | mysql_ch_replicator/pymysqlreplication/gtid.py:70-89 | Parsing the printed text of a canonical Gtid gives the same value if and only if its sid is well-formed and there is an interval. |
| `GtidText.HexDigits` | mysql_ch_replicator/pymysqlreplication/gtid.py:250-250 | The hexadecimal digits have their values, in either case. |
| `GtidText.EncodedBytes` | mysql_ch_replicator/pymysqlreplication/gtid.py:223-261 | Where every byte is: the digits of the sid in pairs, then the number of intervals, then for each its first number and the one behind its last, eight bytes each with the lowest first. |
| `GtidText.Encode` | mysql_ch_replicator/pymysqlreplication/gtid.py:223-261 | The loop writes the specified bytes, or raises exactly for a number beyond 64 bits or a sid whose characters other than dashes are not pairs of hexadecimal digits. |
| `GtidText.Encoded` | mysql_ch_replicator/pymysqlreplication/gtid.py:214-221 | The binary form has the announced length if and only if the sid has 32 digits. |
| `GtidText.Decode` | mysql_ch_replicator/pymysqlreplication/gtid.py:264-294 | Reads sid and bounds, goes through text, and says how many bytes were used; raises if that fails. |
| `GtidText.BinaryRoundTrip` | mysql_ch_replicator/pymysqlreplication/gtid.py:223-294 | Decoding the binary form of a canonical Gtid with a well-formed sid and 64-bit bounds gives the same value and uses just its bytes if and only if the sid is in lower case and there is an interval. |

## Left out

- Cluster mode: the version counter is read under one table name and written under another.
- Updates that change the primary key: only the after-image of a row is relayed.
- ALTER, RENAME, CREATE and DROP TABLE inside the refinement of the apply engine; the version counters of a renamed table are not moved. TRUNCATE is inside, ALTER is modelled apart.
- Several MySQL databases in one ClickHouse database, mapping of table names, and swapping the temporary database: names are taken as they are.
- Under table name mapping `consolidate_worker_record_versions` reads the highest version under one name and writes the counter under another; names are taken as they are here.
- `Convergence.RestartAfterCrash`: a hard crash is covered under the assumption that the restored version counters are not below what is stored, because they are saved only every ten seconds; `ClickHouse.StaleCounterLosesUpdate` shows what happens otherwise.
- `Convergence.Replicate`: the copy is not interrupted. After a crash in the copy by a single process the restored counters may lie below stored rows in the same way, see `InitialCopy.DbReplicatorInitial.CopyWithRestarts`; the replay then begins without the counters it needs. The copy itself is complete all the same, and workers end with good counters.
- `BinlogRun.BinlogReplicator.RunFromStored`: promises nothing after two hard crashes in a row, for which `BinlogRun.SaveRunsAheadIff` gives the exact condition.
- `RelayRuns.StoreRuns`: a run that dies before it gets past what it had loaded as last seen may be followed by one that begins after where it stopped. The relay as a whole still leaves nothing out, but resuming in a file of the short run may, if no earlier file with the checkpoint is within reach of the search; `Resuming.ResumeExactlyOnceIff` says exactly when.
- `Recovery.RelayRecovery.RecoverIfRequired`: databases that had no relay files before keep what a failed rebuild has written, as in the code.
- `AlterPlan.ExecutionMirrorsDryRun`: MySQL types may differ between dry run and execution of CHANGE COLUMN, because the execution skips an unchanged ClickHouse type.
- `AlterReplay.ReplayCatchesUp`: plans that undo something are not covered even where they end right, as in `AlterReplay.RetypedTwice`, because on the way they drop or convert columns again that hold data by then.
- `AlterPlan.ReplayChangesNothing`: plans with several clauses about one column are not covered.
- `ParallelCopy.PerformInitialReplicationTableParallel`: good counters are promised for the moment of the query; a process left from an earlier launch may insert rows after it.
- Default values sent with MODIFY COLUMN, the `_version` column, field parameters, statements for tables that are not recorded or not configured.
- `FileWriter` is a value in the writer's dictionary, not an object of its own.
- `JsonBinary.ParsersAgree`: wrap-around of 32-bit sums, printing of doubles and escaping of text, opaque values, and the collapse of duplicate keys in a dictionary are not modelled.
- `GtidSet`: its `in` tests list membership by equality and not containment; merging is per Gtid as in `Gtids.Gtid.Add`.
- Comparisons of Gtids other than `in` and `==`, and a trailing newline that the regular expressions accept.
- Lexing of SQL, conversion of types and values, charsets, configuration, the HTTP server, the process runner, the optimizer, monitoring and network connections.
