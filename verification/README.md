# The durable log and replication pipeline of naruto, in Dafny

naruto is a key/value server with a sharded in-memory store, an append-only command log (AOF) in rotating files,
fork-style snapshots, and master/slave replication. This project models that pipeline, from bytes on the wire to
whole runs with crashes and reconnections, and proves what it promises. Where the code falls short of a promise, the
code is kept as it is and the exact condition under which the promise holds is proved.

Verify everything with `dafny verify dfyconfig.toml`.

## Reading order

| module | what it covers |
|---|---|
| `Wire`, `Buffer` | little-endian integers, frames `[u32 length][u16 flag][u16 type][body]`, the growable buffer with two cursors |
| `FrameReader` | reading a log file in 4096-byte chunks, and exactly when that is lossless |
| `Messages`, `Store`, `Objects`, `Snapshot`, `Sharded` | HSET, replay of a command log, the objects of the store, the database file, the two-level sharded store |
| `Merge`, `Backlog`, `FeedRuns`, `MergeRounds` | the double-buffered command log and its k-way merge; the same under interleaved workers |
| `AofNames`, `Aof`, `LogFiles` | file names, the rotating file set as one byte log, positions as frame indices |
| `Recovery`, `Server` | runs of a server with snapshots, crashes and torn writes; the objects of a server, whose methods make the steps of these runs |
| `Sender`, `Replica`, `Lineage`, `Transfer`, `SlaveState`, `Commands` | the incremental sender, master and slave over runs, a server as a master over its restarts, the bulk transfer, the slave's state machine, the commands |
| `Connection` | `send` and `read_` on a socket |
| `Division`, `Crc`, `Crc64` | bit-serial division on integers, and the table-driven checksums |
| `Seqs` | facts about sequences |

## Main results

* **Recovery** (`Recovery.RunRecovers`): at every point of every run of commands, merges, snapshots and crashes, also
  crashes in the middle of writing a batch, what a restart rebuilds from the database file and the log files is the
  store after all commands up to the later of what the snapshot saw and what was flushed, provided the files can be read
  back in chunks (`Readable`) and recovery replays past the snapshot or replays nothing (`Drained`). It rests on
  `Store.Absorption`: replaying `k..n` over the store after `s >= k` commands gives the store after `n`. `Server` ties
  the runs to the code's objects: its methods on the sharded store, the command log and the file set make exactly these
  steps, and `Server.Init`, from bytes on disk, gives exactly the recovered store.
* **Replication** (`Replica.RunReplicates`): across disconnections, resynchronisations and restarts of the master a slave
  holds its snapshot with the contiguous stretch of the master's log up to its position replayed on it, and past the
  snapshot point it holds exactly a store the master had. Runs assume that the windows of the sender end on frames, that
  bodies have no zero byte, that a full transfer, once started, completes, and that a restart of the master loses nothing
  a snapshot has seen; each of these conditions is shown to be exact. `Lineage` proves that what `Recovery` keeps of a
  server is what `Replica` asks of a master.
* **Command log** (`Backlog.Replication.MergeBacklogFeedSlaves`, `MergeRounds.Round`, `FeedRuns.RunKeeps`,
  `FeedRuns.LogOrder`): a merge writes every pending command once and in order; under every interleaving, also when
  overlapping feeds share an id, a record is emitted exactly if an even number of swaps overtook its feed; if merges run
  between feeds, the merged log respects real time.
* **The sender's cursor** (`Sender.WalkCovers`): over every sequence of ticks, batches, rotations and restarts what is read
  concatenates to the log from the granted position.
* **Chunked reading** (`FrameReader.ChunkedReadExact`), **socket framing** (`Connection.ReadExactInTwo`), **bulk transfer**
  (`Transfer.TransferExact`, `Transfer.TransferCompletes`), **slave states** (`SlaveState.RunKeeps`), **positions** (`Aof.PositionIsForever`),
  **snapshots** (`Snapshot.DumpParse`), **sharding** (the methods of `Sharded.Buckets`), **checksums**
  (`Crc.Crc16`, `Crc64.Checksum`).

## Where the code falls short, and what is proved instead

* `utils/file.cpp:80-83` consumes the four length bytes of an incomplete frame and does not give them back. A log is
  read back if and only if every chunk but the last ends at most four bytes into a frame (`FrameReader.LoadExact`); a
  frame longer than 4100 bytes is in no readable log (`FrameReader.ReadableFrame`). `Recovery` and `Replica` take this
  condition as a hypothesis, per file.
* `replication/replica_link.cpp:138-145` moves the cursor by what was read, not by what was parsed: a tick crashes
  or skips bytes for good if and only if its window is not aligned or does not end on a frame (`Sender.TickExact`).
  `replication/replica_link.cpp:132-135` passes a body as a C string: it arrives whole if and only if it has no zero
  byte (`Sender.CStringExact`).
* `replication/replication.cpp:425-437` against `491-500`: a feed overtaken by a swap of the buffers can be lost
  (`FeedRuns.StraddlingFeedIsLost`); which ones are is exact in `FeedRuns.RunKeeps`.
* The fork of a snapshot sees commands that no merge has flushed. If the snapshot becomes current before the next
  merge and the server crashes before the configuration is saved, recovery mixes old and new values
  (`Recovery.UndrainedRecoveryMixes`). Over all logs it is exact if and only if it replays nothing or replays past the
  checkpoint (`Store.RecoveredExactly`); that is the hypothesis `Recovery.Drained`.
* `replication/replication.cpp:683-685` records the position of a full transfer before the file has arrived. A slave
  whose transfer is aborted resumes with an empty store, which is right if and only if the position is the start of
  the log (`Replica.AbortedTransfer`). Runs in `Replica` let a started transfer complete.
* `connection/connection.cpp:354-377` asks, while the header is incomplete, for the header size less the bytes of the
  last read only. A frame is read exactly under every schedule if and only if its body has at least six bytes
  (`Connection.ReadExact`); any frame is, if its header comes in at most two reads (`Connection.ReadExactInTwo`).
* A crash can lose commands that only the snapshot on disk has: they are in the store after the restart and in no log
  file. A slave that resumes misses them for good; it ends with the master's store for every log if and only if nothing
  was lost (`Lineage.SlaveResumes`, `Lineage.ResumesExactly`).
* A SLAVEOF during a handshake or transfer makes a later assertion fail or skips PING; it is harmless if and only if
  neither is under way (`SlaveState.SlaveofHarmless`).
* An empty database file can never be transferred (`Transfer.TransferPossible`).
* An empty list or map does not survive a dump, and the expiry written is the time of last access
  (`Snapshot.FeatureRoundTrip`, `Snapshot.DumpParse`).

Hypotheses the statements use beside these: frame lengths are at least 8 and below 2^32, the 64-bit command counter
and the cursors do not wrap, the header of a command is read once (`link/client_link.cpp:48-50` consumes what
`command/command_hset.cpp:19-21` reads again), executing a command and feeding it to the log is one step in `Recovery`
and `Replica`, the snapshot child writes its file completely, and all servers share one lineage, since
`command/command_psync.cpp:28-45` does not compare run ids.

## Model

| member | source | states |
|---|---|---|
| `Wire.UnLe` | utils/bytes.h:164-176 | an integer written by copying its bytes and read back is unchanged if it fits its width |
| `Wire.LeUn` | utils/bytes.h:164-176 | every byte string of that width is the encoding of exactly one integer in range |
| `Wire.UnpackPack` | utils/pack.cpp:22-30 | flag, type and body of a packed frame are the ones packed |
| `Wire.PackUnpack` | utils/pack.cpp:32-37 | packing what was unpacked gives back the same bytes, so a frame rebuilt by the receiver is byte-identical |
| `Wire.FramesInjective` | utils/pack.cpp:22-30 | a byte log determines its frames: two logs with the same bytes are the same sequence of frames |
| `Wire.FrameLayout` | utils/pack.cpp:22-30 | byte by byte: length, flag and type are at their places, low byte first, and the length counts the whole frame |
| `Buffer.Bytes.constructor` | utils/bytes.cpp:9-13 | a new buffer is empty with both cursors at 0 |
| `Buffer.Bytes.Clear` | utils/bytes.cpp:47-51 | empties the buffer and resets both cursors |
| `Buffer.Bytes.BytesRemaining` | utils/bytes.cpp:43-45 | bytes between read cursor and end; wraps in 32 bits once the cursor has passed the end |
| `Buffer.Bytes.Read` | utils/bytes.h:164-176 | relative read of an n-byte integer: its value, 0 past the end, and the cursor moved by n in both cases |
| `Buffer.Bytes.GetBytes` | utils/bytes.cpp:127-131 | the bytes at the cursor, zeros past the end, and the cursor moved |
| `Buffer.Bytes.Append` | utils/bytes.h:178-188 | relative write at the write cursor, growing the buffer with zeros as needed |
| `Buffer.Bytes.Insert` | utils/bytes.h:190-197 | absolute write, ignored outside the buffer; it also moves the write cursor |
| `Buffer.Bytes.PutBytes` | utils/bytes.cpp:197-201 | writes the bytes at the write cursor, growing the buffer as needed; with the cursor at the end it appends them |
| `Buffer.Bytes.Put` | utils/bytes.cpp:183-187 | writes the whole contents of another buffer at the write cursor, whatever its cursors |
| `Buffer.Serialize` | utils/pack.cpp:22-30 | writes one frame of flag 0, of the right length, type and body, at the write cursor |
| `FrameReader.LoadFile` | utils/file.cpp:67-94 | the reader over the buffer delivers what the chunk-by-chunk specification says, terminates, and keeps its cursors in range |
| `FrameReader.ReadFrames` | utils/file.cpp:79-92 | the inner loop: consumes and delivers the complete frames and loses four bytes of an incomplete one |
| `FrameReader.ChunkedReadExact` | utils/file.cpp:67-94 | for every log prefix and every chunk schedule: all bytes are delivered as frames if and only if the schedule is aligned and the data ends on a frame; then they are the logged frames in order |
| `FrameReader.LoadExact` | utils/file.cpp:67-94 | a complete log file is read back exactly if and only if every multiple of 4096 falls at most four bytes into a frame |
| `FrameReader.ReadableFrame` | utils/file.cpp:75-83 | a frame occurs in some log file that can be read back if and only if it is at most 4100 bytes long |
| `FrameReader.LongFrameIsLost` | utils/file.cpp:75-83 | no log file with a longer frame is read back, wherever the frame lies |
| `FrameReader.TornLoad` | utils/file.cpp:74-93 | of a file that ends in a torn frame the complete frames are read back and the torn one is dropped, if the chunks allow it |
| `FrameReader.RunFrom` | utils/file.cpp:75-92 | from any point of a log on: aligned schedules deliver exactly the complete frames, any other loses at least four bytes |
| `Store.ExecMsgMeaning` | command/command_hset.cpp:31-69 | HSET changes one field, last writer wins; it is accepted exactly if the types agree, a rejection changes no value, and it crashes exactly on a missing field without a value |
| `Store.ExecMsgElement` | command/command_hset.cpp:31-69 | the element HSET leaves, field by field: the access time is set in every case, also on a rejection; an existing field keeps encoding, creation time and expiry; a new one expires 1000 * ttl after its creation if ttl > 0, else never |
| `Store.AcceptedIsTyped` | command/command_hset.cpp:35-50 | along any accepted log the type of a field never changes after its creation |
| `Store.TypedIsAccepted` | command/command_hset.cpp:54-67 | commands that respect the types are all accepted, from any store that respects them |
| `Store.ReplayIsOverlay` | command/command_hset.cpp:54-67 | replaying an accepted log is overlaying the last writes |
| `Store.Absorption` | replication/replication.cpp:68-110 | replaying commands k..n over the store after s commands, k <= s <= n, gives the store after n, and all of them are accepted again |
| `Store.RecoveredExactly` | replication/replication.cpp:68-110 | recovery by replaying k..f over a checkpoint of s commands is exact for every accepted log if and only if k = f or f >= s |
| `Store.ExecFramesReplay` | replication/replication.cpp:102-107 | executing an accepted log of frames never crashes and gives the replayed values, whatever the clock |
| `Store.ExecFramesExact` | replication/replication.cpp:102-107 | executing any frames from any store crashes if and only if one of them has an unknown type or meets a missing field without a value; otherwise the values are the replayed ones |
| `Objects.Object.constructor` | database/buckets.cpp:76-94 | an object of the given initial value |
| `Objects.Object.Set` | database/number.h:48-51 | the cell takes the value set |
| `Objects.Object.Serialize` | database/list_object.h:126-131 | type and value are written into the feature: a cell replaces its kind, a list or map adds to a container of its own kind item by item, so an empty one writes none |
| `Objects.Object.DeSeralize` | database/list_object.h:133-138 | filled only if the types agree: cells are overwritten, lists appended to, maps gain the entries they lack |
| `Objects.EmplaceAll` | database/map.cpp:22-29 | entries are inserted where the key is absent |
| `Objects.ParsedIsFilled` | database/buckets.cpp:76-98 | an object written out and filled into a new one is unchanged unless it is empty; parsing a feature is creating by kind and filling by type |
| `Objects.ContainersAdd` | database/list_object.h:126-138 | writing or filling twice collects both containers: lists in order; a field of a map is overwritten by a later write but kept by a later fill |
| `Snapshot.FeatureRoundTrip` | database/buckets.cpp:148-163 | an element survives a dump unless it is an empty list or map; encoding, creation and access time and value are kept, the expiry becomes the access time |
| `Snapshot.FeatureFields` | database/buckets.cpp:148-163 | what is written of an element and read back from a feature, field by field: type, encoding, creation and access time, and the access time again as the expiry |
| `Snapshot.DumpParse` | database/buckets.cpp:63-101 | dumping a store in any key order and parsing into an empty one gives back every element but the empty ones; all values survive if and only if none is empty |
| `Snapshot.ParseAdds` | database/buckets.cpp:63-101 | a row adds exactly its fields that have a kind, where they are absent, each with what the feature gives, and touches no existing element; a frame of another type adds nothing |
| `Sharded.Buckets.constructor` | database/buckets.cpp:15-21 | a new store is the empty map |
| `Sharded.Buckets.Get` | database/buckets.cpp:108-118 | looks up (key, field) in the flat map |
| `Sharded.Buckets.Put` | database/buckets.cpp:120-132 | inserts into the flat map if the field is absent, and changes nothing else, in the same bucket or another |
| `Sharded.Buckets.Set` | command/command_hset.cpp:54-68 | replaces the element of one field and no other |
| `Sharded.Buckets.Del` | database/buckets.cpp:134-141 | removes exactly (key, field) from the flat map |
| `Sharded.Buckets.Flush` | database/buckets.cpp:59-61 | empties the flat map |
| `Sharded.Buckets.Size` | database/buckets.cpp:51-57 | counts the keys of all buckets, also those without fields; 0 means an empty store |
| `Sharded.Buckets.ExecMsg` | command/command_hset.cpp:31-69 | HSET on the sharded store does to the flat map exactly what HSET does |
| `Sharded.Buckets.Parse` | database/buckets.cpp:63-101 | one frame of a database file inserts exactly its elements where absent |
| `Sharded.Buckets.Dump` | database/buckets.cpp:23-37 | the frames written are one row of the flat map per key, every key exactly once |
| `Sharded.Buckets.PutFeature` | database/buckets.cpp:69-100 | one field of a parsed row is inserted exactly if it has a kind and the field is absent |
| `Sharded.Buckets.DumpRow` | database/buckets.cpp:148-161 | the message of a key holds exactly its fields, each as written by its object |
| `Sharded.DumpIsRestored` | database/buckets.cpp:23-37 | whatever order the buckets were walked in, parsing the file into an empty store gives back every element but the empty ones |
| `Sharded.FlatWith` | database/buckets.cpp:120-132 | changing the columns of one key changes no other key, also in the same bucket |
| `Merge.MergeIsFeedOrder` | replication/replication.cpp:519-547 | the corollary for distinct ids given in feed order: any sorted interleaving of the queues is the feed order, whatever the sort does |
| `Backlog.Replication.constructor` | replication/replication.cpp:23-66 | nothing is pending and nothing unflushed at the start |
| `Backlog.Replication.BacklogFeed` | replication/replication.cpp:425-437 | logs a body as a frame of flag 0 under the next id, behind everything pending, and leaves the inactive half alone |
| `Backlog.Replication.BacklogFeedPack` | replication/replication.cpp:451-460 | logs a received frame unchanged under the next id, behind everything pending, and leaves the inactive half alone |
| `Backlog.Replication.BacklogFeedBytes` | replication/replication.cpp:462-478 | adds exactly these bytes to the backlog and their number to the offset |
| `Backlog.Replication.BacklogFlush` | replication/replication.cpp:480-489 | appends the whole backlog to the log files as one batch, counts it, clears it and saves the configuration; nothing happens for an empty one |
| `Backlog.Replication.ReplConfFlush` | replication/replication.cpp:238-250 | the position of the link, if there is one, is put into the configuration, otherwise the one there stays; the dump position stays; and the configuration is then on disk |
| `Backlog.Replication.MergeBacklogFeedSlaves` | replication/replication.cpp:491-550 | one round moves every pending record to the merged ones, exactly once and in feed order; the log files are always what they were at the start followed by the merged frames, and the half cleared holds only records merged before |
| `Backlog.Replication.SwapAndMerge` | replication/replication.cpp:494-547 | the halves change places and the drained one, merged, becomes the backlog |
| `Backlog.Replication.MoveMaster` | command/command_aof.cpp:22-23 | the link's position is the one given |
| `Backlog.Replication.MergeBuckets` | replication/replication.cpp:519-547 | for any queues in id order, also with ids shared between them: the loop terminates and emits every record exactly once, each worker's in order, all in non-decreasing id order, without the ids |
| `Backlog.Replication.Heads` | replication/replication.cpp:503-516 | each non-empty bucket is represented by the id of its first record |
| `Backlog.Replication.Bgsave` | replication/replication.cpp:257-291 | records the current end of the log files, unless the store is empty, a child runs or the fork fails |
| `Backlog.Replication.OnBgsaveFinish` | replication/replication.cpp:293-313 | the recorded position becomes current exactly if the rename succeeded |
| `FeedRuns.RunKeeps` | replication/replication.cpp:425-460 | for every interleaving of load, number, count and append steps with merges: merged and waiting records are exactly those appended to the active half, and a record misses it exactly if an odd number of swaps overtook its feed |
| `MergeRounds.Round` | replication/replication.cpp:491-547 | from every reachable state of interleaved feeds, merging the bytes of the active half is a cron step of that model, and its frames are what goes into the backlog |
| `MergeRounds.ActiveSorted` | replication/replication.cpp:430-433 | in every reachable state each buffer of the active half is in id order |
| `FeedRuns.RealTime` | replication/replication.cpp:430-433 | a feed that incremented the counter before another loaded it has the smaller id, and ids grow strictly within a worker |
| `FeedRuns.QuietRunMergesAll` | replication/replication.cpp:491-550 | if merges run between feeds, every record is merged exactly once over all rounds, in worker order and non-decreasing id order |
| `FeedRuns.LogOrder` | replication/replication.cpp:519-547 | a merged command is preceded in the log by every command whose feed drew its id before this one's feed looked at the counter |
| `FeedRuns.StraddlingFeedIsLost` | replication/replication.cpp:494-500 | a run in which a fed command is never emitted and no longer in any buffer |
| `AofNames.ParseGenerated` | sink/rotate_file_stream.cpp:52 | a generated name parses to its index as long as that is an int, and throws after that |
| `AofNames.NextOfGenerated` | utils/file.cpp:43-47 | the name after that of file i is that of file i + 1, and different files have different names |
| `AofNames.NextIndex` | utils/file.cpp:43-47 | of any name: the next one carries the index plus one, is empty for a name without a dot, and throws exactly if the name has no readable number |
| `AofNames.StoiReads` | utils/file.cpp:57-65 | spaces, a sign and digits read as the decimal number they spell, whatever follows the digits, if it is an int, and throw otherwise |
| `AofNames.StoiThrows` | utils/file.cpp:57-65 | reading throws if no digit follows the spaces and the sign |
| `AofNames.HasNextAof` | utils/file.cpp:49-55 | moves the name on exactly if the next file exists; a name without a number makes it throw |
| `AofNames.NextInDirectory` | utils/file.cpp:49-65 | among files numbered without a gap the step from file i exists exactly if i is not the last |
| `AofNames.ListAof` | utils/file.cpp:12-41 | in a directory of any names: lists each name with "aof" and an index, from that of the given one on, once and in index order, and throws exactly if some such name has no readable number |
| `AofNames.CandidateExact` | utils/file.cpp:22 | a listing looks at exactly the names with "aof" somewhere, of any directory |
| `AofNames.ListGenerated` | utils/file.cpp:12-41 | among generated names nothing throws; the list from file k on is files k, k + 1, ... to the last, and without a name to start from it is all of them |
| `Aof.ListAof` | utils/file.cpp:12-41 | on indices: lists exactly the files from the given one on, in order, whatever order the directory is read in |
| `Aof.Insert` | utils/file.cpp:35-39 | sorted insertion keeps the order and adds exactly the new index |
| `Aof.ListContiguous` | utils/file.cpp:12-41 | without gaps the list is first, first + 1, ... up to the last file |
| `Aof.ListedSuffix` | replication/replication.cpp:89-109 | reading the listed files in turn, the first from an offset, is reading the suffix of the log at that position |
| `Aof.RotateFileStream.constructor` | sink/rotate_file_stream.cpp:54-68 | opens a new empty file after the last one and leaves the others alone, whatever numbers the directory has |
| `Aof.RotateFileStream.CurRollFile` | sink/rotate_file_stream.cpp:25-30 | the position returned is the end of the byte log |
| `Aof.RotateFileStream.Write` | sink/rotate_file_stream.cpp:32-37 | if the current file has reached the rotation size, the index grows by one, the new file is exactly the batch and every older file is unchanged; otherwise the index stays and only the current file grows, by the batch |
| `Aof.RotateFileStream.Rotate` | sink/rotate_file_stream.cpp:41-50 | the index grows by one, the new file is empty and every other file unchanged |
| `Aof.WrittenRotates` | sink/rotate_file_stream.cpp:32-50 | on the byte log: a batch starts a new file exactly if the last one has reached the rotation size |
| `Aof.ClosedForever` | sink/rotate_file_stream.cpp:32-50 | whatever events follow, a file that has reached the rotation size, or is not the last, is never appended to again |
| `Aof.FilledBeforeLeft` | sink/rotate_file_stream.cpp:32-50 | outside restarts every file a run of batches leaves behind has reached the rotation size |
| `Aof.PositionIsForever` | sink/rotate_file_stream.cpp:25-68 | what is read from a recorded position is, after any batches, rotations and restarts, what was there plus exactly what was written since |
| `LogFiles.WriteFramesOnDisk` | sink/rotate_file_stream.cpp:32-37 | writing frames is writing their bytes, and no frame straddles two files |
| `LogFiles.IndexSuffix` | replication/replication.cpp:89-109 | the frames from a position on are the rest of its file and all of the later ones |
| `LogFiles.WriteFramesKeeps` | sink/rotate_file_stream.cpp:32-37 | a position keeps its place in the log when more is written |
| `LogFiles.CurIndex` | sink/rotate_file_stream.cpp:25-30 | the current end of the files is the index after all flushed frames |
| `LogFiles.LoadFrom` | utils/file.cpp:67-94 | loading a file from a boundary delivers exactly the complete frames behind it, if it is readable, also when it ends in a torn one |
| `Recovery.ReplayFilesExact` | replication/replication.cpp:89-110 | replaying the files from a position executes exactly the logged commands behind it, torn tails dropped |
| `Recovery.RecoverExact` | replication/replication.cpp:68-110 | on a readable and drained disk recovery does not crash and yields the store after all commands up to the later of what the snapshot saw and what was flushed |
| `Recovery.NextKeeps` | replication/replication.cpp:257-313 | command, merge, fork, finish, save and restart all keep: files and pending commands split the log, a snapshot is a store of the past with a position at or before it, and the files hold all it has seen unless its position is still their end |
| `Recovery.CrashKeeps` | replication/replication.cpp:480-489 | a crash between writing and saving, or in the middle of a batch, leaves a disk recovery can start from |
| `Recovery.RunRecovers` | replication/replication.cpp:68-110 | at every point of every run the store is that of the commands that count, and a crash there is recovered exactly if the disk it leaves is readable and drained |
| `Recovery.UndrainedRecoveryMixes` | replication/replication.cpp:293-304 | a run whose recovery yields a store that never existed |
| `Server.Exec` | command/command_hset.cpp:16-28 | on the objects of a server a client command is the step of a run that `Recovery` takes, if it does not crash |
| `Server.Cron` | replication/replication.cpp:480-550 | a merge on the objects is the step that writes all pending commands, and with a batch the one that saves the configuration |
| `Server.Fork` | replication/replication.cpp:257-291 | forking a snapshot child on the objects is the step of a run, with the position of the files at that moment |
| `Server.Finish` | replication/replication.cpp:293-313 | the end of the child is the step of a run, renamed or not |
| `Server.SaveConf` | replication/replication.cpp:238-253 | flushing the configuration is the step that saves it |
| `Server.Restart` | replication/replication.cpp:23-66 | the objects of a restarted server are in the state the restart step leaves |
| `Server.LoadDatabase` | replication/replication.cpp:68-74 | reading and parsing the database file into a new sharded store crashes or gives exactly as the run's recovery does |
| `Server.ReplayLog` | replication/replication.cpp:89-110 | the loop over the log files does to the sharded store what the recovery of a run does to the flat one |
| `Server.ExecAll` | replication/replication.cpp:102-107 | the loop over the frames of one file does to the sharded store what executing them does to the flat one |
| `Server.Init` | replication/replication.cpp:53-110 | starting from the bytes on disk and the saved position gives the store that `Recovery.RunRecovers` is about, and crashes exactly when that says so |
| `Sender.CStringExact` | replication/replica_link.cpp:131-135 | a body survives being added as a C string if and only if it has no zero byte |
| `Sender.ReplicaLink.OnSendIncrToSlave` | replication/replica_link.cpp:92-154 | a tick moves the cursor and sends the batch that the specification of a tick says |
| `Sender.TickExact` | replication/replica_link.cpp:112-150 | a tick is lossless exactly under the window condition: it then sends the commands between the old and the new cursor and stamps the new one, a frame boundary; otherwise it crashes, or sends fewer bytes of frames than the cursor passes over, which are never read again |
| `Sender.TickCovers` | replication/replica_link.cpp:99-145 | whatever is in the files, a tick reads exactly what lies between the old and the new cursor, at most 16384 bytes of it, moves to the next file exactly at the end of one that has a successor, and stamps the new cursor |
| `Sender.WalkCovers` | replication/replica_link.cpp:92-154 | over every sequence of ticks, batches, rotations and restarts what is read concatenates to the log from the granted position, and what is not read lies behind the cursor |
| `Sender.CatchesUp` | replication/replica_link.cpp:92-154 | as many ticks as there are bytes and files behind the cursor bring it to the end of the log, having read all of it, unless one crashes |
| `Sender.ReplicaLink.ReadFile` | replication/replica_link.cpp:112-139 | the reading loop of a tick delivers what the window specification says and stops at the end of the file or of the window |
| `Replica.GrantIsValid` | command/command_psync.cpp:27-111 | full, partial and refused synchronisations each have their exact condition: a partial one is granted exactly at the requested position and only if it exists, a full one at the recorded position |
| `Lineage.GrantCovers` | command/command_psync.cpp:27-111 | in every state a server can reach: a partial position exists, and a full one is a frame boundary at or before what the database file contains, with everything the file lacks behind it |
| `Lineage.ServerSnapshot` | replication/replication.cpp:281-304 | the files and the snapshot of a server that has lost nothing are what the replication model asks of a master |
| `Lineage.SlaveResumes` | replication/replication.cpp:602-609 | what a slave reads behind its position after a restart of its master skips exactly the commands the files have lost |
| `Lineage.ResumesExactly` | replication/replication.cpp:602-609 | such a slave ends with the master's store for every log if and only if nothing was lost |
| `Replica.NextKeeps` | replication/replication.cpp:602-687 | every step, a restart of the master included, keeps: the slave's store, position, messages in flight and the master's cursor cover the log contiguously |
| `Replica.RunReplicates` | command/command_aof.cpp:12-27 | on every run under the stated hypotheses the slave holds its snapshot with the contiguous log up to its position, and past the snapshot point exactly the master's store after that many commands |
| `Replica.RebuiltExactly` | replication/replica_link.cpp:126-138 | the frames of a batch without zero bytes are rebuilt by the slave byte for byte if and only if all have flag 0 |
| `Replica.ResumesWhereItStopped` | replication/replication.cpp:602-609 | a slave with a position is granted exactly that position when it reconnects |
| `Replica.AbortedTransfer` | replication/replication.cpp:683-685 | a slave whose transfer is aborted resumes with a store that is the master's if and only if the position is the start of the log |
| `Transfer.BulkLink.OnSendBulkToSlave` | replication/replica_link.cpp:53-90 | one writable event: the link is gone exactly on an empty read or an error that is no retry, a write that would block changes nothing, and a write moves at most 16384 bytes, done exactly at the end of the file |
| `Transfer.BulkReceiver.OnReadSyncBulkPayload` | replication/replication.cpp:315-345 | one readable event takes at most what is left of the announced size and at most 4096 bytes, is complete exactly at that size, and aborts exactly if nothing comes |
| `Transfer.TransferExact` | replication/replication.cpp:315-366 | for every schedule the temporary file is a prefix of the master's file, is the whole of it at the switch, and no byte of the incremental stream is taken |
| `Transfer.TransferPossible` | replication/replica_link.cpp:61-65 | a file can be transferred if and only if it is not empty |
| `Transfer.TransferCompletes` | replication/replica_link.cpp:53-90 | every non-empty file arrives whole under every schedule of writes that make progress or are retried and reads that make progress, with as many of each as the file has bytes |
| `SlaveState.Handlers.constructor` | replication/replication.cpp:23-51 | a new server is in state NONE without a master |
| `SlaveState.Handlers.Loop` | replication/replication.cpp:164-206 | handling a calm sequence of events fails no assertion and ends in a sound state |
| `SlaveState.Handlers.Dispatch` | replication/replication.cpp:559-582 | a handler runs only while its watcher is active, keeps every sound state sound and makes only moves of the protocol |
| `SlaveState.Handlers.CommandSlaveof` | command/command_slaveof.cpp:14-24 | leaves a sound state if and only if no handshake or transfer is under way, because it stops no watcher |
| `SlaveState.Handlers.OnReplCron` | replication/replication.cpp:164-201 | keeps the state sound; a timeout in a handshake, a transfer or online and a waiting CONNECT start over with PING to be sent, and nothing else changes anything |
| `SlaveState.Handlers.UndoConnectMaster` | replication/replication.cpp:552-557 | its assertion fails if and only if no handshake is under way; from a sound handshake it goes back to CONNECT without a watcher left |
| `SlaveState.Handlers.AbortSyncTransfer` | replication/replication.cpp:584-592 | its assertion fails if and only if no transfer is under way; from a sound transfer it goes back to CONNECT without a watcher left |
| `SlaveState.Handlers.OnSyncWithMaster` | replication/replication.cpp:368-423 | from a sound handshake: a transfer or going online exactly on a PONG with a full or partial reply, back to CONNECT exactly on a socket error, no PONG or a refusal, and the state stays sound |
| `SlaveState.Handlers.TryPartialResynchronization` | replication/replication.cpp:602-687 | on a link that has answered PING every reply leaves a sound state: a transfer exactly for a full reply, online with an open stream exactly for a partial one, otherwise back to CONNECT |
| `SlaveState.Handlers.CloseMaster` | replication/replication.cpp:420-422 | fails exactly without a link; once the handshake's watchers are stopped it leaves a sound CONNECT with the stream closed |
| `SlaveState.Handlers.OnReadSyncBulkPayload` | replication/replication.cpp:315-366 | in a sound transfer: online with an open stream exactly when the file is complete, back to CONNECT exactly on an I/O error or a failed rename, unchanged otherwise |
| `SlaveState.StepKeeps` | replication/replication.cpp:164-206 | every event keeps link, watchers and PONG in step with the state and is a move of the protocol: online only by a PONG and a partial reply or by a complete transfer, every handled failure back to CONNECT, every timeout starting over |
| `SlaveState.RunKeeps` | replication/replication.cpp:368-423 | on every run without a SLAVEOF in a handshake or transfer no assertion fails, every state has the link and watcher it needs, and every step is a move of the protocol |
| `SlaveState.SlaveofHarmless` | command/command_slaveof.cpp:21-24 | in a reachable state a SLAVEOF is harmless, whatever follows, if and only if no handshake or transfer is under way |
| `Commands.CommandHset.constructor` | command/command_hset.cpp:16-17 | the command works on the given store and log |
| `Commands.CommandHset.Exec` | command/command_hset.cpp:16-28 | executes HSET and logs the frame as received exactly if it was accepted |
| `Commands.CommandAof.constructor` | command/command_aof.cpp:12-13 | the command works on the given store, log and link position |
| `Commands.CommandAof.Exec` | command/command_aof.cpp:12-27 | applies the commands of a batch in order, logs every one again in that order, and moves the position of the link only after all of them; a type number outside the protocol crashes |
| `Commands.CommandAof.ExecOne` | command/command_aof.cpp:17-21 | executes one command of a batch and logs it, accepted or not |
| `Commands.BatchAndFlush` | replication/replication.cpp:238-250 | after a batch and a flush the configuration on disk holds the position the batch was stamped with |
| `Commands.CommandPsync` | command/command_psync.cpp:16-111 | decides from the files of the directory as specified, sets the link's cursor to exactly the granted position, and starts a snapshot exactly when it refuses |
| `Connection.ReadExact` | connection/connection.cpp:345-378 | a call takes exactly one frame, whatever the schedule of reads, if and only if its body has at least six bytes; and the status it ends with is exact |
| `Connection.ReadExactInTwo` | connection/connection.cpp:345-378 | every frame is read exactly, whatever follows and however the reads are cut, if its body has at least six bytes or its header comes in at most two reads |
| `Connection.ReadManyExact` | connection/connection.cpp:345-378 | frames sent back to back are received as those frames in order and the rest of the stream is untouched, for every frame with six bytes of body or a header in at most two reads |
| `Connection.Connect.Read_` | connection/connection.cpp:345-378 | the loop over the buffer gathers what the specification says and sets the sticky error |
| `Connection.Connect.Send` | connection/connection.cpp:310-339 | what goes out is a prefix of the data for every schedule of short sends, all of it exactly if the call succeeds, and the status it ends with is exact |
| `Crc.LookupIsDivision` | utils/crc.cpp:22-23 | one table lookup is eight steps of division by 0x1021, for every register and byte |
| `Crc.AllTabulated` | utils/crc.h:17-50 | every entry of the CRC-16 table is the remainder of its index |
| `Crc.Crc16` | utils/crc.cpp:18-25 | the table-driven loop computes the bit-serial CRC-16/XMODEM remainder of every byte string, on registers of bits and on the integers they stand for |
| `Crc.RemainderXor` | utils/crc.cpp:18-25 | the checksum is linear over xor of strings of equal length |
| `Crc.RemainderNumber` | utils/crc.cpp:18-25 | the remainder on registers, read as a number, is that of bit-serial division on integers: double modulo 2^16, and xor 0x1021 when the top bit differs from the message bit |
| `Crc.SlotNumber` | database/buckets.cpp:165-167 | the slot is that integer remainder modulo 16384 |
| `Crc.Hash` | database/buckets.cpp:165-167 | the slot of a key is the remainder of dividing its bits by x^16 + 0x1021, bit by bit on integers, modulo 16384 |
| `Crc64.TableIsSteps` | utils/crc.h:51-180 | every entry of the CRC-64 table is what eight division steps make of its index |
| `Crc64.Lookup64IsDivision` | utils/crc.cpp:11-14 | one table lookup is eight steps of reflected division, for every register and byte |
| `Crc64.Checksum` | utils/crc.cpp:8-16 | the table-driven loop computes the bit-serial CRC-64 remainder of every byte string from any start, on registers of bits and on the integers they stand for |
| `Crc64.RemainderNumber64` | utils/crc.cpp:8-16 | the remainder on registers, read as a number, is that of reflected bit-serial division by 0x95ac9329ac4bc9b5 on integers |
| `Crc64.Incremental` | utils/crc.cpp:8-16 | the checksum of a concatenation is that of the second part started from that of the first |

## Left out

- Sharded.Buckets.Dump: asks that every row fits the 32-bit length of a frame; the code does not test it and would write a wrapped length.
- AofNames.NextOfGenerated: says nothing of file 2147483647, whose successor overflows an `int`.
- Backlog.Replication.BacklogFeed: one step here, as in `BacklogFeedPack`; its four steps interleave with other threads in `FeedRuns`.
- Backlog.Replication.BacklogFeedPack: one step here; its four steps interleave with other threads in `FeedRuns`.
- Merge.MergeIsFeedOrder: asks for distinct ids; `Backlog.Replication.MergeBuckets` covers shared ones, whose order the sort leaves open.
- FrameReader.LoadFile: files of 4 GiB and more, whose buffer size no longer fits the 32-bit cursors.
- Server.LoadDatabase: files of 4 GiB and more, as in `FrameReader.LoadFile`.
- Server.ReplayLog: files of 4 GiB and more, as in `FrameReader.LoadFile`.
- Server.Init: files of 4 GiB and more, as in `FrameReader.LoadFile`.
- Server.Fork: asks that every row fits a frame, as `Sharded.Buckets.Dump` does.
- Buffer.Bytes.Put: a buffer written into itself before its own end, where the code reads back what it has just written; there is no such caller.
- Recovery.RunRecovers: a run goes on only after restarts from readable and drained disks; what a server makes of any other disk is shown at the first such crash and not followed further.
- Replica.RunReplicates: the log files of its master have no torn tails; `Recovery` covers those.
- Protobuf encoding: a body is an opaque byte string, and a codec that reads back what it wrote gives its meaning.
- Aliasing of elements through shared pointers: the store holds values and `Sharded.Buckets.Set` puts the changed one back; the order in which hash tables are walked is left open.
- The log files are numbered from 0 without a gap from `LogFiles` on; `AofNames.ListAof` and the constructor of `Aof.RotateFileStream` take any directory.
- Reading and setting an element while another worker does the same, and the data race between a worker and the merge of the same buffer: feeds interleave with merges as steps, in `FeedRuns`.
- 32-bit wrap-around of the buffer's cursors, and of the `int` cursors of the merge.
- The slave's own restart: its saved position and its log are not combined in one run; nor is a SLAVEOF to another master while online.
- The list of slaves, heartbeats, the PING to slaves, timers and clocks: a timeout is an event that may happen.
- JSON configuration text, gflags parameters, run ids, logging, threads and libev: events of the environment.
- The state WAIT_BGSAVE on the master's link, which nothing reads.
- Fork, rename and the exit status of the child: outcomes given to the model; the code ignores the exit status.
- `expire` is stored and never enforced; `incr`, `lpop`, `ltrim`, `lrange` have no caller on this path.
- `Bytes` find, replace, print and absolute-index writers other than `insert`; `Pack::deSerialize` on raw pointers.
- Connection set-up, reconnection and blocking mode; the cluster code, which has no receive side.
- Floats are bit patterns: the server copies them and never computes with them here.
