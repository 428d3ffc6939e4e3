# Verification of sqlite-remote-server

A Dafny model of the server's core, and proofs about it. The server stores SQLite database files as versioned sets of
blocks for many clients. A client opens a database and gets a lease with an epoch. It fetches blocks of one version,
commits new blocks on top of a version, and asks which blocks changed. A new lease fences the old one. A slot lets an
owner replace a lost key, which purges the old key's databases.

`dafny verify dfyconfig.toml` checks everything.

## How the model is built

| files | content |
|---|---|
| `Basics`, `Store` | integers of Go's widths, sorted sets, sorting; the requests, answers and checks that both stores share |
| `Memory` | the memory store as a state machine on values: one step per call |
| `MemoryStore` | the memory store as objects that are updated in place, each method proved to take one step of `Memory` |
| `Leases` | what an open, a release and a deletion mean for the clients that come after |
| `Runs`, `Fencing`, `ChangeLog`, `LastWrite`, `Claims` | what holds over whole runs: lists of calls of any number of clients, in the order in which the lock serializes them |
| `BlockParts`, `Tables`, `Postgres` | the PostgreSQL store: block parts, the meaning of each SQL statement, one step per method |
| `Relation`, `Simulation` | every run of the PostgreSQL store is a run of the memory store, state by state |
| `PostgresRuns`, `PostgresKeepAlive` | the results about whole runs for the PostgreSQL store |
| `Leftovers` | what a deletion leaves of blocks that the columns cannot carry |
| `PostgresStore`, `RowSweeps` | the methods of the PostgreSQL store with their loops, as an object that follows a run of the memory store; sweeps as one transaction per row, interleaved with everything else |
| `Sweep` | the batch loop that deletes unused databases |
| `CommitAssembly`, `FetchFrames`, `FrameSize`, `KeepAlive`, `Connection` | the connection: commits in parts, fetches of several ranges, frame sizes, lease renewal, and the handlers as objects |
| `Wire`, `FrameCodec` | the protobuf wire format, and Pages and Changes frames as bytes, written and read back |
| `Holders` | the map of lease holders, with store steps and map steps of many connections interleaved |
| `CacheControl`, `KeySet`, `Login` | the JWKS cache and the login transcript |

Times are integers. A random lease ID, the order in which a sweep takes databases with the same expiry, and the answers of
the token service are inputs, so the results hold for all of them. Integers wrap where the source's do.

Some promises hold only under a condition. Each has a lemma with a concrete failing case, and one with the exact condition
or, where noted, a sufficient one:

- A purge removes the record, so the epochs start again (`Fencing.PurgeRestartsEpochs`, `Holders.PurgeMisleads`). The
  results about whole runs are for a database whose record stays.
- A block that the file was cut off below and that grew back is not in the change log (`ChangeLog.RegrownBlockUnlisted`).
  An unlisted block reads as before if the file stayed longer than its index, and as zeros if not
  (`ChangeLog.CompleteListsEveryWrite`).
- With a page count of 2^63 the PostgreSQL store reads zeros where the memory store reads data
  (`PostgresRuns.HugePageCountDiffers`, `Simulation.CommitBlocksAgreeBelowInt64`).
- The end of a range can wrap around and pass the order check of fetch (`FetchFrames.WrappedEndPasses`,
  `FetchFrames.CheckIsExact`). The store then refuses the range, so no frame is sent.
- A database that is deleted and created again with larger pages is still fetched through the old open, with frames that
  exceed the limit (`FrameSize.LargerPagesExceed`, `FrameSize.AnswerFitsExactly`).
- A deletion in the PostgreSQL store leaves the parts of blocks from index 2^63 on. If the database is created again, a
  fetch returns the deleted data (`Leftovers.DeletedDataReturns`) or, with smaller pages, its copy fails
  (`Leftovers.CopyFails`). Nothing is left exactly if no block had such an index (`Leftovers.DeletionLeavesNothing`).
- A max-age of more than 292 years overflows and can become ten seconds (`CacheControl.OverflowShortens`,
  `CacheControl.ClampIsNearest`).
- The framing alone does not separate parts of 2^32 bytes (`Login.LongPartAmbiguous`). The inputs that collide have
  nonces that no server makes: logins are injective for every server ID (`Login.LoginInjective`).
- Refused commits do not extend the lease (`KeepAlive.RefusedCommitsExpire`, `KeepAlive.CommitExtends`), so only
  acknowledged commits count as signs of life of a client.

## Model

| member | source | states |
|---|---|---|
| `Store.PageSizeBits` | internal/store/store.go:245-247 | The bit test accepts exactly the powers of two from 512 to 65536. |
| `Store.CheckRange` | internal/store/store.go:272-277 | A range is accepted exactly if it lies inside the file as true integers, although the code avoids the addition that would wrap. |
| `Store.ValidateCommit` | internal/store/store.go:251-269 | The loop finds the first error in the source's order, and none exactly if the commit is valid. |
| `Store.CommitErrorNone` | internal/store/store.go:251-269 | A commit passes exactly if it has an ID and its blocks have the page size, lie below the page count, and have distinct indexes. |
| `MemoryStore.Storage.Open` | internal/store/memory/memory.go:55-109 | Takes exactly one step of the state machine and appends it to the history of the object. |
| `MemoryStore.Database.TakeLease` | internal/store/memory/memory.go:92-108 | Resume, refusal while another instance holds an active lease, or a grant with the next epoch. |
| `MemoryStore.Storage.Fetch` | internal/store/memory/memory.go:112-136 | Takes one step; a hole in the file reads as zeros. |
| `MemoryStore.Database.ReadBlocks` | internal/store/memory/memory.go:126-134 | The loop reads the range of the sparse file. |
| `MemoryStore.Storage.Commit` | internal/store/memory/memory.go:139-185 | Takes one step: fenced, repeated, conflicting, invalid or applied. |
| `MemoryStore.Database.WriteAndTruncate` | internal/store/memory/memory.go:160-169 | The loops write the blocks in order and drop those beyond the new page count. |
| `MemoryStore.Database.Commit` | internal/store/memory/memory.go:160-184 | Blocks, page count, version, commit ID, change log and expiry change together. |
| `MemoryStore.Touched` | internal/store/memory/memory.go:175-179 | The log entry is the strictly ascending list of the written indexes. |
| `MemoryStore.Storage.Changes` | internal/store/memory/memory.go:188-218 | Takes one step. |
| `MemoryStore.Seen` | internal/store/memory/memory.go:207-216 | The indexes of the entries after a version, ascending, each once. |
| `MemoryStore.Storage.Renew` | internal/store/memory/memory.go:221-234 | Takes one step. |
| `MemoryStore.Storage.Release` | internal/store/memory/memory.go:237-250 | Takes one step; the epoch stays. |
| `MemoryStore.Storage.Delete` | internal/store/memory/memory.go:252-266 | Takes one step; an active lease is refused unless taken over. |
| `MemoryStore.Database.Remove` | internal/store/memory/memory.go:397-404 | Empties the database, raises epoch and version, and keeps the record. |
| `MemoryStore.Storage.DeleteUnused` | internal/store/memory/memory.go:269-299 | Takes one step that the state machine allows: the oldest unused databases up to the limit, then the unused slots. |
| `MemoryStore.SortKeys` | internal/store/memory/memory.go:372 | The keys of one subject sorted by database ID, the same keys. |
| `MemoryStore.Storage.Purge` | internal/store/memory/memory.go:361-374 | Removes every record of the subject and no other, and lists the live ones in order. |
| `MemoryStore.Storage.ClaimSlot` | internal/store/memory/memory.go:311-327 | Takes one step. |
| `MemoryStore.Storage.SetSlotLabel` | internal/store/memory/memory.go:330-344 | Takes one step. |
| `MemoryStore.Storage.DeleteSlot` | internal/store/memory/memory.go:347-358 | Takes one step. |
| `MemoryStore.Storage.GetSlot` | internal/store/memory/memory.go:302-308 | Takes one step that changes nothing. |
| `Store.CommitErrorIsFirst` | internal/store/store.go:251-269 | The error of a commit is that of its first unfit block: its length, else an index beyond the file, else a repeated index. |
| `Store.MissingCommitID` | internal/store/store.go:251-254 | A missing commit ID is reported exactly if it is missing, whatever the blocks are. |
| `Leases.OpenLive` | internal/store/memory/memory.go:92-109 | An open of a live database is refused if and only if another instance holds an active lease and there is no takeover; it is told since when, and nothing changes. Otherwise it gets the next epoch, the content stays, and it learns whether the lease was active. |
| `Leases.ResumeExactly` | internal/store/memory/memory.go:92-99 | A resume succeeds if and only if the lease is still held with the same ID and epoch, however long ago it expired. |
| `Leases.CreateExactly` | internal/store/memory/memory.go:62-91 | In every good state, an open creates a database if and only if none is live, it asks for it, does not resume and names a valid page size; the new database is empty and goes on with the counters of a deleted one. |
| `Leases.OpenRefused` | internal/store/memory/memory.go:59-91 | What refuses an open before the lease counts: a slot of another key, another page size, nothing to resume, nothing to open. |
| `Leases.HolderCalls` | internal/store/memory/memory.go:221-250 | Renewal and release succeed for exactly the epoch of a held lease, and change only expiry or holder. |
| `Leases.ReleasedIsFree` | internal/store/memory/memory.go:237-250 | After a release any instance opens the database without takeover, takes it from nobody, and finds the state the other left. |
| `Leases.DeleteExactly` | internal/store/memory/memory.go:252-266 | A deletion is refused if and only if a lease is active and there is no takeover; a missing database is no error. |
| `Leases.DeletedIsGone` | internal/store/memory/memory.go:252-266 | After a deletion, fetches and change requests find nothing, and commits, renewals and releases are fenced, under any epoch. |
| `Leases.RecreatedIsEmpty` | internal/store/memory/memory.go:62-91 | A database that is deleted and created again has no blocks and no log, and a version and an epoch that no client of the old one has seen. |
| `Leases.ChangesExactly` | internal/store/memory/memory.go:188-206 | A change request fails if and only if the database is not live or has not reached the version; for the current version nothing has changed. |
| `Leases.FetchExactly` | internal/store/memory/memory.go:112-136 | A fetch succeeds if and only if the database is live, the version is the current one and the range lies in the file. |
| `Memory.SweepAllIsSweepDbs` | internal/store/memory/memory.go:285-292 | Removing the chosen databases one after the other is the same as removing them at once. |
| `Memory.LiveKeys` | internal/store/memory/memory.go:361-374 | The live databases of a subject, each once, in the order of their IDs. |
| `Runs.StepMoves` | internal/store/memory/memory.go:55-404 | The only ways in which any call changes a record: apply a commit, extend or release a lease, grant one, create anew, delete. |
| `Runs.StepCreates` | internal/store/memory/memory.go:78-88 | Only an open with create makes a record, with epoch 1. |
| `Runs.RunGood` | internal/store/memory/memory.go:139-185 | In every reachable state the blocks have the page size and lie in the file, the log is a gap-free run of versions that ends at the current one and has at most 1024 entries, and a deleted record is empty and unheld. |
| `Fencing.CountersGrow` | internal/store/memory/memory.go:92-108 | Epoch and version never decrease while the record stays. |
| `Fencing.Refused` | internal/store/memory/memory.go:147-149 | A call that presents another epoch than the current one fails and changes nothing. |
| `Fencing.FencedForever` | internal/store/memory/memory.go:92-108 | Once epoch e was granted or reached by a deletion, no commit, renew, release or resume with a lower epoch ever succeeds again, also after the database was deleted and created anew. |
| `Fencing.NewEpochIsHigher` | internal/store/memory/memory.go:104-108 | A grant or deletion raises the epoch by exactly one. |
| `Fencing.PurgeRestartsEpochs` | internal/store/memory/memory.go:361-374 | A run in which a purge lets a fenced epoch commit again. |
| `Fencing.AppliedOnce` | internal/store/memory/memory.go:147-173 | Of two applied commits the later has the higher base version and no lower epoch, so each base version is applied at most once. |
| `Fencing.LastCommitProduced` | internal/store/memory/memory.go:150-173 | The last commit ID of a state belongs to the commit that produced the current version. |
| `Fencing.AcknowledgedWasApplied` | internal/store/memory/memory.go:150-173 | Every acknowledged version is base + 1 and was produced by an applied commit with that commit ID, however often requests repeat. |
| `Fencing.VersionFixesContent` | internal/store/memory/memory.go:112-185 | Two states of a record with the same version, the first one live, have the same page size, page count, commit ID, blocks and log. |
| `Fencing.FetchesReadOneSnapshot` | internal/protocol/connection.go:393-401 | Successful fetches of one version, with any other calls in between, all read the same snapshot. |
| `LastWrite.AppliedState` | internal/store/memory/memory.go:139-185 | An acknowledged commit on top of the current version writes every one of its blocks, the page count and the commit ID, and changes no other record. |
| `LastWrite.WrittenStays` | internal/store/memory/memory.go:112-185 | In every run, a block reads as the last commit that wrote it has written it, and as zeros once the file was cut off below it. |
| `LastWrite.FetchReadsLastWrite` | internal/store/memory/memory.go:112-185 | So a fetch returns for such a block exactly the data of the last commit that wrote it, whatever other clients did in between. |
| `ChangeLog.CompleteExactlyInWindow` | internal/store/memory/memory.go:188-218 | A change set is complete if and only if the database was not deleted since and at most 1024 commits were applied since. |
| `ChangeLog.CompleteListsEveryWrite` | internal/store/memory/memory.go:175-218 | A complete change set lists exactly the indexes written since, strictly ascending; an unlisted block reads as before if the file stayed longer than its index, and as zeros if it did not. |
| `ChangeLog.RegrownBlockUnlisted` | internal/store/memory/memory.go:165-169 | A run in which a complete change set does not list a block that was ones and is zeros. |
| `Claims.ClaimPurges` | internal/store/memory/memory.go:311-327 | A claim that replaces a key leaves no record of that key, changes no other, and reports exactly its live databases once each, in order. |
| `Claims.ClaimElse` | internal/store/memory/memory.go:311-327 | A claim of a free slot takes it and purges nothing; one of its holder changes nothing. |
| `Claims.LabelExactly` | internal/store/memory/memory.go:330-344 | Only the holder of a slot sets its label, which changes nothing else and is read back. |
| `Claims.SlotDeleted` | internal/store/memory/memory.go:347-374 | Nobody deletes another key's slot. Otherwise the slot and all records of the key are gone, and nothing else; exactly the live ones are reported, once each, in order. |
| `Claims.PurgedOnlyBy` | internal/store/memory/memory.go:269-374 | A record disappears only by such a claim, a slot deletion for its key, or the sweep of an unused database of a slot holder. |
| `Claims.ReplacedKeyIsLockedOut` | internal/store/memory/memory.go:59-61 | After the claim, every open as that owner with the replaced key fails, until the slot changes again. |
| `Claims.PurgedUntilCreated` | internal/store/memory/memory.go:361-374 | After the claim, every call on a database of the replaced key fails or deletes nothing, until an open creates it again, whatever happens to the slot. |
| `PostgresStore.PutEach` | internal/store/postgres/postgres.go:298-308 | The loop upserts a block in parts of 1024 bytes, the last one shorter. |
| `BlockParts.MigrateUpIsSplit` | migrations/00003_block_parts.sql:26-29 | The migration splits a block as the store does, if and only if the block is not empty. |
| `BlockParts.MigrateDownJoins` | migrations/00003_block_parts.sql:46-49 | Migrating down gives back every block that the store or the migration has split. |
| `Simulation.PutBlocksRel` | internal/store/postgres/postgres.go:293-318 | Upserting the parts of blocks of the page size keeps the part rows equal to the sparse file. |
| `Simulation.PutBlockRelExactly` | internal/store/postgres/postgres.go:293-318 | Upserting any data over a block does so if and only if the block had no more parts than the data. |
| `Simulation.TruncateRel` | internal/store/postgres/postgres.go:266-272 | Deleting the parts from an index on is truncating the file. |
| `Simulation.ReadRangeRel` | internal/store/postgres/postgres.go:206-224 | Copying the part rows into zeroed buffers reads the same blocks as the memory store. |
| `Simulation.PruneRel` | internal/store/postgres/postgres.go:322-344 | Pruning the log by version is trimming it by length. |
| `Simulation.OldestRel` | internal/store/postgres/postgres.go:366-374 | The oldest entry of the table is the first of the memory store's log. |
| `Simulation.OpenRel` | internal/store/postgres/postgres.go:64-177 | Open agrees in answer and state. |
| `Simulation.CommitRel` | internal/store/postgres/postgres.go:228-290 | Commit agrees in answer and state. |
| `Simulation.ChangesKeyRel` | internal/store/postgres/postgres.go:347-396 | Changes agrees in its answer. |
| `Simulation.DeleteUnusedRel` | internal/store/postgres/postgres.go:457-504 | Deleting row by row with the recheck, then the slots, agrees with the memory store's sweep. |
| `Simulation.ClaimRel` | internal/store/postgres/postgres.go:519-564 | ClaimSlot agrees in answer and state. |
| `Simulation.DeleteSlotRel` | internal/store/postgres/postgres.go:584-610 | DeleteSlot agrees in answer and state. |
| `Simulation.CallRel` | internal/store/postgres/postgres.go:64-610 | Every call gives the same answer in both stores and keeps the relation between tables and records. |
| `Simulation.PostgresRefinesMemory` | internal/store/postgres/postgres.go:64-610 | Every run of the PostgreSQL store is a run of the memory store with the same calls and the same answers, and at every point the tables represent the memory store's state. |
| `PostgresRuns.PgFencedForever` | internal/store/postgres/postgres.go:399-410 | Once an epoch was reached, no commit, renew, release or resume with a lower one succeeds or changes the tables, as long as the row stays. |
| `PostgresRuns.PgAppliedOnce` | internal/store/postgres/postgres.go:240-290 | Of two applied commits the later has the higher base version and no lower epoch. |
| `PostgresRuns.PgAcknowledgedWasApplied` | internal/store/postgres/postgres.go:240-290 | Every acknowledged version is base + 1, and a commit with that ID and base was applied and produced it. |
| `PostgresRuns.PgFetchesReadOneSnapshot` | internal/store/postgres/postgres.go:180-225 | Fetches of one version, with any calls in between, are all answered as the tables at the first one would answer them. |
| `PostgresRuns.PgCompleteExactlyInWindow` | internal/store/postgres/postgres.go:347-396 | A change set is complete if and only if the database was not deleted since and at most 1024 commits were applied since. |
| `PostgresRuns.PgCompleteListsEveryWrite` | internal/store/postgres/postgres.go:347-396 | A complete change set lists exactly the indexes that applied commits wrote since; an unlisted block is copied together as before if the file stayed longer than its index, and as zeros if not. |
| `PostgresRuns.PgFetchReadsLastWrite` | internal/store/postgres/postgres.go:180-290 | A fetch from the tables returns for a block exactly the data of the last commit that wrote it. |
| `PostgresRuns.HugePageCountDiffers` | internal/store/postgres/postgres.go:266-276 | Three calls after which the two stores read different blocks, with a page count of 2^63. |
| `Simulation.CommitBlocksAgreeBelowInt64` | internal/store/postgres/postgres.go:269-276 | If a block below 2^63 should survive a commit, the stores agree on the blocks if and only if the page count is below 2^63. |
| `Leftovers.DeletionLeavesNothing` | internal/store/postgres/postgres.go:630-644 | A deletion leaves no part of the database if and only if no block index was 2^63 or more. |
| `Leftovers.DeletedIsEmpty` | internal/store/postgres/postgres.go:630-644 | In a run within what the columns can carry, no part of a deleted database is left, at any point. |
| `Leftovers.DeletedDataReturns` | internal/store/postgres/postgres.go:631 | Six calls after which a fetch returns the data of a deleted database, although nothing was written since it was created again. |
| `Leftovers.CopyFails` | internal/store/postgres/postgres.go:220-223 | Five calls after which a part starts beyond its block, because the database was created again with smaller pages. |
| `PostgresStore.PutAll` | internal/store/postgres/postgres.go:293-318 | The loops over blocks and parts write what the specification writes. |
| `PostgresStore.CopyRows` | internal/store/postgres/postgres.go:215-224 | Copying rows in any order fills the buffers with the blocks of the range. |
| `PostgresStore.RecordTx` | internal/store/postgres/postgres.go:322-344 | Inserts the sorted indexes and prunes. |
| `PostgresStore.ApplyTx` | internal/store/postgres/postgres.go:263-284 | The statements of a commit's transaction in order. |
| `PostgresStore.SeenRows` | internal/store/postgres/postgres.go:375-389 | The union of the entries, ascending. |
| `PostgresStore.PgStorage.Open` | internal/store/postgres/postgres.go:64-136 | The method answers as the memory store does in a run with the same calls, and its tables then represent the memory store's state. |
| `PostgresStore.PgStorage.Fetch` | internal/store/postgres/postgres.go:180-225 | Answers as the memory store does. For calls that fit the columns every selected part starts inside its block; beyond, that is asked for, for this range only, and exactly then the copy does not fail. |
| `PostgresStore.PgStorage.Commit` | internal/store/postgres/postgres.go:228-290 | Answers as the memory store does, and the tables represent its state: loops, upserts, truncation, change entry and pruning. |
| `PostgresStore.Oldest` | internal/store/postgres/queries.sql:94-96 | The smallest version in the log of a database, 0 if there is none. |
| `PostgresStore.PgStorage.Changes` | internal/store/postgres/postgres.go:347-396 | Answers as the memory store does, with the oldest entry found in the table. |
| `PostgresStore.PgStorage.Renew` | internal/store/postgres/postgres.go:399-410 | Answers as the memory store does: the one conditional UPDATE and its diagnosis agree with the check on the record. |
| `PostgresStore.PgStorage.Release` | internal/store/postgres/postgres.go:413-423 | Answers as the memory store does, and the tables represent its state. |
| `PostgresStore.PgStorage.Delete` | internal/store/postgres/postgres.go:425-453 | Answers as the memory store does, and the tables represent its state, with blocks and log gone. |
| `PostgresStore.PgStorage.DeleteUnused` | internal/store/postgres/postgres.go:457-504 | Row by row with the recheck, it answers as the memory store does, and the tables represent its state. |
| `PostgresStore.PgStorage.KeysOf` | internal/store/postgres/postgres.go:617-626 | The live keys of a subject in order. |
| `PostgresStore.PgStorage.GetSlot` | internal/store/postgres/postgres.go:507-516 | Answers as the memory store does. |
| `PostgresStore.PgStorage.ClaimSlot` | internal/store/postgres/postgres.go:519-564 | Answers as the memory store does; the cascade of the purge leaves what the memory store leaves. |
| `PostgresStore.PgStorage.SetSlotLabel` | internal/store/postgres/postgres.go:567-581 | Answers as the memory store does, with both refusals. |
| `PostgresStore.PgStorage.DeleteSlot` | internal/store/postgres/postgres.go:584-610 | Answers as the memory store does; the cascade of the purge leaves what the memory store leaves. |
| `RowSweeps.NextDeletesOnlyUnused` | internal/store/postgres/postgres.go:466-498 | One row transaction of a sweep changes only its candidate, and deletes it if and only if the locked row is live and expired before the cutoff; exactly then it is listed. |
| `RowSweeps.OnlyOpenRevives` | internal/store/postgres/postgres.go:140-177 | Only an open with create brings a database to life. |
| `RowSweeps.DeletedOncePerIncarnation` | internal/store/postgres/postgres.go:457-504 | Between two deletions of a key, by any callers in any interleaving, an open has created it again. |
| `RowSweeps.ListedWasDeleted` | internal/store/postgres/postgres.go:457-504 | Every key a sweep lists was deleted by that sweep while live and expired. |
| `RowSweeps.SweepsShareNoIncarnation` | internal/store/postgres/postgres.go:457-504 | Two sweeps never list the same incarnation of a database, whether they overlap or not. |
| `RowSweeps.AloneIsAtomic` | internal/store/postgres/postgres.go:457-504 | A sweep that nobody interrupts leaves the tables and lists the keys that DeleteUnused as one atomic step does. |
| `Sweep.RunSweep` | server/unused.go:43-55 | The batch loop terminates and leaves no unused database; what it did is described by the list of deleted keys. |
| `Sweep.SweptAll` | server/unused.go:43-55 | Then exactly the databases expired before the cutoff were deleted, once each, every other one is as before, and no slot claimed before the cutoff belongs to a key without a database. |
| `CommitAssembly.NoPartialCommit` | internal/protocol/connection.go:454-529 | For every sequence of frames and every limit, the store is called if and only if the last frame completes the parts 0 to n of one header in consecutive frames whose uint64 sums stay within the limit, and the call carries exactly the concatenated blocks. |
| `CommitAssembly.RejectedExactly` | internal/protocol/connection.go:460-499 | Why a frame is not acknowledged, in terms of the frames alone: a commit ID of another length, parts that become too large, or no answer yet. |
| `CommitAssembly.LimitHolds` | internal/protocol/connection.go:484-493 | The true sizes of such parts are within the limit if and only if no addition wraps around. |
| `CommitAssembly.NeverWraps` | internal/protocol/connection.go:484-493 | None does, for every limit: a frame is read only up to a uint32 of bytes, and part numbers are uint32. |
| `CommitAssembly.CommitsWithinLimit` | internal/protocol/connection.go:454-529 | So for all frames that a connection reads and every limit, the store is called if and only if the last frame completes consecutive parts whose true sizes stay within the limit; the call carries exactly their blocks, and their total is at most the limit. |
| `CommitAssembly.FeedIsParts` | internal/protocol/connection.go:465-499 | What is pending after any frames is exactly the collected parts of the commit in progress, or nothing. |
| `Connection.OpenDB.Assemble` | internal/protocol/connection.go:460-499 | The handler's object keeps what the frames so far leave pending, and answers as the specification does. |
| `Connection.Collect` | internal/protocol/connection.go:484-488 | The loop appends the blocks and adds their sizes modulo 2^64. |
| `Connection.Conn.Commit` | internal/protocol/connection.go:454-520 | The handler adds exactly one commit to the store's history if the frames complete one, and otherwise none: with the key of the database, the header of part 0, the blocks of all parts and the server's time and TTL. The renewal time changes exactly if it is acknowledged; and if it is applied, every block of the frames reads back from the store. |
| `Connection.Conn.Open` | internal/protocol/connection.go:320-366 | A database is opened once per connection; the handler makes exactly one store call and remembers the lease epoch, page size and time of the answer. |
| `Connection.Conn.CloseDB` | internal/protocol/connection.go:548-561 | The database is forgotten exactly if the release succeeds. |
| `Connection.Conn.Ping` | internal/protocol/connection.go:531-546 | For every order of the map, exactly the leases that are due and still held are extended, in the store and on the connection, and nothing else changes. |
| `KeepAlive.CommitExtends` | internal/protocol/connection.go:511-516 | A commit extends the lease if and only if it is acknowledged. |
| `KeepAlive.RefusedCommitsExpire` | internal/protocol/connection.go:511-516 | A run in which a client commits every ping interval, always refused, and another instance gets the lease. |
| `KeepAlive.OpenStarts` | internal/store/memory/memory.go:92-108 | A granted or resumed open establishes the invariant of the lease. |
| `KeepAlive.StaysAlive` | internal/protocol/connection.go:75-77 | The lease of a client with pings or acknowledged commits at most a ping interval apart is held at every point of every run, with any calls of others in between that are not meant to end it. |
| `KeepAlive.PingWritesExactly` | internal/protocol/connection.go:531-546 | A ping writes to the store if and only if half the TTL has passed since the last renewal. |
| `KeepAlive.PingsWriteSeldom` | internal/protocol/connection.go:75-77 | So in every run at least half the TTL passes between two pings that write, however often the client pings. |
| `KeepAlive.OthersStayOut` | internal/store/memory/memory.go:100-103 | At every step the lease is active: an open of an instance with another ID and a deletion, without takeover, are refused and change nothing, and no sweep takes the database. |
| `KeepAlive.PingsSucceed` | internal/protocol/connection.go:531-546 | No ping of that client is refused. |
| `PostgresKeepAlive.PgOthersStayOut` | internal/store/postgres/postgres.go:109-112 | The same against the PostgreSQL store, from the open on: the row is active at every step, an open or deletion without takeover is refused and leaves the tables alone, and no sweep takes the database. |
| `Connection.RoundIsPing` | internal/protocol/connection.go:531-546 | The round of the handler's loop for a database is a ping of its client. |
| `Connection.RoundIsOther` | internal/protocol/connection.go:531-546 | To the clients of other databases it is a call that they allow. |
| `Connection.PingKeepsAlive` | internal/protocol/connection.go:531-546 | The whole loop keeps every lease of the connection alive that was alive and in time. |
| `Connection.IssuedIsFrame` | internal/protocol/connection.go:501-516 | The store call that completes a commit is a commit of the client, with the same renewal time. |
| `Connection.CommitKeepsAlive` | internal/protocol/connection.go:501-516 | It keeps a lease alive that was alive and in time. |
| `FetchFrames.CheckOrder` | internal/protocol/connection.go:382-391 | The loop finds the first range that starts before the computed end of the one before it. |
| `FetchFrames.CheckIsExact` | internal/protocol/connection.go:382-391 | Ranges are sorted and disjoint as true integers if and only if they pass the check and no end but the last wraps around. |
| `FetchFrames.WrappedEndPasses` | internal/protocol/connection.go:390 | Two overlapping ranges that pass the check. |
| `FetchFrames.SendFrames` | internal/protocol/connection.go:404-421 | The nested loops send the frames of the specification. |
| `FetchFrames.FramesRebuild` | internal/protocol/connection.go:404-421 | The frames rebuild exactly the requested blocks at their indexes. |
| `FetchFrames.FramesInRange` | internal/protocol/connection.go:404-421 | No frame spans two ranges or exceeds the number of blocks per frame, and exactly the final frame is marked as last. |
| `Connection.Conn.Fetch` | internal/protocol/connection.go:368-422 | The handler asks the store range by range and changes nothing: for the given ranges, or for the single range if none are given. Too many ranges, then the first overlapping range, then the first error of the store is reported, each exactly in its case; a database that is gone counts as fenced. Otherwise frames are sent from which the client has exactly the blocks in these ranges, with the data they have in the store. |
| `Connection.Conn.Changed` | internal/protocol/connection.go:425-447 | The handler makes one store call, and sends its answer, fenced if the database is gone, or an incomplete change set with the same versions exactly if 64 bytes and 10 per index exceed the frame limit. |
| `FetchFrames.SentDelivers` | internal/protocol/connection.go:404-421 | The frames of an answered fetch hold a block if and only if it lies in a range, with the data it has in the record. |
| `FetchFrames.AnswerIsOneSnapshot` | internal/protocol/connection.go:393-421 | In every run of the store, an answered fetch had sorted and disjoint ranges, and its frames hold the blocks of one snapshot. |
| `FrameSize.PagesFrameFits` | internal/protocol/connection.go:403-420 | Every Pages frame fits the limit for every valid configuration, page size and request ID, if the blocks are no larger than the recorded page size. |
| `FrameSize.FullFrameFits` | internal/protocol/connection.go:403 | A full frame fits if and only if the blocks are no larger than the recorded page size. |
| `FrameSize.VarintExactly` | internal/protocol/connection.go:449-452 | A varint takes one byte for every seven bits. |
| `FrameSize.SentExactly` | internal/protocol/connection.go:438-452 | What is sent is the change set itself, or, exactly if 64 bytes and 10 per index exceed the limit, an incomplete one. |
| `FrameSize.SentListsEveryWrite` | internal/protocol/connection.go:425-447 | In every run, a complete change set that a client gets lists exactly the indexes written since; other blocks read as before or, after a cut, as zeros. |
| `FrameSize.SentCompleteExactly` | internal/protocol/connection.go:425-447 | It is complete if and only if the database was not deleted since, at most 1024 commits were applied since, and the list is short enough for a frame. |
| `FrameSize.ChangesFrameFits` | internal/protocol/connection.go:438-452 | Every Changes frame fits the limit, for every change set. |
| `FrameSize.AnswerFitsExactly` | internal/protocol/connection.go:368-422 | In every run, all frames of an answered fetch fit if the snapshot's pages are no larger than the recorded page size, and exactly then if a range is long enough for a full frame. |
| `FrameSize.AnswerFits` | internal/protocol/connection.go:368-422 | So they fit if the database stays live from the open to the fetch. |
| `FrameSize.LargerPagesExceed` | internal/protocol/connection.go:403 | A run with a database created anew with larger pages, and a fetch through the old open whose frame exceeds the limit. |
| `Wire.EncodedParsed` | proto/sqlite_remote/v1/sqlite_remote.proto:199-228 | Fields written in the wire format are read back, for every list of fields. |
| `FrameCodec.PagesRoundTrip` | proto/sqlite_remote/v1/sqlite_remote.proto:199-206 | A client reads the request ID, first index, blocks and last mark of the Pages frame that was sent. |
| `FrameCodec.ChangesRoundTrip` | proto/sqlite_remote/v1/sqlite_remote.proto:219-228 | And the versions, packed indexes and completeness of a Changes frame. |
| `FrameCodec.PagesLength` | proto/sqlite_remote/v1/sqlite_remote.proto:199-206 | The size computed for a Pages frame is the length of its bytes. |
| `FrameCodec.ChangesLength` | proto/sqlite_remote/v1/sqlite_remote.proto:219-228 | The same for a Changes frame. |
| `FrameCodec.FramesFit` | internal/protocol/connection.go:403-452 | So the bytes of every frame fit the limit, blocks being no larger than the recorded page size. |
| `Holders.Table.Set` | internal/protocol/holders.go:32-41 | Takes the pending step of the protocol. A push goes out exactly if another connection held an older epoch, to a connection under the epoch of its own open; and if the database was not ahead of the store, the target is fenced. |
| `Holders.Table.Remove` | internal/protocol/holders.go:44-50 | Takes the step of closeDB or of the end of the connection: the connection has no entry for the database, every other entry stays, and nothing is pushed. |
| `Holders.Table.Purge` | internal/protocol/holders.go:54-65 | Takes the next purge of the protocol: no entry is left, and exactly an existing holder gets a push, under the epoch of its own open. |
| `Holders.Table.Revoke` | internal/protocol/holders.go:69-80 | Takes the pending step: no entry is left, a push goes out exactly if the entry was older, to a connection under the epoch of its own open; and if the database was not ahead of the store, the target is fenced. |
| `Holders.RunBounded` | internal/protocol/connection.go:335-357 | In every interleaving, as long as a database is not purged, its entry, its pending map steps and its pushes are not ahead of the epoch in the store. |
| `Holders.PushedIsFenced` | internal/protocol/holders.go:32-80 | In every interleaving, every push for a database that is never purged names a higher epoch than the target's own, and from then on the store refuses whatever the target asks under its own epoch. |
| `Holders.PushedToOwner` | internal/protocol/holders.go:32-80 | A push goes to a connection under the epoch of its own open, unless it has just closed the database. |
| `Holders.OpenIsEntered` | internal/protocol/connection.go:335-357 | In every interleaving, a connection that got a lease is entered as holder by its map step, no other entry changes, and exactly a holder with an older epoch is told the new one. |
| `Holders.ReleaseIsRemoved` | internal/protocol/connection.go:548-561 | One that released its lease is removed if it was still entered, and nobody is told. |
| `Holders.DeletionIsTold` | internal/protocol/connection.go:565-585 | A deletion removes the entry, and exactly a holder with an older epoch is told the new one. |
| `Holders.PurgeIsPending` | internal/protocol/connection.go:588-657 | A claim or a slot deletion leaves exactly the purged databases to be told. |
| `Holders.PurgeIsTold` | internal/protocol/holders.go:54-65 | They are told one after the other: each entry goes, and exactly an existing holder is told. |
| `Holders.PurgeMisleads` | internal/protocol/holders.go:69-80 | An interleaving with a purge in which a connection with a valid lease gets a push. |
| `CacheControl.CacheAge` | internal/token/keys.go:152-165 | The loop over the directives computes the specified age. |
| `CacheControl.AgeClamped` | internal/token/keys.go:152-165 | The age is always between ten seconds and five minutes, also when the product overflows. |
| `CacheControl.ClampIsNearest` | internal/token/keys.go:162 | The result is the clamped true age if and only if the product does not overflow, or its remainder modulo 2^64 lies between five minutes and 2^63 - 1. |
| `CacheControl.OverflowShortens` | internal/token/keys.go:162 | A max-age that becomes ten seconds. |
| `CacheControl.HeaderMeans` | internal/token/keys.go:152-165 | A header with a max-age directive as in section 5.2.2.1 of RFC 9111, in any case, with spaces around it and its number quoted or not, means its number of seconds, and five minutes if the number does not fit 63 bits, whatever directives of other names precede it and whatever follows. |
| `CacheControl.SignedParsed` | internal/token/keys.go:158 | Numbers with or without a sign are read as far as they fit an int64. |
| `CacheControl.NoMaxAge` | internal/token/keys.go:150-166 | Without a max-age directive it means five minutes. |
| `CacheControl.MalformedMeans` | internal/token/keys.go:158-161 | A max-age whose value is no number means five minutes, and a later one does not count. |
| `KeySet.Set.FindKey` | internal/token/keys.go:79-107 | The method acts as the state machine, with at most one fetch per call. |
| `KeySet.Set.Refresh` | internal/token/keys.go:110-119 | A failed fetch keeps the keys and records the attempt. |
| `KeySet.FetchesSpaced` | internal/token/keys.go:79-107 | In every run, fetches are at least ten seconds apart, and one for an unknown key comes at least a minute after the one before. |
| `KeySet.ReturnedKeyIsRecent` | internal/token/keys.go:79-119 | In every run, a returned key is in the JWKS of the last successful fetch, which is less than 65 minutes old. |
| `KeySet.ListedKeyIsFound` | internal/token/keys.go:79-107 | A key that the service lists is found, however old the cache is: ten seconds after the last attempt if the cache has expired, a minute after it if the cache does not have the key. |
| `KeySet.FreshNeedsNoFetch` | internal/token/keys.go:91-99 | A key of a cache that has not expired is found without a fetch. |
| `KeySet.KeysOutliveOutage` | internal/token/keys.go:109-119 | In every run, while the service is down, a call finds a key if and only if the last successful fetch had it, until an hour after that JWKS expired, and no longer. |
| `Login.Transcript` | internal/protocol/login.go:40-54 | The loop frames the six parts. |
| `Login.TranscriptLayout` | internal/protocol/login.go:40-54 | The signed bytes are label, server ID, nonce, instance ID, algorithm and key in this order, each after its length as four bytes, the most significant first. |
| `Login.DecodeFramed` | internal/protocol/login.go:40-54 | A decoder gives back the parts, if each is shorter than 2^32 bytes. |
| `Login.LoginInjective` | internal/protocol/login.go:33-54 | Two logins sign the same bytes only if they agree in server ID, nonce, instance ID, algorithm and key, however long the server ID is. |
| `Login.SubjectLayout` | internal/protocol/login.go:61-64 | The hash input of a subject is the transcript of label, algorithm and key alone. |
| `Login.SubjectInjective` | internal/protocol/login.go:61-64 | Different keys or algorithms have different hash inputs. |
| `Login.LoginIsNoSubject` | internal/protocol/login.go:61-64 | No hash input of a subject is the transcript of a login, however long the server ID is. |
| `Login.LongPartAmbiguous` | internal/protocol/login.go:50 | The bare framing of the length modulo 2^32: with nonces of any length, which no server makes, two different lists of inputs have the same transcript. |

## Left out

- WebSocket, HTTP, timeouts, shutdown, logging, metrics and panic recovery: input and output.
- Ed25519, SHA-256, base64, JWT checks, and the parsing of a JWKS: library calls.
- PostgreSQL's locks, isolation, durability and replication: each method is one atomic step. The exception is DeleteUnused, which is also modelled as interleaved transactions, one per row.
- PostgresStore.PgStorage.Changes: one atomic step, although the source reads the row, the oldest entry and the entries in three statements without a lock.
- PostgresStore.PgStorage.Fetch: not called where the copy would fail, because a failing copy ends the request with a panic, which is not modelled. `Leftovers.CopyFails` shows the case.
- PostgresStore.PgStorage.DeleteUnused: the rows that the UnusedDatabases statement selects are given to the method, in any of the orders the statement may choose.
- Simulation.PostgresRefinesMemory: for page counts below 2^63, sweep limits up to 2^30 and runs of at most 2^63 - 1 calls, because the columns are 64-bit signed. `HugePageCountDiffers` shows what happens beyond.
- Runs of the memory store have at most 2^64 - 1 calls, so that no counter wraps in a run; the single step wraps as in the source.
- KeepAlive.StaysAlive: all servers use one clock that does not go back.
- Holders.PushedIsFenced: the push is sent from a new goroutine and may arrive late, which does not weaken the statement; that it arrives is not claimed. `set` overwrites the entry unconditionally, so the map need not hold the newest epoch. For a database that was purged nothing is claimed, see `PurgeMisleads`.
- Connection.Conn.Open: the check of the database ID, and the step that enters the connection into the map of holders, which is modelled in `Holders`.
- Connection.Conn.CloseDB: the step that removes the connection from the map of holders, which is modelled in `Holders`.
- Slot labels are named `labelText`; order of database IDs is by code point, which is the order of their UTF-8 bytes.
- Owner and slot handling of the HTTP endpoint, origin patterns, error texts and error codes: settled by reading one branch.
- Configuration: only the bounds on frame size, ping interval and lease TTL are used.
- Login.LoginInjective: about bytes; strings are taken as their bytes.
