# Realize: a verified model of its synchronization core

Realize is a decentralized file syncer. This project models the parts of it whose correctness is hard to
see, and proves what they promise over all inputs, all interleavings and all runs:

- **Byte sets** (`Ranges.dfy`, `ByteRanges.dfy`): sets of byte offsets as sorted maps from boundary to Start or
  End, with union, intersection and subtraction as one depth-counting sweep over a merged stream.
- **Paths** (`Paths.dfy`): slash-separated paths, parents and ancestors.
- **The dirty log and the engine** (`DirtyLog.dfy`, `Engine.dfy`, `Streams.dfy`, `Retry.dfy`): three
  cross-indexed tables and a counter, job streams that scan in one transaction and delete in another, and the
  scheduling of retries.
- **The cache of remote files** (`Directory.dfy`, `Cache.dfy`, `CacheInvariant.dfy`, `CacheLog.dfy`,
  `Catchup.dfy`, `Holdings.dfy`, `Notices.dfy`, `Mirrors.dfy`, `Versions.dfy`, `BlobVersions.dfy`,
  `ArenaCache.dfy`): notifications of many peers folded into per-peer entries, one default entry, a directory
  tree and blob references; what each of them means, path by path; and that the cache mirrors what a peer has.
- **Blobs** (`Blobs.dfy`, `Handles.dfy`, `Displacing.dfy`, `Provenance.dfy`, `Accounting.dfy`, `ReusedIds.dfy`,
  `BlobFiles.dfy`, `LateOpens.dfy`): the blob table, the handles that read and write a blob, what becomes of
  them when blobs are dropped and their ids handed out again, and the files behind them.
- **Marks** (`Marks.dfy`, `MarkDirty.dfy`, `PathMarks.dfy`): marks inherited along paths, and what setting or
  clearing one dirties.
- **The mover** (`RangedHashes.dfy`, `Contents.dfy`, `Mover.dfy`): copy, hash, repair, check again, and only
  then finish the destination and delete the source.
- **The tracker and the reconnection protocol** (`Tracker.dfy`, `JobHistory.dfy`, `Reconnect.dfy`).

`Common.dfy`, `Tables.dfy` and `Database.dfy` hold what these share. `dafny verify dfyconfig.toml` checks the
whole project.

## How it is modelled

A table is a map, a write transaction one atomic step that changes nothing if it fails, and every method that
works on tables is proved equal to a function of their contents; the theorems are about these functions and
about runs of them. Concurrent parties are state machines over their steps: job streams, retries, a blob
handle, and callers that share a connection. Loops over a hash map, and scans whose order the caller does not
see, go in any order. Remote calls may fail at any time and may then have had any effect.

Assumed: the inode allocator hands out increasing inodes, peer names are not empty, entries made from
notifications carry no blob, the content hash is injective, and counters do not overflow. Byte offsets are
64-bit; where the code would overflow (the end of the last chunk of a range, a write beyond the greatest
offset) the model requires that it does not.

## Where the code does less than one might expect

Each of these is stated with its exact condition:

- Backoffs are stored in whole seconds. A job that fails with a delay below a second can get a backoff that a
  stream has passed already, and that stream never offers it again. The same happens if a stream wakes up for
  its round although a failure with a backoff at or before the round's was recorded since it looked: the end of
  its sleep and the news of the failure race. These are the only ways to miss a job (`Retry.RunExact`). Without
  the race, retrying is right exactly for delays of a second or more (`Retry.RetryIsExact`,
  `Retry.EmptyRetryIsExact`); with it, for no strategy that retries at all (`Retry.LateIsExact`).
- `move_file` can end in `FailedToSync` though no call fails and the file is not empty: if the destination has
  only the final form, of the same size, the repair goes into a new partial form and loses the chunks that
  were right. `Mover.MoveFile` gives the exact condition, `Mover.TwoChunksWontSync` an instance. Empty files
  always end that way.
- The bytes counted by `move_file` end at the source's size exactly if the destination was no longer.
- A `Catchup` report by the only holder of the shown version leaves a version shown that nobody holds
  (`Versions.AfterHeld`, `Versions.CatchupLosesVersion`).
- A file that is removed during a catchup leaves its mark. If it is added again before the completion, and
  another peer held it meanwhile, the completion drops it though the peer has it (`Mirrors.AfterMirrored`,
  `Mirrors.StaleMarkDrops`).
- What a handle takes to be available is not always stored or pending: ranges are forgotten if the thread that
  stores them dies, if the version is replaced or removed, or if a shorter file is moved into the blob
  (`Accounting.NextAccounted`; `ReusedIds.DeadThreadForgets` and `ReusedIds.ReplacingForgets` are runs).
- Ids of dropped blobs are handed out again. A handle that outlives its blob then records its ranges, or its
  content hash, for another version's blob, whose file has none of that data (`Provenance.NextGenuine`,
  `Provenance.NextVouched`; `ReusedIds.ReusedIdPollutes` and `ReusedIds.StaleConfirmMisleads` are runs).
- Of two opens that both find no blob, the one that comes second empties the file of the blob that the first
  has made, though ranges may be recorded for it or pending (`BlobFiles.NextBacked`, `BlobFiles.NextPending`;
  `LateOpens.LateOpenEmpties` and `LateOpens.LateOpenLosesPending` are runs).
- `take_dirty` leaves the failure of the entry it takes (`DirtyLog.ApplyKeeps`).
- `overlaps` says yes for a range that only touches a contained one (`ByteRangeSets.OverlapsExactly`).
- An end reported with an unfinished status puts the tracker's queue out of order
  (`Tracker.MisreportedQueued`), and so does a list in which a job comes again after its end and is not trimmed
  away (`Tracker.LoadedQueued`).

The documentation of `mark_dirty` says that marking a dirty path again does nothing; the code gives it a new
counter, and the model follows the code.

## Model

| member | source | states |
|---|---|---|
| `Ranges.Canonical` | crate/realize-types/src/byterange.rs:240-255 | Two well-formed boundary maps are equal exactly when they stand for the same bytes. |
| `Ranges.MergedStream` | crate/realize-types/src/byterange.rs:596-646 | Merging two sorted sets gives a sorted stream in which points at the same offset agree. |
| `Ranges.CrossingsAlternate` | crate/realize-types/src/byterange.rs:365-460 | The crossings of a level alternate between starts and ends, and are left open exactly if the stream ends at or above the level. |
| `Ranges.CrossingsDepth` | crate/realize-types/src/byterange.rs:365-460 | The bytes between the crossings of a level are exactly those whose depth is at least the level. |
| `Ranges.MergedDepth` | crate/realize-types/src/byterange.rs:596-646 | Dropping coincident opposite points does not change the depth of any byte in the merged stream. |
| `ByteRangeSets.SweepDepth` | crate/realize-types/src/byterange.rs:365-460 | The depth of every sweep stays in 0..2, although coincident points are dropped from the stream. |
| `ByteRangeSets.UnionIsExact` | crate/realize-types/src/byterange.rs:365-392 | The sweep at depth 1 gives a well-formed map of exactly the bytes of either set. |
| `ByteRangeSets.IntersectionIsExact` | crate/realize-types/src/byterange.rs:395-423 | The sweep at depth 2 gives a well-formed map of exactly the bytes of both sets. |
| `ByteRangeSets.SubtractionIsExact` | crate/realize-types/src/byterange.rs:426-460 | The sweep over the reversed set gives exactly the bytes of the first set that are not in the second, and ends at the depth it began with. |
| `ByteRangeSets.UnionSweep` | crate/realize-types/src/byterange.rs:369-392 | The loop of the union, which opens when the depth leaves 0 and closes when it comes back, lists exactly the crossings of depth 1 in the stream. |
| `ByteRangeSets.IntersectionSweep` | crate/realize-types/src/byterange.rs:400-423 | The loop of the intersection lists exactly the crossings of depth 2. |
| `ByteRangeSets.SubtractionSweep` | crate/realize-types/src/byterange.rs:429-459 | The loop of the subtraction, which starts at depth 1, lists exactly the crossings of depth 2. |
| `ByteRangeSets.ByteRanges.Add` | crate/realize-types/src/byterange.rs:340-362 | Adding in place gives a well-formed map of exactly the old bytes and those of the range. |
| `ByteRangeSets.ByteRanges.Extend` | crate/realize-types/src/byterange.rs:329-337 | Extending in place, range by range or by taking the other set over, gives the union. |
| `ByteRangeSets.ByteRanges.Union` | crate/realize-types/src/byterange.rs:365-392 | A new map of the bytes of either set; its empty-set shortcut gives the same map. |
| `ByteRangeSets.ByteRanges.Intersection` | crate/realize-types/src/byterange.rs:395-423 | A new map of the bytes of both sets, shortcut included. |
| `ByteRangeSets.ByteRanges.Subtraction` | crate/realize-types/src/byterange.rs:426-460 | A new map of the bytes of this set that are not in the other. |
| `ByteRangeSets.ByteRanges.Bytecount` | crate/realize-types/src/byterange.rs:324-326 | The count is the cardinality of the set. |
| `ByteRangeSets.ByteRanges.FromRanges` | crate/realize-types/src/byterange.rs:290-296 | The set of exactly the bytes in some range. |
| `ByteRangeSets.ByteRanges.Single` | crate/realize-types/src/byterange.rs:274-282 | The set of exactly the bytes from start to end; empty if there are none. |
| `ByteRangeSets.AddedIsExact` | crate/realize-types/src/byterange.rs:340-362 | What adding computes is well-formed and has exactly the bytes of the set and of the range. |
| `ByteRangeSets.AddOrderIrrelevant` | crate/realize-types/src/byterange.rs:290-305 | Lists of ranges with the same bytes give the same map, in whatever order and pieces they are added. |
| `ByteRangeSets.ExtendIsUnion` | crate/realize-types/src/byterange.rs:329-337 | Adding the ranges of a set one by one gives the same map as the union. |
| `ByteRangeSets.RangesRoundTrip` | crate/realize-storage/src/arena/types.rs:99-121 | Writing a set as its list of ranges and reading it back gives the same map. |
| `ByteRangeSets.SumIsCardinality` | crate/realize-types/src/byterange.rs:324-326 | The lengths of the ranges add up to the cardinality of the set. |
| `ByteRangeSets.RangesOfCovers` | crate/realize-types/src/byterange.rs:474-476 | The ranges of a set have exactly its bytes. |
| `ByteRangeSets.ChunksTile` | crate/realize-types/src/byterange.rs:133-160 | The chunks of a range are non-empty, of bounded size, in order and do not overlap, whenever no addition of the iterator overflows. |
| `ByteRangeSets.ChunksFitExactly` | crate/realize-types/src/byterange.rs:145-159 | No addition overflows exactly if the last chunk's start plus the chunk size fits in 64 bits. |
| `ByteRangeSets.ChunksSum` | crate/realize-types/src/byterange.rs:133-160 | Their lengths add up to that of the range. |
| `ByteRangeSets.ChunksCover` | crate/realize-types/src/byterange.rs:133-160 | They cover exactly the bytes of the range; with chunk size 0 there are none. |
| `ByteRangeSets.AllChunksTile` | crate/realize-types/src/byterange.rs:308-311 | The chunks of a set are in order, do not overlap, and their lengths add up to the byte count. |
| `ByteRangeSets.AllChunksCover` | crate/realize-types/src/byterange.rs:308-311 | The chunks of a set cover exactly its bytes. |
| `ByteRangeSets.ContainingRangeIsExact` | crate/realize-types/src/byterange.rs:485-493 | There is an answer exactly for contained offsets, and it is the maximal contained range around the offset. |
| `ByteRangeSets.ContainingRangeNoOverflow` | crate/realize-types/src/byterange.rs:485-493 | Whenever the offset plus one is computed, the offset is below the greatest u64. |
| `ByteRangeSets.OverlapsExactly` | crate/realize-types/src/byterange.rs:463-471 | The answer is yes exactly if a byte is shared or the range starts where a contained range ends; for an empty range also if it lies inside a contained range. |
| `ByteRangeSets.OverlapsAdjacent` | crate/realize-types/src/byterange.rs:463-471 | A set and a range that only touch, for which the answer is yes though no byte is shared. |
| `Paths.JoinSplit` | crate/realize-types/src/path.rs:84-94 | Joining the components of any string with slashes gives it back. |
| `Paths.SplitJoin` | crate/realize-types/src/path.rs:84-94 | Splitting joined slash-free components gives them back. |
| `Paths.SplitInjective` | crate/realize-types/src/path.rs:84-94 | Paths with the same components are the same. |
| `Paths.ParentIsValid` | crate/realize-types/src/path.rs:77-81 | The parent of a valid path is a valid path. |
| `Paths.ParentComponents` | crate/realize-types/src/path.rs:61-94 | The parent drops the last component, which is the name; there is none exactly for a single component. |
| `Paths.StartsWithIsPrefix` | crate/realize-types/src/path.rs:122-128 | One path starts with another exactly if the components do. |
| `Paths.ParentChainIsStartsWith` | crate/realize-types/src/path.rs:77-81 | The paths met when walking up the parents are exactly those the path starts with. |
| `DirtyLog.ApplyKeeps` | crate/realize-storage/src/arena/engine.rs:104-130 | Every operation keeps path table and log inverse to each other and bounded by the counter; failed jobs stay in the log except when exactly a failed one is popped. |
| `DirtyLog.RunFollows` | crate/realize-storage/src/arena/engine.rs:104-130 | In every run the counter only grows, no entry comes into the log below it, and an entry that stays in the log keeps its path. |
| `DirtyLog.RunKeeps` | crate/realize-storage/src/arena/engine.rs:243-310 | The same over every sequence of operations; the failed jobs are a part of the log as long as nothing is popped. |
| `DirtyLog.ApplyIsExact` | crate/realize-storage/src/arena/engine.rs:243-310 | Each of the six operations takes exactly the entries it is about out of all three tables and leaves every other row and the counter alone; a mark adds one entry with the next counter, and a failure that is not the last adds one to the count and records the backoff the strategy gives for it. Reports about counters that are not in the log change nothing. |
| `DirtyLog.DirtyIsHistory` | crate/realize-storage/src/arena/engine.rs:104-130 | In every run from empty tables a path is dirty with a counter exactly if it was marked with it and no later operation removed that mark: no newer mark, clearing, done report, last failure, deletion or taking. |
| `DirtyLog.FailuresAreCounted` | crate/realize-storage/src/arena/engine.rs:265-310 | In every run from empty tables the strategy is asked about a job with the number of failures reported for it while it was in the log. |
| `DirtyLog.PopLeavesFailure` | crate/realize-storage/src/arena/engine.rs:696-716 | Taking a dirty path whose job has failed leaves the failure behind. |
| `DirtyLog.CounterNeverReturns` | crate/realize-storage/src/arena/engine.rs:115-123 | A counter that has left the log never comes back in any continuation, and done or failed reports about it change nothing. |
| `DirtyLog.StaleReport` | crate/realize-storage/src/arena/engine.rs:243-310 | A report about a job whose path was marked again leaves the newer mark alone. |
| `Engine.DirtyPaths.MarkDirty` | crate/realize-storage/src/arena/engine.rs:104-130 | The insertions and removals, one after the other, make the specified log. |
| `Engine.DirtyPaths.ClearDirty` | crate/realize-storage/src/arena/engine.rs:677-690 | Clearing a path removes it from all tables. |
| `Engine.DirtyPaths.TakeDirty` | crate/realize-storage/src/arena/engine.rs:696-716 | The first entry with a valid path is taken, all before it go too, and no failure is cleared. |
| `Engine.TakeFirst` | crate/realize-storage/src/arena/engine.rs:699-715 | The popping loop stops at the least counter with a valid path, or with an empty log. |
| `Engine.Engine.JobDone` | crate/realize-storage/src/arena/engine.rs:243-252 | The removals make the specified log: the entry leaves all three tables, and nothing changes for an unknown counter. |
| `Engine.Engine.JobFailed` | crate/realize-storage/src/arena/engine.rs:265-310 | The failure is recorded, with its count and backoff, or the job dropped, as the strategy says. |
| `Engine.Engine.DeleteRange` | crate/realize-storage/src/arena/engine.rs:528-548 | The loop over the counters removes exactly the entries in the range from all tables. |
| `Engine.RemoveRange` | crate/realize-storage/src/arena/engine.rs:534-545 | The same loop on table contents. |
| `Engine.Engine.NextJob` | crate/realize-storage/src/arena/engine.rs:390-412 | The answer is a scan: the first entry that calls for a job with none before it, or the last entry; or the error of the first entry for which finding out fails. |
| `Engine.Scan` | crate/realize-storage/src/arena/engine.rs:397-411 | The scanning loop finds the first entry from the start on that calls for a job, or else the last entry, and stops with the error of an entry for which finding out fails. |
| `Streams.NextOk` | crate/realize-storage/src/arena/engine.rs:312-348 | Every step of every stream, and everything in between, keeps what each stream found true of its snapshot and its jobs out of reach of its deletions. |
| `Streams.InitialSystemOk` | crate/realize-storage/src/arena/engine.rs:312-316 | It holds of an empty cache without streams. |
| `Streams.SystemRunOk` | crate/realize-storage/src/arena/engine.rs:312-348 | It holds in every interleaving. |
| `Streams.SweepDeletesSeen` | crate/realize-storage/src/arena/engine.rs:318-334 | A stream deletes only entries that were in its snapshot, with the same path and without a job, and nothing marked since the snapshot. |
| `Streams.KeptNeverDeleted` | crate/realize-storage/src/arena/engine.rs:312-348 | In no run does a stream delete an entry that it scanned as a job, or as the last one of a scan. |
| `Streams.StreamsLookAtAll` | crate/realize-storage/src/arena/engine.rs:312-348 | In every run, an entry that is still in the log although a stream is past it was scanned by that stream as a job or as the last one of a scan without job. |
| `Streams.NextKeepsMark` | crate/realize-storage/src/arena/engine.rs:312-348 | A step removes a newer mark exactly if it is a report that settles it or a deletion by a stream that looked at it and saw no job. |
| `Streams.SettlesExactly` | crate/realize-storage/src/arena/engine.rs:243-310 | A report takes an entry out of the log exactly if it clears its path, says that its job is done, or that it has failed for the last time. |
| `Streams.MarkStays` | crate/realize-storage/src/arena/engine.rs:312-348 | In every interleaving, a mark stays until a report about it, or until a stream that looked at it after it was made saw no job. |
| `Streams.NoUpdateIsLost` | crate/realize-storage/src/arena/arena_cache.rs:378-400 | In every interleaving of cache updates, reports and streams, a path whose shown version changed stays dirty until that change was settled by a report or looked at afterwards by a stream that saw no job. |
| `Retry.EarliestBackoff` | crate/realize-storage/src/arena/engine.rs:577-602 | One pass over the failed jobs selects exactly those with the least backoff above the bound, or finds that there are none. |
| `Retry.RoundUnique` | crate/realize-storage/src/arena/engine.rs:577-602 | There is only one answer to that. |
| `Retry.StepExact` | crate/realize-storage/src/arena/engine.rs:350-385 | Every failed job at or below the bound was offered, not before its backoff, since it failed. For every strategy every event keeps this, except exactly two: a wake-up although a failure recorded since the scan, of a job that is not in the round, has its backoff at or before the round's, and a failure recorded with a backoff at or below the bound. |
| `Retry.RunExact` | crate/realize-storage/src/arena/engine.rs:350-385 | In every run, for every strategy, no job is missed up to some time exactly if there was no such event before. |
| `Retry.LongRunExact` | crate/realize-storage/src/arena/engine.rs:606-617 | In runs in which every delay is a second or more, no job is missed exactly if there was no such wake-up. |
| `Retry.NeverOfferedTwice` | crate/realize-storage/src/arena/engine.rs:365-374 | In every run, whatever the delays, no stream offers the same job twice at the same backoff. |
| `Retry.RetryIsExact` | crate/realize-storage/src/arena/types.rs:285-310 | The runs without such a wake-up miss no job exactly for the strategies whose delays are a second or more, since the table keeps whole seconds. |
| `Retry.EmptyRetryIsExact` | crate/realize-storage/src/arena/types.rs:285-310 | Starting with an empty log it is exactly the delays before the strategy first gives up that have to be a second or more. |
| `Retry.LateIsExact` | crate/realize-storage/src/arena/engine.rs:606-617 | If there may be such wake-ups, the runs from an empty log miss no job exactly for the strategies that never let a job be retried. |
| `Retry.LateStreamMissesJob` | crate/realize-storage/src/arena/engine.rs:606-617 | For every other strategy, a run from an empty log in which a stream wakes up like that and misses the job. |
| `Retry.ShortDelayMissesJob` | crate/realize-storage/src/arena/engine.rs:284-303 | A run, from any state with two jobs about to fail with a delay below a second, after which one of them is at the bound and was never offered. |
| `Directory.LookupInjective` | crate/realize-storage/src/arena/arena_cache.rs:926-944 | No two paths lead to the same inode. |
| `Directory.PrefixFound` | crate/realize-storage/src/arena/arena_cache.rs:926-944 | Everything above a path that is found is found, and is a directory. |
| `Directory.AddEntryGrows` | crate/realize-storage/src/arena/arena_cache.rs:959-982 | Adding a name makes that path found, with the new inode, and leaves every other lookup as it was. |
| `Directory.MkDirsIsExact` | crate/realize-storage/src/arena/arena_cache.rs:892-923 | Making directories fails exactly if a file is in the way; otherwise every path found before is found as before and only prefixes of the path are new. |
| `Directory.CreateFileIsExact` | crate/realize-storage/src/arena/arena_cache.rs:849-887 | Creating a file fails exactly if a file is on the way or a directory in its place; otherwise the path leads to it and all other lookups are unchanged. |
| `Directory.RemoveEntryShrinks` | crate/realize-storage/src/arena/arena_cache.rs:469-475 | After a file's name is dropped only its own path is not found any more. |
| `ArenaCache.MakeDirs` | crate/realize-storage/src/arena/arena_cache.rs:892-923 | The loop over the components makes the specified tree, or fails the same way. |
| `MarkDirty.FindPath` | crate/realize-storage/src/arena/arena_cache.rs:926-944 | The loop over the components gives the specified answer, errors included. |
| `MarkDirty.MarkFileDirty` | crate/realize-storage/src/arena/arena_cache.rs:629-640 | Marks the path shown for an inode, if there is one. |
| `CacheInvariant.SamePlace` | crate/realize-storage/src/arena/arena_cache.rs:403-505 | All entries of an inode have the same path and parent. |
| `CacheInvariant.SamePathSameInode` | crate/realize-storage/src/arena/arena_cache.rs:849-887 | Entries with the same path are of the same inode. |
| `CacheInvariant.LocateIsExact` | crate/realize-storage/src/arena/arena_cache.rs:849-887 | Finding or making a path keeps everything in place, leads to the inode, and leaves all other lookups as they were. |
| `CacheInvariant.UpdateInPlace` | crate/realize-storage/src/arena/arena_cache.rs:115-242 | Every notification keeps every entry under its path and parent, one parent for each inode, and the parents noted by catchup right. |
| `CacheInvariant.AfterInPlace` | crate/realize-storage/src/arena/arena_cache.rs:245-354 | So does every other transaction. |
| `CacheInvariant.UpdateRooted` | crate/realize-storage/src/arena/arena_cache.rs:849-982 | Every notification keeps everything in the directory table connected with the root. |
| `CacheInvariant.UpdateOwned` | crate/realize-storage/src/arena/arena_cache.rs:115-242 | Every notification keeps a default entry exactly where some peer has one, and every blob owned by exactly one default entry. |
| `CacheInvariant.AfterOwned` | crate/realize-storage/src/arena/arena_cache.rs:245-354 | So does opening, giving away, taking in and extending blobs. |
| `CacheInvariant.OpenOwned` | crate/realize-storage/src/arena/arena_cache.rs:245-275 | Opening a file gives its default entry a blob that no other entry has, and changes nothing but that entry's blob. |
| `CacheInvariant.MoveOutOwned` | crate/realize-storage/src/arena/arena_cache.rs:284-318 | A blob is given away only if the version shown has the hash and the blob was verified to have it; nothing but that entry's blob changes and no entry keeps it. |
| `CacheInvariant.MoveInOwned` | crate/realize-storage/src/arena/arena_cache.rs:324-354 | Data is taken in only for the version shown, whose blob then has exactly the bytes of the file and belongs to that entry alone; nothing else changes. |
| `Holdings.MovesInExactly` | crate/realize-storage/src/arena/arena_cache.rs:324-354 | Data is moved in exactly if the path shows the version with the hash; a path that does not exist is no error, one that shows nothing is. |
| `Holdings.MovesOutExactly` | crate/realize-storage/src/arena/arena_cache.rs:284-318 | A blob is moved out exactly if the path shows the version with the hash and the blob was verified to have it; that fails exactly if nothing is shown or the version with the hash has no blob. |
| `Holdings.OpensExactly` | crate/realize-storage/src/arena/arena_cache.rs:245-275 | A file can be opened exactly if it is shown; it keeps its blob, or gets one with a new id and nothing written. |
| `CacheLog.RunKeeps` | crate/realize-storage/src/arena/arena_cache.rs:115-354 | In every run of notifications, blob operations and log operations, every state is consistent. |
| `CacheLog.AfterLog` | crate/realize-storage/src/arena/arena_cache.rs:378-400 | Every transaction keeps path table and log inverse to each other, lets no counter come back, and keeps failed jobs in the log unless something is popped. |
| `CacheLog.RunRooted` | crate/realize-storage/src/arena/arena_cache.rs:849-982 | In every run, everything in the directory table stays connected with the root. |
| `CacheLog.ChangeIsMarked` | crate/realize-storage/src/arena/arena_cache.rs:378-400 | Every transaction that changes what is shown for an inode leaves its path dirty with a counter newer than any before. |
| `CacheLog.MarkedAllIsExact` | crate/realize-storage/src/arena/engine.rs:104-130 | Marking paths one after the other gives exactly these a newer counter. |
| `Catchup.SweepExact` | crate/realize-storage/src/arena/arena_cache.rs:544-572 | The sweep removes exactly the peer's entries that are still marked. |
| `Catchup.RmFileEntryExact` | crate/realize-storage/src/arena/arena_cache.rs:403-505 | Removing a peer's entry leaves all other peers' entries and all marks alone. |
| `Catchup.AfterLeaves` | crate/realize-storage/src/arena/arena_cache.rs:115-242 | Only a peer's own notifications touch its entries and its marks. |
| `Catchup.CatchupIsExact` | crate/realize-storage/src/arena/arena_cache.rs:200-225 | After a catchup, begun in any reachable state and interleaved with anything of other peers, the peer's entries are exactly the reported paths with the versions reported last, and the sweep touches no other peer. |
| `Catchup.MarksExactly` | crate/realize-storage/src/arena/arena_cache.rs:984-1010 | The start of a catchup marks every file of the peer on top of older marks, a report takes away the mark of its file, the completion all that are left; nothing else makes or removes a mark. |
| `Holdings.UpdateMeans` | crate/realize-storage/src/arena/arena_cache.rs:115-242 | What each accepted notification makes of every path. Add: the peer holds the notified version unless it held one already, and that is shown if nothing was. Replace: the peer holds the new version exactly if the old hash was that of the version shown, which then changes, or of its own. Catchup: the peer holds the version reported. Remove and Drop: the peer holds the file no longer exactly if it held the old hash. The completion: neither does it hold any path that is still marked. When a version goes, what is shown stays if another peer holds it; otherwise it is one of the newest versions of the others, or nothing. All other peers and all other paths are as before. |
| `Holdings.RmFileEntryMeans` | crate/realize-storage/src/arena/arena_cache.rs:403-505 | The same for the removal of one entry, which happens exactly if it is there and has the expected hash. |
| `Holdings.UnlinkFails` | crate/realize-storage/src/arena/arena_cache.rs:507-541 | Removing fails exactly if the path does not lead to a file, with the error of looking it up. |
| `Holdings.ReceiveFails` | crate/realize-storage/src/arena/arena_cache.rs:849-887 | A notified file is turned down exactly if another file is on the way to it or a directory at its path. |
| `Holdings.OthersMeanNothing` | crate/realize-storage/src/arena/arena_cache.rs:245-354 | Transactions on blobs and on the log never change what is held or shown under any path. |
| `Notices.UpdateMarksExactly` | crate/realize-storage/src/arena/arena_cache.rs:378-505 | A notification gives a path a new mark exactly if something is shown there for the first time, the version shown is replaced, or its last holder gives it up; the marks of all other paths stay as they are. |
| `Mirrors.AfterMirrored` | crate/realize-storage/src/arena/arena_cache.rs:115-242 | For a peer that tells the truth about its files, every transaction of anybody keeps what the cache holds of the peer equal to what the peer has, except for exactly two: a new file for whose name there is no room, and the completion of a catchup in which something the peer has is still marked. |
| `Mirrors.RunMirrored` | crate/realize-storage/src/arena/arena_cache.rs:115-242 | So in every run without these the cache holds exactly the files of the peer, whatever the others do. |
| `Mirrors.MirroredFromStart` | crate/realize-storage/src/arena/arena_cache.rs:115-242 | In such a run from an empty cache, what is held under each path is what the peer has there. |
| `Mirrors.OnlyAddFails` | crate/realize-storage/src/arena/arena_cache.rs:115-242 | Nothing that such a peer says is turned down, except for new files. |
| `Mirrors.AvailableWhereMirrored` | crate/realize-storage/src/arena/arena_cache.rs:802-842 | Then a file is said to be available from the peer exactly if the peer has the version shown. |
| `Mirrors.StaleMarkDrops` | crate/realize-storage/src/arena/arena_cache.rs:544-572 | A file that the peer removes and adds again while it catches up is dropped on completion if another peer held it meanwhile. |
| `Versions.AfterHeld` | crate/realize-storage/src/arena/arena_cache.rs:126-225 | Every transaction keeps the shown version held by some peer, except for exactly the catchup reports by which its only holder gives it up. |
| `Versions.RunHeld` | crate/realize-storage/src/arena/arena_cache.rs:126-225 | In runs without such a report the shown version is always held. |
| `Versions.OneFileAdded` | crate/realize-storage/src/arena/arena_cache.rs:126-151 | What the first notification of the first peer makes of an empty cache. |
| `Versions.AvailabilityIsExact` | crate/realize-storage/src/arena/arena_cache.rs:802-842 | The answer names exactly the peers that hold the shown version; there is one exactly if somebody does. |
| `Versions.CatchupLosesVersion` | crate/realize-storage/src/arena/arena_cache.rs:203-221 | For every two versions a run from the beginning: the only peer adds the first and reports the second in a catchup, after which the first is still shown and nobody is left to ask for it. |
| `ArenaCache.FindAvailability` | crate/realize-storage/src/arena/arena_cache.rs:802-842 | The loop over the entries gives that answer. |
| `BlobVersions.UpdateInherits` | crate/realize-storage/src/arena/arena_cache.rs:378-400 | No notification lets a version inherit a blob: an entry with a blob, and the blob, are as before. |
| `BlobVersions.BlobCameFrom` | crate/realize-storage/src/arena/arena_cache.rs:245-354 | An entry shown with a blob was so before the transaction, or the transaction made that blob, with an id that was not in use, for it. |
| `BlobVersions.BlobOfVersion` | crate/realize-storage/src/arena/arena_cache.rs:245-354 | In every run, a version shown with a blob has been shown with it ever since the blob was made for that version. |
| `Displacing.DisplacesExactly` | crate/realize-storage/src/arena/arena_cache.rs:378-505 | The blob of the version shown is dropped exactly if that version is replaced, or removed or not reported in a catchup by its last holder, or its verified blob moved away. |
| `Displacing.DropsBlobExactly` | crate/realize-storage/src/arena/blob.rs:130-143 | A blob leaves the table exactly if it belongs to such a version. |
| `ArenaCache.MostRecent` | crate/realize-storage/src/arena/arena_cache.rs:493-502 | The scan, in whatever order, ends with an entry than which none is newer. |
| `ArenaCache.AnyHolds` | crate/realize-storage/src/arena/arena_cache.rs:486-491 | The scan tells whether an entry has the hash. |
| `ArenaCache.ArenaCache.WriteDefaultFileEntry` | crate/realize-storage/src/arena/arena_cache.rs:378-400 | The old default's blob goes, the path is marked and the entry written. |
| `ArenaCache.ArenaCache.RemoveLastEntry` | crate/realize-storage/src/arena/arena_cache.rs:442-482 | With a peer's last entry go the default entry, its blob and the name, and the path is marked. |
| `ArenaCache.ArenaCache.ReceiveFile` | crate/realize-storage/src/arena/arena_cache.rs:126-221 | A file is received as its kind of notification asks, or nothing changes. |
| `ArenaCache.ArenaCache.RemoveFileEntry` | crate/realize-storage/src/arena/arena_cache.rs:403-505 | The removals make the specified tables, with the next default the one the scan came upon. |
| `ArenaCache.ArenaCache.CreateFileAt` | crate/realize-storage/src/arena/arena_cache.rs:849-887 | Finds or makes the name as specified; nothing changes on an error. |
| `ArenaCache.ArenaCache.UnlinkFile` | crate/realize-storage/src/arena/arena_cache.rs:507-541 | Removes the peer's entry or fails, as specified; nothing changes on an error. |
| `ArenaCache.ArenaCache.MarkPeerFiles` | crate/realize-storage/src/arena/arena_cache.rs:984-1000 | The loop over all entries marks the peer's, on top of marks left by an interrupted catchup. |
| `ArenaCache.ArenaCache.DeleteMarkedFiles` | crate/realize-storage/src/arena/arena_cache.rs:544-572 | The loop removes every marked entry together with its mark. |
| `ArenaCache.ArenaCache.HandleNotification` | crate/realize-storage/src/arena/arena_cache.rs:115-242 | Every kind of notification makes the specified tables, or fails and changes nothing. |
| `ArenaCache.ArenaCache.Open` | crate/realize-storage/src/arena/arena_cache.rs:245-275 | A handle on the blob of the shown version, made if need be, with what is stored as its available ranges. |
| `ArenaCache.ArenaCache.MoveBlob` | crate/realize-storage/src/arena/arena_cache.rs:284-318 | Gives the blob away under the specified conditions. |
| `ArenaCache.ArenaCache.MoveIntoBlob` | crate/realize-storage/src/arena/arena_cache.rs:324-354 | Declares the blob complete under the specified conditions. |
| `MarkDirty.MarkDirDirty` | crate/realize-storage/src/arena/arena_cache.rs:642-667 | Ends, and marks exactly the files shown below the directory, in whatever order. |
| `MarkDirty.MarkDirtyRecursive` | crate/realize-storage/src/arena/arena_cache.rs:609-640 | Marks exactly the cached files at or below the path in the sense of starts_with; fails exactly if a file is in the way. |
| `Marks.GetMarkIsNearest` | crate/realize-storage/src/arena/mark.rs:152-172 | Walking up finds the mark of the nearest marked path at or above. |
| `Marks.NearestExists` | crate/realize-storage/src/arena/mark.rs:152-172 | There is a nearest one if anything at or above is marked. |
| `Marks.GetMarkUnmarked` | crate/realize-storage/src/arena/mark.rs:152-172 | If nothing at or above is marked, the mark is the default. |
| `Marks.SetMarkEffect` | crate/realize-storage/src/arena/mark.rs:93-116 | Setting a mark changes only marks at or below it, and all of them from the same mark to the same mark. |
| `Marks.ClearMarkEffect` | crate/realize-storage/src/arena/mark.rs:69-91 | So does clearing one. |
| `PathMarks.FindMark` | crate/realize-storage/src/arena/mark.rs:152-172 | The loop up the parents finds the specified mark. |
| `PathMarks.RangeCoversPrefix` | crate/realize-storage/src/arena/index.rs:441-468 | The range searched in the index leaves out nothing at or below the path. |
| `PathMarks.MarkIndexDirty` | crate/realize-storage/src/arena/index.rs:651-686 | Marks exactly the indexed paths at or below the path, or all. |
| `PathMarks.PathMarks.MarkDirty` | crate/realize-storage/src/arena/mark.rs:130-144 | Marks exactly the indexed and cached paths at or below; fails exactly if a file is in the way. |
| `PathMarks.SetMarkDirties` | crate/realize-storage/src/arena/mark.rs:93-144 | If everything at or below is marked, every path whose effective mark is changed by setting one is dirty. |
| `PathMarks.ClearMarkDirties` | crate/realize-storage/src/arena/mark.rs:69-91 | The same for clearing one. |
| `PathMarks.PathMarks.SetMarkOrRoot` | crate/realize-storage/src/arena/mark.rs:93-116 | Every cached or indexed path whose effective mark changed is dirty with a newer counter, nothing outside is; fails, changing nothing, exactly if the mark has an effect and a file is in the way. |
| `PathMarks.PathMarks.ClearMark` | crate/realize-storage/src/arena/mark.rs:69-91 | The same for clearing a mark. |
| `Blobs.AvailabilityIsExact` | crate/realize-storage/src/arena/blob.rs:254-282 | Complete or verified exactly if all of the file is covered by the written areas, verified exactly if the file's own hash is recorded, missing exactly if there is no blob or none of a non-empty file is written, and partial, with the written areas, otherwise. |
| `Blobs.ReadableLengthIsExact` | crate/realize-storage/src/arena/blob.rs:457-467 | Only available bytes are read, as many as follow each other up to the number asked for; it fails exactly if the byte at the offset is missing. |
| `Blobs.HappenedOk` | crate/realize-storage/src/arena/blob.rs:430-451 | Every event keeps the handle's sets well-formed, and nothing but a write changes what is available. |
| `Blobs.AvailableIsWritten` | crate/realize-storage/src/arena/blob.rs:527-546 | In every run of writes, seeks and updates, what is available is what was at first and everything written since. |
| `Blobs.PositionIsHistory` | crate/realize-storage/src/arena/blob.rs:510-546 | In every run the position is where it was last put and as many bytes further as were written since. |
| `Blobs.PendingIsHistory` | crate/realize-storage/src/arena/blob.rs:430-451 | In every run exactly the bytes written since the pending ranges were last taken are pending. |
| `Blobs.HappenedAccounted` | crate/realize-storage/src/arena/blob.rs:430-451 | What is available to a handle stays stored or pending through every event, except exactly when the storing thread dies with ranges that are not stored yet, the blob is dropped, or it is overwritten with something shorter. |
| `Blobs.AlwaysAccounted` | crate/realize-storage/src/arena/blob.rs:430-451 | So it is in every run of events without such a one. |
| `Handles.NextOk` | crate/realize-storage/src/arena/blob.rs:343-360 | With any number of handles among all transactions, every step keeps the cache consistent and every handle whose blob is still there on the blob of the version it was opened for, which is the one shown. |
| `Handles.RunSound` | crate/realize-storage/src/arena/blob.rs:343-360 | So does every run. |
| `ReusedIds.ReachedSound` | crate/realize-storage/src/arena/blob.rs:343-360 | So all states that are reached from an empty cache, those of the runs below among them, are like that. |
| `Handles.StepEffect` | crate/realize-storage/src/arena/blob.rs:146-236 | What each step leaves in the table for an id: nothing new, an empty blob, the union with what a handle stored, a confirmed hash, or the range of a file that was moved in. |
| `Handles.CurrentIffKept` | crate/realize-storage/src/arena/blob.rs:239-252 | In every run, the blob under a handle's id is the one it was opened on exactly if that id was in the table all the time since. |
| `Provenance.StoreReaches` | crate/realize-storage/src/arena/blob.rs:146-166 | An update goes to the blob of the handle's own version if that is there, is refused if there is none under its id, and goes to another version's blob otherwise. |
| `Provenance.UpdateReachesOwn` | crate/realize-storage/src/arena/blob.rs:430-451 | In every run, an update goes to the blob made for the handle's version exactly if that blob was not dropped since the handle was opened; otherwise it is refused, unless the id was handed out again. |
| `Provenance.NextGenuine` | crate/realize-storage/src/arena/blob.rs:146-166 | Everything recorded for a blob was moved into it or written through a handle on it; every step keeps this, except exactly an update by a handle whose id was handed out again with ranges that the new blob does not have from elsewhere. |
| `Provenance.RunGenuine` | crate/realize-storage/src/arena/blob.rs:146-166 | In every run without such an update, that holds. |
| `Provenance.GenuineIsShown` | crate/realize-storage/src/arena/blob.rs:146-166 | In such a state, every byte recorded for the version shown was moved in, or written through a handle that was opened for that version. |
| `Provenance.NextVouched` | crate/realize-storage/src/arena/blob.rs:168-182 | A recorded content hash was confirmed through a handle on that blob; every step keeps this, except exactly a confirmation by a handle whose id was handed out again. |
| `Provenance.RunVouched` | crate/realize-storage/src/arena/blob.rs:411-418 | In every run without such a confirmation, that holds. |
| `Provenance.VouchedIsShown` | crate/realize-storage/src/arena/blob.rs:168-182 | A hash confirmed like this is that of the version shown. |
| `Accounting.StepIsEvent` | crate/realize-storage/src/arena/blob.rs:430-451 | Every step of the system is one of the events for every handle. |
| `Accounting.NextAccounted` | crate/realize-storage/src/arena/blob.rs:430-451 | With the transactions of all peers in between, what is available to a handle stays stored or pending, except exactly when its own thread dies, or the version whose blob has its id is taken away, or a shorter file is moved into that. |
| `Accounting.AlwaysAccounted` | crate/realize-storage/src/arena/blob.rs:430-451 | In every run, from when a handle was opened until such a step. |
| `ReusedIds.DeadThreadForgets` | crate/realize-storage/src/arena/blob.rs:437-446 | A run from the beginning in which a written byte is taken out of the pending ranges and never stored. |
| `ReusedIds.ReplacingForgets` | crate/realize-storage/src/arena/arena_cache.rs:378-400 | A run from the beginning in which a written and stored byte stays available to a handle although its version was replaced and nothing is stored. |
| `ReusedIds.ReusedIdPollutes` | crate/realize-storage/src/arena/blob.rs:239-252 | A run from the beginning in which a handle on the first version records a byte for the second, through whose handle nothing was written. |
| `ReusedIds.StaleConfirmMisleads` | crate/realize-storage/src/arena/blob.rs:411-418 | A run from the beginning in which a file is written and stored as a whole, its version is replaced and comes back, and the handle on its first blob makes the second, empty one count as verified. |
| `BlobFiles.NextBacked` | crate/realize-storage/src/arena/blob.rs:101-122 | Everything recorded for a blob is in its file. With opens that find a blob where there was none when they looked, every step keeps this, except exactly such an open on a blob for which something is recorded, and an update with ranges that the file of the blob does not have. |
| `BlobFiles.RunBackedExact` | crate/realize-storage/src/arena/blob.rs:101-122 | In every run, that holds up to some time exactly if there was no such step before. |
| `BlobFiles.NextOnOwn` | crate/realize-storage/src/arena/blob.rs:130-143 | A handle stays on the file of its blob exactly until the blob is dropped or another file is moved there. |
| `BlobFiles.NextPending` | crate/realize-storage/src/arena/blob.rs:527-546 | What waits to be stored is in the file that the handle has open, except exactly after a late open has emptied that. |
| `BlobFiles.RunBacked` | crate/realize-storage/src/arena/blob.rs:430-451 | So the files have all that is recorded in every run in which no late open finds anything recorded or pending, and no handle stores anything while its file is not that of its blob. |
| `LateOpens.LateOpenEmpties` | crate/realize-storage/src/arena/arena_cache.rs:245-275 | A run from the beginning in which a byte is written and stored, and a late open empties the file, although no handle wrote to another blob than its own. |
| `LateOpens.LateOpenLosesPending` | crate/realize-storage/src/arena/blob.rs:70-98 | A run from the beginning in which the late open comes when nothing is recorded yet, and the byte is recorded after its file was emptied. |
| `Blobs.Blobstore.CreateEntry` | crate/realize-storage/src/arena/blob.rs:239-252 | The new id is one after the last key, and not taken. |
| `Blobs.NextId` | crate/realize-storage/src/arena/blob.rs:239-252 | The scan for the last key gives the id that follows it, which is not taken. |
| `Blobs.Blobstore.MarkVerified` | crate/realize-storage/src/arena/blob.rs:168-182 | Records the hash, or changes nothing if the blob is gone. |
| `Blobs.Blobstore.Extend` | crate/realize-storage/src/arena/blob.rs:146-166 | The stored areas become the union, or nothing changes if the blob is gone. |
| `Blobs.Blob.PollWrite` | crate/realize-storage/src/arena/blob.rs:527-546 | A write moves the position and adds its range to the available and to the pending ones. |
| `Blobs.Blob.Send` | crate/realize-storage/src/arena/blob.rs:430-446 | The pending ranges are taken out, and stored if the background thread gets to it and the blob is there. |
| `Blobs.Blob.Readable` | crate/realize-storage/src/arena/blob.rs:457-467 | The specified length, through the range that contains the offset. |
| `Blobs.Blob.UpdateDb` | crate/realize-storage/src/arena/blob.rs:430-451 | Each outcome has the specified effect; refused ranges stay pending. |
| `RangedHashes.RangedHash.Add` | crate/realize-core/src/rpc/realstore.rs:194-197 | The list stays sorted by range, with the new hash after equal ranges. |
| `RangedHashes.InsertedElements` | crate/realize-core/src/rpc/realstore.rs:194-197 | Adding loses and duplicates nothing. |
| `RangedHashes.InsertedInOrder` | crate/realize-core/src/rpc/realstore.rs:194-197 | Adding keeps the list sorted by range. |
| `RangedHashes.SameEntries` | crate/realize-core/src/rpc/realstore.rs:194-197 | Hashes with different starts come out the same in whatever order they are added. |
| `RangedHashes.RangedHash.IsComplete` | crate/realize-core/src/rpc/realstore.rs:219-232 | Yes exactly for a non-empty list whose ranges chain up from 0 to the file size. |
| `RangedHashes.Compare` | crate/realize-core/src/rpc/realstore.rs:237-258 | Both answers name only aligned ranges with equal or different hashes; all of them if starts differ within each list. |
| `RangedHashes.RangedHash.Diff` | crate/realize-core/src/rpc/realstore.rs:237-264 | The same as sets of bytes. |
| `Contents.OverlayShapes` | crate/realize-storage/src/arena/store.rs:590-597 | Writing at an offset changes exactly these bytes and fills a gap with zeros. |
| `Contents.WrittenShapes` | crate/realize-core/src/consensus/movedirs.rs:522-569 | After writing parts of the source one by one, these have the source's bytes, all else is as before, and gaps are zeros. |
| `Contents.FileChunksPartition` | crate/realize-core/src/consensus/movedirs.rs:672-700 | The chunks that are hashed divide the file up. |
| `Contents.SameBytesInChunk` | crate/realize-storage/src/arena/store.rs:529-561 | The hashes of a chunk agree exactly if the second file has all of it and the same bytes there. |
| `Contents.AllSameIsEqual` | crate/realize-storage/src/arena/store.rs:529-561 | All chunk hashes of two files agree exactly if the files are equal, provided the second is no longer. |
| `Contents.RepairedInPlace` | crate/realize-core/src/consensus/movedirs.rs:406-441 | Writing the chunks that differed over the file that was checked makes all hashes agree. |
| `Contents.RepairedAnew` | crate/realize-core/src/consensus/movedirs.rs:406-441 | Written to a new file, a chunk that agreed before does so again exactly if it is all zeros and a later chunk differed. |
| `Mover.Ends.Send` | crate/realize-storage/src/arena/store.rs:122-136 | Writes to the partial form, made if missing; any effect on failure. |
| `Mover.Ends.ApplyDelta` | crate/realize-storage/src/arena/store.rs:268-295 | Success means the range has the content of the given hash; a mismatch leaves the content alone but makes the partial form. |
| `Mover.Ends.Truncate` | crate/realize-storage/src/arena/store.rs:298-311 | Cuts the partial form, made if missing. |
| `Mover.Ends.HashDestination` | crate/realize-storage/src/arena/store.rs:183-194 | The hash of the partial form if there is one, else of the final form; none past its end. |
| `Mover.Ends.Finish` | crate/realize-storage/src/arena/store.rs:158-180 | The partial form, if there is one, becomes the final form. |
| `Mover.Ends.Read` | crate/realize-storage/src/arena/store.rs:141-155 | The bytes of the range, with zeros past the end. |
| `Mover.Ends.DeleteSource` | crate/realize-storage/src/arena/store.rs:197-215 | What the destination holds when the deletion is issued is on record, even if the call fails. |
| `Mover.CopyFileRange` | crate/realize-core/src/consensus/movedirs.rs:522-569 | The loop over the chunks writes exactly the ranges of the source and counts each byte once. |
| `Mover.RsyncChunk` | crate/realize-core/src/consensus/movedirs.rs:472-517 | A chunk is patched and counted, or left alone for the fallback. |
| `Mover.RsyncFileRange` | crate/realize-core/src/consensus/movedirs.rs:451-520 | Every byte of the ranges is patched or left to copy, never both counted; what is left is exactly what was refused. |
| `Mover.HashFile` | crate/realize-core/src/consensus/movedirs.rs:672-700 | The list of chunk hashes, whatever order the answers come in. |
| `Mover.CheckHashesAndDelete` | crate/realize-core/src/consensus/movedirs.rs:716-762 | Finish and delete are issued only if all hashes agree on a complete list, and a match means that both succeeded; otherwise nothing changes and exactly the agreeing chunks are returned. |
| `Mover.CopyMissing` | crate/realize-core/src/consensus/movedirs.rs:345-391 | After copying and truncating, the destination is no longer than the source, and the bytes counted have grown by what was missing. |
| `Mover.Repair` | crate/realize-core/src/consensus/movedirs.rs:406-441 | After patching and copying, exactly the chunks that differed were written, and the bytes counted are back to what they were. |
| `Mover.NotCorrect` | crate/realize-core/src/consensus/movedirs.rs:406-408 | What is repaired are exactly the bytes of chunks whose hashes differ. |
| `Mover.RepairAndCheck` | crate/realize-core/src/consensus/movedirs.rs:406-448 | Repair and second check succeed exactly unless the move is bound to fail, and only then finish and delete. |
| `Mover.SecondCheck` | crate/realize-core/src/consensus/movedirs.rs:443-448 | After the repair all hashes agree exactly unless the move is bound to fail. |
| `Mover.TwoChunksWontSync` | crate/realize-core/src/consensus/movedirs.rs:406-448 | A file of two chunks and a final form that is right in the first chunk only, for which the move fails though no call does. |
| `Mover.MoveFile` | crate/realize-core/src/consensus/movedirs.rs:329-449 | In every run, whatever fails, the source is deleted only right after a successful finish with equal content in the final form. Success means that this happened; if no call fails, the move succeeds exactly outside the stated condition, and the count, which is never negative, ends at the greater of both sizes. On FailedToSync nothing was finished or deleted. |
| `Tracker.UpdatedQueued` | crate/realize-core/src/consensus/tracker.rs:124-195 | Every update keeps the queue a list of exactly the finished jobs, each once, and the number of jobs within bounds. |
| `Tracker.RunQueued` | crate/realize-core/src/consensus/tracker.rs:124-195 | The same after any notifications whose ends carry a finished status. |
| `Tracker.ActiveLength` | crate/realize-core/src/consensus/tracker.rs:95-98 | The difference of the sizes is the number of active jobs, never negative, and bounds the number of jobs with the limit. |
| `Tracker.TrimmedEvicts` | crate/realize-core/src/consensus/tracker.rs:197-205 | Trimming drops the oldest finished jobs, in order, and no more than needed. |
| `Tracker.TrimmedQueued` | crate/realize-core/src/consensus/tracker.rs:197-205 | Trimming keeps the queue right, brings the number of jobs within bounds and leaves every active job as it is. |
| `Tracker.UpdatedKeepsActive` | crate/realize-core/src/consensus/tracker.rs:124-195 | An active job is dropped by nothing but its own end. |
| `Tracker.UpdatedForward` | crate/realize-core/src/consensus/tracker.rs:124-195 | While a job is tracked its progress and index never go back, and a finished job does not change. |
| `Tracker.RepeatIsRejected` | crate/realize-core/src/consensus/tracker.rs:120-195 | Repeating any notification at once is rejected and changes nothing. |
| `JobHistory.InfoIsHistory` | crate/realize-core/src/consensus/tracker.rs:124-195 | After any notifications, in any order and with repetitions, all that is known of a job is what was said last by an accepted notification: the job by New, the status by New, Start or Finish, the action by the last update of it and none after an end, the bytes by the last count since the last action, the index by the last update. |
| `JobHistory.AcceptsByHistory` | crate/realize-core/src/consensus/tracker.rs:124-195 | A notification is accepted exactly if: a new job is not known, a started one is pending, an ended one is pending or running, an updated one is running and its last index lower. |
| `JobHistory.AcceptsExactlyDue` | crate/realize-core/src/consensus/tracker.rs:120-195 | If the jobs were reported in order, exactly what is due next for its job is accepted, however many jobs there are and however low the limit; beside that only a job that is over and was dropped can be announced again. |
| `JobHistory.QueueIsHistory` | crate/realize-core/src/consensus/tracker.rs:197-205 | The queue holds the last accepted ends in their order; what was dropped ended first. |
| `JobHistory.KeptExactly` | crate/realize-core/src/consensus/tracker.rs:124-205 | If the jobs were reported in order, the tracker has exactly those that are not over and the last that are, and drops all of the latter before it exceeds the limit. |
| `Tracker.MisreportedQueued` | crate/realize-core/src/consensus/tracker.rs:155-165 | An end with an unfinished status breaks the queue exactly if no more jobs are active than the limit. |
| `Tracker.LoadedQueued` | crate/realize-core/src/consensus/tracker.rs:69-83 | Starting over from a list leaves a right queue exactly if every end of a job that has another end before it or is listed again after it is trimmed away: without the jobs that ended before it there are still more jobs than the limit. |
| `Tracker.LoadedInLimit` | crate/realize-core/src/consensus/tracker.rs:69-83 | If nothing is trimmed, that is exactly if no job is listed again after its end; and this is always enough. |
| `Tracker.JobInfoTracker.Init` | crate/realize-core/src/consensus/tracker.rs:69-83 | The loop gives the specified state. |
| `Tracker.JobInfoTracker.Trim` | crate/realize-core/src/consensus/tracker.rs:197-205 | The loop gives the specified state. |
| `Tracker.JobInfoTracker.Update` | crate/realize-core/src/consensus/tracker.rs:124-195 | Accepts exactly the notifications that are news, with the specified new state. |
| `Tracker.JobInfoTracker.ActiveLen` | crate/realize-core/src/consensus/tracker.rs:95-98 | The difference of the two sizes, which goes below zero exactly if the queue is longer than the table; for a right queue it is the number of active jobs. |
| `Reconnect.TryReconnect` | crate/realize-network/src/reconnect.rs:88-110 | The loop ends with the first attempt that does not fail in time: connected if it works, out of time if it would begin too late, given up if there is none. The strategy may be endless. |
| `Reconnect.OutcomeUnique` | crate/realize-network/src/reconnect.rs:88-110 | There is only one such outcome. |
| `Reconnect.AlwaysEnds` | crate/realize-network/src/reconnect.rs:88-110 | There always is one if the strategy waits before each attempt. |
| `Reconnect.NextKeeps` | crate/realize-network/src/reconnect.rs:136-204 | Every step of every caller keeps the lock exclusive, what each caller knows of the connection true, and the count one more than the successes. |
| `Reconnect.RunKeeps` | crate/realize-network/src/reconnect.rs:136-204 | So does every interleaving. |
| `Reconnect.ReplacedOnce` | crate/realize-network/src/reconnect.rs:181-201 | With any number of callers, no connection is replaced twice. |
| `Reconnect.OnlyConfirmedReplaced` | crate/realize-network/src/reconnect.rs:168-201 | What is replaced is the current connection, confirmed, and used by nobody. |
| `Reconnect.RunForward` | crate/realize-network/src/reconnect.rs:39-59 | In every run, confirmed stays confirmed and given up stays given up. |
| `Reconnect.RunFewRetries` | crate/realize-network/src/reconnect.rs:207-228 | In every run, no caller retries a late connection more than the limit in a row. |
| `Reconnect.CallsExactly` | crate/realize-network/src/reconnect.rs:136-170 | A caller calls on the current connection, as confirmed as it is, and returns an error instead exactly if it was given up. |
| `Reconnect.RespondsExactly` | crate/realize-network/src/reconnect.rs:145-179 | In every run a late response is tried again exactly if there is time left and fewer than ten late ones came before in a row; success confirms an unconfirmed connection; a confirmed one is to be replaced exactly after a shutdown or a channel error; every other response is returned. |
| `Reconnect.ReplacedWhenDead` | crate/realize-network/src/reconnect.rs:168-201 | Whoever replaces a connection found that very connection broken in its last call, when it was the current one and confirmed, and did nothing since but wait for the lock. |
| `Reconnect.DeadIsDealtWith` | crate/realize-network/src/reconnect.rs:168-201 | A caller that found a confirmed connection broken waits to replace it or does so, goes on after it was replaced or given up, or runs out of time; it never returns that response. |
| `Reconnect.WhyAnswered` | crate/realize-network/src/reconnect.rs:136-204 | Whatever a caller returns is what its last call came to, neither to be tried again nor that of a broken confirmed connection; or that the connection was given up; or that replacing it took too long. |
| `Reconnect.ConfirmedBySuccess` | crate/realize-network/src/reconnect.rs:147-167 | No connection counts as confirmed before a call on the first one has succeeded. |
| `Reconnect.RunSuccessConfirms` | crate/realize-network/src/reconnect.rs:155-166 | Once a caller has returned with success, the connection is confirmed or given up. |
| `Reconnect.RetriesAreTimeouts` | crate/realize-network/src/reconnect.rs:207-228 | The count of retries is the number of late responses in a row. |

## Left out

- Streams.Jobs: which job a path calls for is an arbitrary function of the tables, because the streams promise the same for all.
- ByteRangeSets.ChunksTile: requires that no addition of the iterator overflows, and so do the other lemmas about chunks; what it yields after an overflow is not modelled.
- Mover.CopyFileRange: files whose size is within one chunk of the greatest offset are not covered, and so it is for the other loops over the chunks of a file.
- Retry.CanHappen: a failure has its backoff from the time at which its transaction commits.
- Mover.Ends: signatures and deltas are not looked into; a delta that is applied gives the expected hash or is refused.
- Mover.MoveFile: the destination's size is the one at the start of the move, as listed, and the source does not change meanwhile.
- Cache.Update: last-seen notification indexes, peer identities and directory times are not modelled; nothing else reads them.
- Directory.Tree: inodes are handed out one after the other; the ranges they come from are not modelled.
- Blobs.Blob: which bytes a blob's file holds is not modelled, only which ranges were written to it; flushing and the size to which an open cuts the file are not either.
- BlobFiles.Next: a file is moved into or out of a blob in the step that changes the tables, and not after it.
- The local index beyond the paths in it, the watcher and the notifier.
- Networking, RPC plumbing, rate limits and TLS.
- The download state machine, progress throttling, metrics, the command line and NFS attributes.
- Selection of the files to move, which only pairs the two listings.
