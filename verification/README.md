# Verified model of ewf-image

A Dafny model of the library that reads and writes EWF (Expert Witness Format) forensic images.
It follows the code of the library function by function where data is changed step by step
(classes, loops, in-place buffers) and as functions where it is computed, and proves what the parts
promise together:

- **Publication** (`Publication*.dfy`, `Publisher.dfy`): replacing one or two segment sets through
  journals is all or nothing over every run of durable steps, I/O errors and crashes, including
  crashes inside any number of recoveries; without faults it succeeds exactly when the staged files,
  the destinations and the plan read off beforehand allow it.
- **Write and read back** (`ChunkWriter.dfy`, `WrittenMedia.dfy`, `ChunkCodec.dfy`, `Ewf1*.dfy`,
  `Ewf2*.dfy`, `ChunkIndex.dfy`, `MediaReads.dfy`, `ImageRoundTrip.dfy`): the last byte written at each
  position by any run of writes and seeks, encoded, grouped, laid out and linked as EWF1 or EWF2
  segments, comes back from the reader's scan, tables, index and `read_at`. Layouts that only the
  reader knows have their own theorems (`Ewf1Regions.dfy`, `Ewf2Leading.dfy`).
- **Splitting** (`SegmentSplit.dfy`): segments stay within the configured size.
- **Caches and threads** (`SegmentPool*.dfy`, `ChunkFlights.dfy`, `TablePages.dfy`): handle pool,
  single-flight chunk reads and table pages agree with reading directly, in every interleaving.
- **Printers and parsers** (`Text.dfy`, `Catalog*.dfy`, `Sessions.dfy`): the logical catalog and the
  session and track table come back from their bytes.
- **Logical files, scans, dates** (`LogicalReads.dfy`, `MediaScan.dfy`, `Calendar.dfy`).

Compression libraries are a parameter with the law that expanding undoes compressing; Adler-32
(section 8.2 of RFC 1950), pattern filling, raw chunks, tables, descriptors, UTF-16 and numbers are
concrete bytes. Integers are unbounded; each bound of the code (`u32`, `u64`, 31-bit offsets) is an
explicit comparison.

## What does not hold

Ten properties one might expect are false of the code. Each is stated with the exact condition
under which it holds, and with an input on which it fails:

1. *A committed publication leaves every destination new.* Exactly when destinations that coincide
   across the two sets want the same contents
   (`PublicationTheorems.InstalledIsAllNewExactlyWithoutClobber`). With `a.E01` on disk, the first names
   `a.E01` and `a.E02` in one directory pass the overlap check, which compares first paths only, and
   the secondary's stale list then removes `a.E01` (`PublicationTheorems.OverlappingSetsClobber`).
2. *Recovery always succeeds.* It refuses exactly two disk states: an identity file cut short, and a
   `ready` marker without a decision while a journal is already gone
   (`PublicationTheorems.RecoveryIsRefusedExactlyWhen`). Both are reached: by a crash during the identity
   write, and by a failed directory sync after `ready` whose clean-up is interrupted
   (`PublicationRuns.TornIdentityRunIsRefused`, `PublicationRuns.UnsyncedReadyRunIsRefused`); nothing else
   leads there (`PublicationTheorems.RecoveryIsNeverRefused`). In both the output is all-old.
3. *A sleeping reader of the handle pool is always woken.* Exactly when no attempt of a woken waiter
   returns an error while it is the last hope: another thread sleeps, and no other thread reads,
   releases or is woken (`SegmentPoolThreads.SleepersAreNeverForgotten`). The error return notifies
   nobody (`SegmentPoolThreads.FailedOpenForgetsSleeper`).
4. *Remembered encoded chunks agree with the spool.* `copy_media_values_from_info` changes the chunk
   size without forgetting them. Every writer that remembers chunks of given sizes stays right exactly
   when each of them meets `ChunkWriter.SurvivesResize` (`ChunkWriter.CopyKeepsCoherentExactlyWhen`,
   `ChunkWriter.CopiedGeometryEmitsWrongBytes`).
5. *An EWF1 image reads back.* Exactly the chunks read back whose trailer is safe: a raw chunk that a
   caller handed over without a checksum, four bytes longer than its data, is stored as it is and
   then taken to end in a checksum (`Ewf1ReadBack.EveryChunkReadsBack`,
   `Ewf1ReadBack.LateTrailerIsRemembered`).
6. *Short names round-trip.* Exactly those without a space
   (`CatalogCells.ShortNameRoundTripsExactlyWithoutSpaces`).
7. *Session and track tables round-trip.* Exactly when there is a session and, if there are tracks,
   every session starts where a track does (`Sessions.TablesRoundTripExactlyWhen`).
8. *Valid dates round-trip through timestamps.* Exactly those from 1970 on outside leap seconds
   (`Calendar.DateRoundTripsExactlyWhen`).
9. *EWF1 chunks from 2 GiB on in a larger region are found.* Exactly when such a chunk is the last of
   its table, stored raw, and 2 GiB plus its size exceeds the cap of a compressed chunk
   (`Ewf1Regions.AllAreFoundExactlyWhen`). Of two raw chunks, the first of them at 2 GiB, the first is not
   found where it is (`Ewf1Regions.InnerChunkIsMissed`): read as a compressed chunk 2 GiB earlier, it would
   have an acceptable size.
10. *A leading EWF2 table with the short header is read.* Exactly when fewer than twelve bytes follow
    its entries (`Ewf2Leading.ShortHeaderIsParsedExactlyWhen`); with a footer of sixteen bytes the entries
    are looked for twelve bytes too late (`Ewf2Leading.FooterHidesShortHeader`).

## Model

| member | source | states |
|---|---|---|
| `PublicationTheorems.RunKeepsInvariant` | src/publication.rs:30-263 | every state of every run (begin, staging, prepare, install, rollback, cleanup, recover, with errors, torn copies and crashes anywhere) satisfies the protocol invariant |
| `PublicationTheorems.HistoryIsFaithful` | src/publication.rs:74-163 | since the last begin the plan and the original output are fixed, "committed" means the marker was on disk at some moment, and the staged bytes are those present when `ready` was written |
| `PublicationTheorems.PublicationIsAtomic` | src/publication.rs:74-263 | when a publication or a recovery completes no journal is left and the output is the old one, or the old one with every staged file installed and every stale one removed, the latter exactly when `committed` had been written |
| `PublicationTheorems.InstalledIsAllNewExactlyWithoutClobber` | src/publication.rs:139-163 | after a commit every destination is new and nothing else differs, if and only if coinciding destinations of the sets are compatible |
| `PublicationTheorems.OverlappingSetsClobber` | src/writer.rs:4975-5012 | with `a.E01` on disk, publishing to `a.E01` and `a.E02` lists exactly the stale names that the rule for segment names finds on disk, and the installed primary segment is gone after the commit |
| `PublicationTheorems.RecoveryIsRefusedExactlyWhen` | src/publication.rs:201-263 | the two disk states recovery refuses, if and only if, with the output all-old in both |
| `PublicationTheorems.SecondaryNeedsPrimaryAndReadyHasBackups` | src/publication.rs:30-263 | in every reachable state a secondary journal implies a primary one, and `ready` without a decision implies that every journal there has a backup or absent mark of every destination |
| `PublicationTheorems.SecondRecoveryIsIdle` | src/publication.rs:201-263 | recovering after a completed recovery reports false and changes nothing |
| `PublicationTheorems.RecoveryIsNeverRefused` | src/publication.rs:127-137 | without a torn identity write or a failed sync after `ready`, no crash or error ever leaves a state that recovery refuses |
| `PublicationTheorems.WrongPathsAreRefused` | src/publication.rs:201-263 | once the identity is written, recovery under other first paths is refused |
| `PublicationRuns.TornIdentityRunIsRefused` | src/publication.rs:55-66 | a run of nine states, begun and torn in the identity write, that recovery refuses |
| `PublicationRuns.UnsyncedReadyRunIsRefused` | src/publication.rs:127-137 | a run of twenty-five states, with a failed sync after `ready` and an interrupted clean-up, that recovery refuses |
| `PublicationRuns.LoneSecondaryIsRefused` | src/publication.rs:201-217 | a journal left at what is now the secondary path refuses the recovery of the pair, which has nothing to do without it |
| `Publisher.Publisher.Begin` | src/publication.rs:30-68 | refuses an existing journal and changes nothing then; otherwise creates the journals, empty and identified, a secondary one never without the primary, with the output untouched; without faults succeeds exactly when the primary has no journal |
| `Publisher.Publisher.Stage` | src/publication.rs:70-72 | adds one staged file to the journal of its set and leaves all else as it was |
| `Publisher.Publisher.BackUpFile` | src/publication.rs:91-126 | records the bytes of the destination, or its absence, in the journal of its set and nothing else, or ends in cleanup; without faults exactly when a file is not staged, a name not accepted, or an output may not be replaced |
| `Publisher.Publisher.Prepare` | src/publication.rs:91-137 | backs up every destination of every set and writes `ready`, or ends with the output unchanged; without faults succeeds exactly when every file to be written is staged and every destination is accepted and may be replaced |
| `Publisher.Publisher.Install` | src/publication.rs:139-163 | installs both sets, or is left to roll back; the invariant in `Valid` fixes the output after each file; without faults succeeds exactly when no file of a set is written twice |
| `Publisher.Publisher.RestoreBackup` | src/publication.rs:165-182 | puts the original bytes of one destination back and changes no other file |
| `Publisher.Publisher.RollBack` | src/publication.rs:165-199 | completes only with the original output restored and no journal left |
| `Publisher.Publisher.CleanUp` | src/publication.rs:184-199 | moves the journals aside from the last on, at every step of the run, without touching the output |
| `Publisher.Publisher.Publish` | src/publication.rs:74-89 | without faults succeeds exactly when `CanPublish` held of the plan, the output and the staged files before the call, and otherwise leaves the output as it was and no journal; success means the staged files installed over the old output and no journal left; whenever no journal is left without a commit, the output is the original |
| `Publisher.Publisher.Drop` | src/publication.rs:266-272 | an unprepared publication disappears without touching the output, always so without faults; one that ended is left to recovery |
| `Publisher.Publisher.Recover` | src/publication.rs:201-263 | reports whether there was a publication, restores the original output or keeps the committed one, and without faults succeeds exactly when the state is not refused |
| `SegmentPool.FirstIdle` | src/image.rs:2501-2523 | the victim is the first handle in order that is not leased |
| `SegmentPool.CloseKeepsWellFormed` | src/image.rs:2501-2523 | closing an idle handle keeps `open_order` a duplicate-free list of exactly the open slots and every leased handle open |
| `SegmentPool.ShrinkClosesIdle` | src/image.rs:2483-2499 | closing down to a limit closes idle handles only, and stops above the limit only when all are leased |
| `SegmentPool.OpenCountIsOrderLength` | src/image.rs:2355-2357 | the number of open slots is the length of `open_order` |
| `SegmentPool.AcquireKeepsValid` | src/image.rs:2418-2462 | acquiring keeps the limit, keeps leased handles, grants the handle that is now open and last in order, and waits only when all handles are leased |
| `SegmentPool.FileMutKeepsValid` | src/image.rs:2377-2416 | the scanning path keeps the same invariant and hands out the open handle |
| `SegmentPool.SetMaximumKeepsValid` | src/image.rs:2337-2353 | a limit change takes effect or is refused with the limit as before, and closes no leased handle |
| `SegmentPool.SegmentFilePool.NewPath` | src/image.rs:2267-2282 | a new pool is empty and valid |
| `SegmentPool.SegmentFilePool.OpenHandles` | src/image.rs:2355-2357 | counting the open slots gives the length of the order |
| `SegmentPool.SegmentFilePool.CloseLeastRecentlyUsed` | src/image.rs:2501-2523 | the loop rotates past leased handles and closes the first idle one, leaving the rest in order |
| `SegmentPool.SegmentFilePool.MarkUsed` | src/image.rs:2472-2481 | moves the segment to the end of the order |
| `SegmentPool.SegmentFilePool.AcquirePathFile` | src/image.rs:2418-2462 | does what `Acquire` says, which `AcquireGrantsExactlyWhen` pins, keeps the invariant and every lease |
| `SegmentPool.SegmentFilePool.SetMaximumOpenHandles` | src/image.rs:2337-2353 | does what `SetMaximum` says, which `LimitIsAcceptedExactlyWhen` pins, keeps the invariant and every lease |
| `SegmentPoolLimits.ShrinkClosesOldest` | src/image.rs:2483-2499 | closing down to a limit closes idle handles oldest first, and no more than it takes: what is left is the limit, or the leased ones when they are more |
| `SegmentPoolLimits.ShrinkRotates` | src/image.rs:2501-2523 | the handles left keep their order of use, counted from the last one closed |
| `SegmentPoolLimits.LimitIsAcceptedExactlyWhen` | src/image.rs:2337-2353 | a new limit is accepted exactly when there is none, or it is positive and no fewer than the handles that cannot be closed (leased, or all supplied ones); the oldest idle handles are closed, no more than needed |
| `SegmentPoolLimits.FileMutGrantsExactlyWhen` | src/image.rs:2377-2416 | the scanning path hands out a segment exactly when it is open, or can be opened and fewer handles than the limit cannot be closed; the oldest idle ones make room |
| `SegmentPoolLimits.AcquireGrantsExactlyWhen` | src/image.rs:2418-2462 | a positioned read gets its segment exactly when it is open, or can be opened and there is room; it has to wait exactly when as many handles as the limit are leased |
| `SegmentPoolLimits.UseMovesToTheEnd` | src/image.rs:2472-2481 | marking a segment used moves it behind the others and leaves those in order |
| `SegmentPoolThreads.EveryRunIsSafe` | src/image.rs:2092-2118 | in every interleaving of threads acquiring, waiting, reading, releasing and notifying, leases count exactly the readers and the pool stays valid |
| `SegmentPoolThreads.LimitHoldsAndReadersKeepTheirHandles` | src/image.rs:2092-2118 | in every run the open count is within the limit, `open_order` lists exactly the open slots once, and each reader's handle is open in its slot |
| `SegmentPoolThreads.SleepersAreNeverForgotten` | src/image.rs:209-223 | at every point of a run a sleeping waiter implies a lease, a releaser about to notify or a woken waiter yet to check, if and only if no last hope's attempt has returned an error |
| `SegmentPoolThreads.StepForgetsExactlyWhen` | src/image.rs:2092-2118 | a single step forgets a sleeper if and only if it is the failing attempt of a woken waiter on which alone the sleeper depended |
| `SegmentPoolThreads.FailedOpenForgetsSleeper` | src/image.rs:2092-2118 | a six-step run in which a failed open leaves a sleeper nobody will wake |
| `ChunkFlights.OneDecoderPerChunk` | src/image.rs:1753-1832 | in every interleaving at most one thread owns the decoding of a chunk |
| `ChunkFlights.SleepersHaveAnOwner` | src/image.rs:1753-1832 | a blocked waiter's flight has another thread that has yet to complete it |
| `ChunkFlights.ValuesAreTheDecoding` | src/image.rs:1753-1832 | every cached value and every successfully returned result is the pure decoding of its chunk, across evictions and failed decodes |
| `ChunkFlights.ErrorsAreOnesOwn` | src/image.rs:1802-1830 | in every run a thread holds an error exactly when it has itself failed to decode that chunk since its last request: waiters inherit none |
| `ChunkFlights.ReadsSucceedUnlessTheyFail` | src/image.rs:1802-1830 | a finished read whose own decoding did not fail returns the decoding of its chunk, and one whose did returns the error |
| `ChunkFlights.InsertedIsCached` | src/image.rs:1756-1775 | a decoded chunk stays cached until it is evicted, and a read that checks the cache before that returns it at once |
| `ChunkFlights.SomeoneCanStep` | src/image.rs:1753-1832 | whenever a thread is inside a read, some thread can take a step that is no spurious wake-up |
| `ChunkCodec.FillPattern` | src/decode.rs:148-158 | fills the buffer so that each byte is the pattern byte at its position modulo eight |
| `ChunkCodec.PatternRoundTrip` | src/writer.rs:4579-4592 | a chunk is reported as a repeated pattern exactly when filling with some 64-bit pattern gives it, and the reported one does |
| `ChunkCodec.RawDecodes` | src/writer.rs:4432-4512 | a raw chunk with its checksum decodes to its data and its trailer validates |
| `ChunkCodec.EncodingRoundTrip` | src/writer.rs:4432-4512 | decoding undoes encoding whichever branch is taken; encoding fails only for bzip2 without a level |
| `ChunkCodec.StoredRawExactlyWhen` | src/writer.rs:4432-4512 | deflate is used exactly when it saves bytes, and always for empty blocks where asked; a pattern exactly when one fills the chunk; otherwise the chunk is stored raw with its checksum |
| `ChunkCodec.PaddingIsCutOff` | src/decode.rs:118-146 | a compressed chunk with padding decodes to its data exactly when the whole is within the allowed size |
| `ChunkCodec.FreshSizeIsAccepted` | src/decode.rs:62-87 | the reader's size caps accept whatever the encoder makes, for every chunk size whose caps exist, given what zlib and bzip2 promise about their output |
| `Sorting.SortedIsOrdered` | src/index.rs:30-72 | the ranges, and the session entries, are in order of their keys |
| `Sorting.OneArrangement` | src/index.rs:30-72 | elements told apart by their keys have one arrangement in order |
| `ChunkIndex.NewIndex` | src/index.rs:30-72 | the validation loop succeeds exactly when the sorted ranges partition the chunk ids, and keeps them all |
| `ChunkIndex.IndexIsBuiltExactlyForPartitions` | src/index.rs:30-72 | an index is built exactly when the ranges can be arranged into a partition of the ids, in whatever order they came |
| `ChunkIndex.PointIsFirstBeyond` | src/index.rs:83-100 | the partition point is the first range that ends beyond the id |
| `ChunkIndex.SearchFindsTheRange` | src/index.rs:83-100 | the search succeeds exactly for ids in the image and returns the one range that covers the id |
| `MediaReads.ReadAt` | src/image.rs:1266-1310 | succeeds exactly when every byte wanted can be decoded, returns min(length, size - offset) bytes equal to the media slice, never reaches the empty-copy break, and leaves the rest of the buffer alone |
| `MediaReads.ChunkReaches` | src/image.rs:1266-1310 | a position before the end of the media lies inside the chunk decoded for it, so every turn of the loop copies at least one byte |
| `MediaReads.ReadsAreSlicesOfTheMedia` | src/image.rs:1266-1310 | when all chunks decode, what is read is that slice of the concatenated chunks, whose length is the media size |
| `LogicalReads.ReadExtents` | src/image.rs:1429-1479 | succeeds exactly when every part can be read and the extents reach the end of the range; then the buffer is that slice of the flattened extents, sparse ones as zeros |
| `LogicalReads.ReadSingleFileAt` | src/image.rs:1352-1479 | the ordinary, duplicate and repeated-byte paths return the bytes they stand for, at most what is left of the file, and touch nothing beyond; each succeeds exactly when what it reads from is there |
| `LogicalReads.BackedExtentsAreRead` | src/image.rs:1429-1479 | extents within readable media can all be read, so running short of extents is then the only error |
| `ChunkWriter.WriteKeepsCoherent` | src/writer.rs:1624-1646 | a write, also one that fails after some of its bytes are in the spool file, leaves each remembered entry decoding to the spool at its index |
| `ChunkWriter.SpoolingCoheres` | src/writer.rs:4307-4322 | spooling bytes, all or some, keeps every entry whose chunk they do not touch, while hidden bytes past the readable end may surface elsewhere |
| `ChunkWriter.WriteEncodedKeepsCoherent` | src/writer.rs:1721-1738 | so does writing an already encoded chunk, which may add an entry |
| `ChunkWriter.RememberedCoheres` | src/writer.rs:2115-2173 | what is remembered decodes to the bytes just written |
| `ChunkWriter.StepKeepsCoherent` | src/writer.rs:620-990 | each write, seek and guarded setter keeps remembered encodings and spool in agreement |
| `ChunkWriter.SetGeometryKeepsCoherent` | src/writer.rs:757-794 | the geometry setters do, as they forget everything and refuse once data is written |
| `ChunkWriter.EveryRunIsCoherent` | src/writer.rs:1624-1756 | every run of writes, seeks, encoded-chunk writes and guarded setters keeps remembered encodings and spool in agreement |
| `ChunkWriter.EveryRunIsCapped` | src/writer.rs:2115-2173 | every run keeps what is remembered within the reader's size caps |
| `ChunkWriter.RememberedEncodesMedia` | src/writer.rs:4204-4265 | a remembered chunk of the right size and a compatible encoding encodes its media chunk |
| `ChunkWriter.EncodeRawSpool` | src/writer.rs:4204-4265 | emits one chunk per media chunk, each decoding to the zero-filled spool there and within the reader's size caps, whichever branch it took: the remembered form where it fits, else a fresh encoding |
| `ChunkWriter.ChunksAreTheSpool` | src/writer.rs:4324-4344 | the media chunks concatenate to the spool, zero-filled to the logical size |
| `ChunkWriter.SameMedia` | src/image.rs:1266-1310 | an image whose chunks are the writer's media chunks reads as the zero-filled spool, at any offset |
| `ChunkWriter.EntrySurvivesCopyExactlyWhen` | src/writer.rs:1009-1026 | whether every entry at an index with a given size survives a change of chunk size, if and only if |
| `ChunkWriter.CopyKeepsCoherent` | src/writer.rs:1009-1026 | copying media values keeps coherence when every entry survives |
| `ChunkWriter.CopyKeepsCoherentExactlyWhen` | src/writer.rs:1009-1026 | copying media values leaves every writer that remembers chunks of these sizes right, if and only if each of them survives |
| `ChunkWriter.CopiedGeometryEmitsWrongBytes` | src/writer.rs:1009-1026 | a concrete run after which the writer holds, and would emit, a chunk that does not decode to its media |
| `ChunkWriter.EwfWriter.ForgetEncodedChunksInRange` | src/writer.rs:1740-1756 | forgets exactly the entries whose chunk meets the range |
| `ChunkWriter.EwfWriter.WriteToCurrent` | src/writer.rs:1624-1646 | does what `Written` says, which the theorems of `WrittenMedia` pin over runs, keeping coherence |
| `ChunkWriter.EwfWriter.WriteEncodedDataChunk` | src/writer.rs:676-683 | does what `WriteEncoded` says, which `GivenIsEmitted` and the other theorems of `WrittenMedia` pin over runs, keeping coherence |
| `ChunkWriter.EwfWriter.PrepareWrite` | src/writer.rs:1648-1703 | the encoded chunks of the padded media, within the caps, or an error in the size or the bzip2 level |
| `WrittenMedia.WriteSucceedsExactlyWhen` | src/writer.rs:1624-1646 | a write succeeds exactly when its end fits 64 bits and the declared size and nothing fails; one that does not fit changes nothing |
| `WrittenMedia.EncodedWriteSucceedsExactlyWhen` | src/writer.rs:676-683 | so does handing over an encoded chunk, for the bytes it decodes to |
| `WrittenMedia.PositionFollows` | src/writer.rs:4185-4202 | the position follows completed writes, and seeks from the start, the position or the end that lead to a 64-bit position, and nothing else |
| `WrittenMedia.InputSizeIsLargestEnd` | src/writer.rs:1641-1643 | over any run the size of the input is the largest end of any completed write |
| `WrittenMedia.LogicalSizeIsRoundedUp` | src/writer.rs:801-826 | the size of the media is the least whole number of sectors not below the declared size, or without one the size of the input; it exists exactly when it fits 64 bits and the input fits the declared size |
| `WrittenMedia.WrittenByteIsInMedia` | src/writer.rs:1624-1646 | over any run every byte of a completed write that no later write touches is at its position in the media, which reaches that far |
| `WrittenMedia.TornByteIsOldOrNew` | src/writer.rs:4307-4322 | a write that failed leaves its byte or zero, nothing else, where no later write is |
| `WrittenMedia.UntouchedByteIsZero` | src/writer.rs:4324-4340 | positions no write ever touched are zero in the media |
| `WrittenMedia.MediaReflectsWrites` | src/writer.rs:1648-1703 | the media of any run is what was written last at each position |
| `WrittenMedia.DataFixesGeometry` | src/writer.rs:757-772 | once a byte has been written, no setter of the run changes anything |
| `WrittenMedia.SettersWorkBeforeData` | src/writer.rs:757-772 | before that each setter sets what it is asked to, exactly when the options stay valid |
| `WrittenMedia.GivenStaysRemembered` | src/writer.rs:2115-2183 | a chunk handed over encoded at the start of a chunk, fit for the format, is remembered over any run until something else is written there |
| `WrittenMedia.GivenIsEmitted` | src/writer.rs:4204-4265 | and is then emitted with the caller's own bytes instead of being encoded anew |
| `Ewf1Sections.DescriptorRoundTrip` | src/format/ewf1.rs:135-170 | a printed section descriptor parses back and its checksum holds |
| `Ewf1Sections.Scan` | src/image.rs:3515-3563 | the scan loop finds the chain from the file header on, terminating on a strictly growing offset |
| `Ewf1Sections.ScannedSectionsAreDisjoint` | src/image.rs:3515-3563 | on arbitrary bytes the accepted sections lie in the file, in order, descriptor before data, pairwise disjoint |
| `Ewf1Sections.ScanOfChain` | src/image.rs:3515-3563 | scanning a written chain gives back its sections in order |
| `Ewf1Tables.AppendTableData` | src/writer.rs:5363-5395 | succeeds exactly when every relative offset fits 31 bits, and appends header, entries and footer with their checksums |
| `Ewf1Tables.ParseRanges` | src/image.rs:3968-4101 | the loop gives the ranges of all tables, and fails on media without any; what range each table gives is `TableIsResolved`, `ResidentChunksAreFound` and `ChunksInSectorsAreFound` |
| `Ewf1Groups.TableGroups` | src/writer.rs:5275-5301 | partitions the chunks within both caps (a single large chunk aside), greedily, into as many groups as the incremental count says |
| `Ewf1Groups.GroupingSucceeds` | src/writer.rs:5275-5301 | grouping never fails on chunks that fit 64 bits together, and makes no more tables than chunks |
| `Ewf1RoundTrip.PlannedOffsetsAreReal` | src/writer.rs:5303-5361 | each planned section offset is where the section is in the file |
| `Ewf1RoundTrip.TableIsResolved` | src/image.rs:3990-4101 | a written table is resolved to its sectors section and yields one range with that base and end |
| `Ewf1RoundTrip.MirrorIsSkipped` | src/image.rs:3968-4023 | a `table2` after its table adds nothing |
| `Ewf1RoundTrip.HeaderRoundTrip` | src/writer.rs:5211-5218 | the table header's count and base parse back and its checksum holds |
| `Ewf1RoundTrip.NotFullWidth` | src/image.rs:4368-4429 | no entry of a written group is mistaken for a full-width offset |
| `Ewf1RoundTrip.ChunkIsFound` | src/image.rs:1851-1925 | looking up an entry of a written group gives the chunk's offset, size and encoding |
| `Ewf1Image.GroupsAreAddressable` | src/writer.rs:5363-5395 | no group hits the 31-bit error |
| `Ewf1Image.SegmentIsParsed` | src/image.rs:3968-4101 | a written segment file scans and parses to exactly the ranges of its groups |
| `Ewf1Image.EveryChunkIsFound` | src/image.rs:1851-1925 | for any chunks within the caps, the parsed ranges number them without gap or overlap and each chunk is found with the offset, size and encoding it was written with |
| `Ewf1ReadBack.SegmentsAreOpened` | src/image.rs:558-870 | opening written segments in turn numbers all their chunks consecutively and finds each |
| `Ewf1ReadBack.EmptySegmentIsOpened` | src/image.rs:3968-4101 | a segment without chunks parses to no range, which the reader accepts exactly for an image without media |
| `Ewf1ReadBack.FoundChunkReads` | src/image.rs:2156-2217 | a found chunk reads as its media chunk exactly when its trailer is not taken for a wrong checksum, also with padded logical chunks |
| `Ewf1ReadBack.EmittedIsWithinCaps` | src/image.rs:4286-4312 | an emitted chunk passes the EWF1 caps, if and only if a compressed one in a SMART image is at most twice the chunk size |
| `Ewf1ReadBack.LargeChunksFitTwice` | src/image.rs:4286-4312 | which it is for chunk sizes from 13 bytes on |
| `Ewf1ReadBack.FreshChunkIsSafe` | src/writer.rs:4432-4512 | what the encoder makes is within the reader's EWF1 caps, with the same exact exception, and never has an unsafe trailer |
| `Ewf1ReadBack.LateTrailerIsRemembered` | src/writer.rs:2115-2173 | a caller's chunk that is remembered although the reader will refuse it |
| `Ewf1ReadBack.WrittenSegmentsOpen` | src/image.rs:558-870 | segments that hold the writer's chunks open |
| `Ewf1ReadBack.EveryChunkReadsBack` | src/image.rs:1753-1925 | every chunk of the media is read back from the opened EWF1 segments, with the exact condition on its trailer |
| `Ewf1ReadBack.WrittenImageReadsBack` | src/image.rs:1266-1310 | reading the written EWF1 image at any offset gives that slice of the zero-filled spool |
| `Ewf1ReadBack.EmittedImageReadsBack` | src/writer.rs:1355-1481 | what a writer emits after any run, laid out in EWF1 segments, reads back as its zero-filled spool at any offset, given safe trailers |
| `Ewf1Regions.LastIsFullWidth` | src/image.rs:4368-4429 | a last raw chunk from 2 GiB on is read where it is exactly when its 31-bit reading would be over the cap of a compressed chunk |
| `Ewf1Regions.InnerIsNeverFullWidth` | src/image.rs:4402-4423 | a raw chunk from 2 GiB on that is not the last never is |
| `Ewf1Regions.AllAreFoundExactlyWhen` | src/image.rs:1852-1922 | in a region of any size and base, every chunk is found with its offset, size and encoding exactly when each one from 2 GiB on is distinguishable |
| `Ewf1Regions.InnerChunkIsMissed` | src/image.rs:4402-4423 | of two raw chunks, the first at 2 GiB, the first is not found where it is |
| `Ewf1Regions.ResidentChunksAreFound` | src/image.rs:4043-4071 | on the bytes of a segment whose only table holds its own chunks, with a checksum of the entries or without, there is one range, based at 0, and each chunk is found where its bytes are exactly when they are distinguishable |
| `Ewf1Regions.LowChunksAreDistinguishable` | src/image.rs:4380-4389 | chunks that end by 2 GiB always are |
| `Ewf1Regions.ChunksInSectorsAreFound` | src/image.rs:4044-4071 | the same for a table into a sectors section named by its base offset, or by its first entry when the base is 0, in regions over 2 GiB too |
| `Ewf1Regions.LookupIsBounded` | src/image.rs:1893-1922 | in any file a chunk that is found is not empty, lies behind its base and is within the cap of its encoding |
| `Ewf2Sections.ScanTrailing` | src/image.rs:3673-3758 | the backward loop gives all sections in file order; its bound is never met, so "chain is too long" cannot be returned |
| `Ewf2Sections.TrailingSectionsAreDisjoint` | src/image.rs:3673-3758 | on arbitrary bytes the trailing sections tile the file from its header to the last descriptor, in order and disjoint |
| `Ewf2Sections.LeadingSectionsAreDisjoint` | src/image.rs:3586-3671 | on arbitrary bytes the leading sections are in the file, in order, disjoint, and end with the first terminal one |
| `Ewf2Sections.DescriptorRoundTrip` | src/format/ewf2.rs:142-180 | a printed descriptor parses back and its checksum holds |
| `Ewf2Sections.PlanSections` | src/writer.rs:2703-2722 | the cursors give each section its data offset and the offset of the descriptor before it, failing exactly on overflow |
| `Ewf2Sections.WrittenFileIsScanned` | src/image.rs:3571-3584 | a written chain is scanned back, in order, with the planned offsets and sizes, if and only if the probe for the leading layout declines |
| `Ewf2Sections.ZlibFirstDeclines` | src/image.rs:3586-3671 | under strict reading the probe does decline when the first section is a zlib stream, as the device information always is |
| `Ewf2Tables.PrintEntries` | src/writer.rs:3138-3152 | prints the entries, failing exactly when a chunk's size exceeds 32 bits |
| `Ewf2Tables.FlagsRoundTrip` | src/format/ewf2.rs:183-217 | compression, checksum and pattern flags give back the encoding the chunk was written with |
| `Ewf2Tables.EntryRoundTrip` | src/image.rs:1927-1972 | looking up an entry gives its value, size, encoding and checksum flag, or fails exactly when the size is over the cap |
| `Ewf2Tables.LookupIsBounded` | src/image.rs:1927-1972 | in any file a chunk that is found is a pattern, or not empty and within the cap of its encoding |
| `Ewf2Tables.TableRoundTrip` | src/image.rs:4127-4223 | a written table parses to one range with its first chunk and count |
| `Ewf2ReadBack.EmittedIsWritable` | src/image.rs:4127-4223 | an emitted chunk fits table and caps if and only if its size fits 32 bits, as it does up to chunks of 2 GiB |
| `Ewf2ReadBack.FreshChunkIsWritable` | src/writer.rs:4432-4512 | so does what the encoder makes |
| `Ewf2ReadBack.SegmentIsOpened` | src/image.rs:4127-4223 | a written segment opens to exactly its range |
| `Ewf2ReadBack.WrittenChunkReads` | src/image.rs:1927-1972 | each chunk of a written segment, pattern-filled ones included, reads as the data it encodes |
| `Ewf2ReadBack.WrittenSegmentsOpen` | src/image.rs:558-870 | segments that hold the writer's chunks open |
| `Ewf2ReadBack.EveryChunkReadsBack` | src/image.rs:1834-1849 | every chunk of the media is read back from the opened EWF2 segments |
| `Ewf2ReadBack.WrittenImageReadsBack` | src/image.rs:1266-1310 | reading the written EWF2 image at any offset gives that slice of the zero-filled spool |
| `Ewf2ReadBack.EmittedImageReadsBack` | src/writer.rs:1355-1481 | what a writer emits after any run, laid out in EWF2 segments, reads back as its zero-filled spool at any offset |
| `Ewf2Leading.LeadingDescriptorRoundTrip` | src/image.rs:3586-3640 | a leading descriptor parses back, with padding and digest |
| `Ewf2Leading.LeadingChainIsScanned` | src/image.rs:3586-3680 | a chain of leading sections, padded and with digests, scans back to its sections |
| `Ewf2Leading.LeadingFileIsScanned` | src/image.rs:3571-3585 | a file that starts with such a chain is scanned as it, whatever follows |
| `Ewf2Leading.FullHeaderIsParsed` | src/image.rs:4136-4200 | a leading table with the long header gives the range its header says, with or without a footer |
| `Ewf2Leading.ShortHeaderIsParsedExactlyWhen` | src/image.rs:4162-4176 | one with the short header does exactly when fewer than twelve bytes follow the entries |
| `Ewf2Leading.FooterHidesShortHeader` | src/image.rs:4162-4176 | with a footer its entries are looked for twelve bytes too late |
| `ImageRoundTrip.Ewf1ImageReadsAsWritten` | src/writer.rs:1648-1703 | end to end for EWF1: any run of writes, emitted and opened, reads back at any offset as what was written last at each position |
| `ImageRoundTrip.Ewf2ImageReadsAsWritten` | src/writer.rs:1648-1703 | end to end for EWF2 |
| `TablePages.GetKeeps` | src/reader_cache.rs:31-33 | a hit is the page's bytes and keeps byte counts, capacity and distinct keys |
| `TablePages.InsertKeeps` | src/reader_cache.rs:39-57 | inserting keeps cached bytes equal to the retained sizes, within capacity and at most the peak, and pages truthful |
| `TablePages.Evicted` | src/reader_cache.rs:39-57 | evicts the fewest oldest pages that make room |
| `TablePages.TablePageCache.GetPage` | src/reader_cache.rs:31-33 | a hit becomes the most recently used page |
| `TablePages.TablePageCache.InsertPage` | src/reader_cache.rs:39-57 | replaces, evicts and counts without any subtraction going below zero |
| `TablePages.ReadTableBytesAt` | src/image.rs:1981-2035 | succeeds exactly when the range lies in the segment and returns its bytes, whatever the cache held |
| `TablePages.FetchPage` | src/image.rs:1981-2035 | gives the page's bytes from cache or file, failing exactly on pages past the end |
| `SegmentSplit.SegmentGroups` | src/writer.rs:4594-4656 | a contiguous partition in which every segment of two or more chunks is estimated within the maximum and no segment but the last could take another chunk; fails only when an estimate overflows |
| `SegmentSplit.EstimatesExist` | src/writer.rs:4594-4656 | no estimate overflows, so that splitting never fails, while one segment with a table for each chunk would fit 64 bits |
| `SegmentSplit.CountedGroupsAreMade` | src/writer.rs:5234-5301 | the group count used by the estimate is the number of groups later made for that slice |
| `SegmentSplit.Ewf1SegmentFits` | src/writer.rs:4683-4784 | the bytes of a written EWF1 segment do not exceed its estimate |
| `SegmentSplit.Ewf2SegmentFits` | src/writer.rs:4786-4929 | nor do those of an EWF2 segment |
| `SegmentSplit.SplitSegmentsFit` | src/writer.rs:2273-2635 | every EWF1 segment of two or more chunks fits the configured maximum |
| `SegmentSplit.SplitEwf2SegmentsFit` | src/writer.rs:2739-3195 | every EWF2 segment of two or more chunks fits the configured maximum |
| `Text.DigitsRoundTrip` | src/single_files.rs:1369-1384 | a printed number parses back in base ten and sixteen |
| `Text.Utf16RoundTrip` | src/single_files.rs:1004-1033 | encoding to UTF-16, surrogate pairs included, decodes back |
| `CatalogCells.ShortNameRoundTripsExactlyWithoutSpaces` | src/single_files.rs:1172-1198 | a printed short name parses back exactly when it has no space |
| `CatalogCells.ReadExtents` | src/single_files.rs:1133-1170 | the loop over the words of an extent list |
| `CatalogCells.ExtentsRoundTrip` | src/writer.rs:3860-3875 | an extent list parses back, sparse marks included |
| `CatalogCells.AttributesRoundTrip` | src/single_files.rs:1200-1274 | extended attributes parse back from their hexadecimal binary records |
| `CatalogCells.CellRoundTrip` | src/single_files.rs:1088-1131 | every canonical cell of every kind parses back and prints clean |
| `CatalogRows.RowRoundTrip` | src/single_files.rs:917-932 | a row of typed cells parses back to its record |
| `CatalogRows.RowsRoundTrip` | src/single_files.rs:577-623 | numbered rows parse back and the numbering check passes |
| `CatalogRows.ReadRows` | src/single_files.rs:577-623 | the loop over numbered rows |
| `CatalogRoundTrip.PermissionsRoundTrip` | src/single_files.rs:664-722 | permission groups parse back and the cursor stops after them |
| `CatalogRoundTrip.SourcesRoundTrip` | src/single_files.rs:577-623 | sources parse back |
| `CatalogRoundTrip.SubjectsRoundTrip` | src/single_files.rs:625-662 | subjects parse back |
| `CatalogRoundTrip.EntryRoundTrip` | src/single_files.rs:1035-1086 | an entry tree of any depth and width parses back and the cursor stops exactly after it |
| `CatalogRoundTrip.RenumberingKeepsReferences` | src/writer.rs:3576-3607 | numbering sources by position maps a reference to the source it named, leaving all else as it was |
| `CatalogRoundTrip.LinesRoundTrip` | src/single_files.rs:464-533 | the lines of a canonical catalog parse to the same catalog |
| `CatalogRoundTrip.CatalogReadsBack` | src/writer.rs:3557-3574 | the bytes of a canonical catalog are printed and parse back to the same tree, sources, subjects and permissions |
| `Catalog.ReadEntry` | src/single_files.rs:1035-1086 | the recursive parser with its cursor |
| `Sessions.ParseEntries` | src/metadata.rs:234-377 | the loop over entries |
| `Sessions.EntriesAreMerged` | src/writer.rs:4018-4072 | sorting session and track starts merges them, a session before the track that starts with it |
| `Sessions.StartsRoundTrip` | src/metadata.rs:234-377 | parsing the merged starts gives both lists exactly when there is a session and each starts with a track, or there are no tracks |
| `Sessions.EntriesRoundTrip` | src/metadata.rs:234-377 | printed entries parse back in both versions |
| `Sessions.TablesRoundTripExactlyWhen` | src/writer.rs:4004-4072 | the bytes of a written table parse back to both lists, if and only if, for both format versions |
| `MediaScan.ScanMedia` | src/verify.rs:311-411 | for any buffer budget and worker count a scan that nobody stops gives the same report, chunk by chunk in order |
| `MediaScan.FailsExactlyWhenInvalid` | src/verify.rs:311-411 | a chunk counts as failed exactly when it does not decode to its exact length |
| `MediaScan.CompleteScanCoversTheMedia` | src/verify.rs:311-411 | a completed scan processes the media size, hashes if and only if every chunk validated, and then hashes the whole media |
| `MediaScan.VerifiedBytesAreCounted` | src/verify.rs:311-411 | the bytes reported as verified are as many as there are positions in chunks that validate |
| `MediaScan.FailuresAreAscending` | src/verify.rs:311-411 | failed chunks are listed once each and in order |
| `Calendar.ClosedFormIsTheSum` | src/date_time.rs:220-224 | the closed form counts years one by one, before and after 1970 |
| `Calendar.CountDaysBeforeMonth` | src/date_time.rs:226-232 | the loop over months |
| `Calendar.ReadTimestamp` | src/date_time.rs:91-126 | the two loops; the month loop stops by December |
| `Calendar.TimestampRoundTrip` | src/date_time.rs:81-126 | every date read from a timestamp is valid and has that timestamp |
| `Calendar.DateRoundTripsExactlyWhen` | src/date_time.rs:81-126 | a valid date comes back from its timestamp exactly when from 1970 on and outside a leap second |
| `Calendar.WeekdayIsDayCount` | src/date_time.rs:290-307 | Zeller's rule gives (days since the epoch + 4) mod 7 for every valid date |

## Left out

- Publication: a run is about one pair of first paths, so that "no secondary journal without its primary" says nothing of a journal that an earlier publication left at the secondary path alone (`PublicationRuns.LoneSecondaryIsRefused` says what recovery does then). The rule for segment names is the parameter `accepts`; SHA-256 of the first paths is represented by what it hashes; output locks, the acquisition journal, path normalisation and directory listing are the environment. An I/O error strikes before its step takes effect, apart from copies and identity writes, which may be cut short.
- PublicationTheorems.RecoveryIsNeverRefused: leaves out runs with a torn identity write or a failed sync after `ready`; `RecoveryIsRefusedExactlyWhen` says what recovery does there.
- Ewf1ReadBack.WrittenImageReadsBack: takes the caps as given; `EmittedImageReadsBack` has them from what the writer emits. Both assume safe trailers, which `EveryChunkReadsBack` shows to be the exact condition chunk by chunk.
- Ewf2ReadBack.WrittenImageReadsBack: takes the caps as given; `EmittedImageReadsBack` has them from what the writer emits. Both assume that the leading probe declines, which `Ewf2Sections.WrittenFileIsScanned` shows to be the exact condition and `Ewf2Sections.ZlibFirstDeclines` proves for strict reading.
- Ewf1Image.EveryChunkIsFound: segments with chunks; `Ewf1ReadBack.EmptySegmentIsOpened` is the other case. EWF2 segments without chunks are left out.
- Ewf1Regions.AllAreFoundExactlyWhen: file offsets are taken to fit signed 64 bits, as those of the operating system do.
- Ewf2Leading.LeadingFileIsScanned: sections that are not encrypted and of a known kind; the writer never lays such files out.
- ImageRoundTrip.Ewf1ImageReadsAsWritten: under the conditions of `Ewf1ReadBack.EmittedImageReadsBack` on trailers and caps.
- ChunkFlights.ValuesAreTheDecoding: the decoding is a parameter, the map from chunks to bytes; what it is for written images is proved in `Ewf1ReadBack` and `Ewf2ReadBack`.
- CatalogRoundTrip.CatalogReadsBack: canonical catalogs only (text without tab and line breaks, lower-case hashes, sources numbered by position, short names without spaces); invalid UTF-16 is not modelled.
- Calendar.DateRoundTripsExactlyWhen: text formats of dates and time zones are not modelled.
- TablePages.ReadTableBytesAt: one thread at a time, as the cache is behind a lock; the source's locks, poisoning and panics are not modelled, here or elsewhere.
- zlib, bzip2, zstd, MD5 and the SHA digests: parameters, with the inverse law where it is needed.
- Encryption, passwords and key derivation.
- Header and case metadata, code pages, format-profile detection, volume and device sections, memory extents and hash sections: in the layouts they are arbitrary payloads before and after the chunks.
- The EWF1 `ltree` header around the catalog, with its MD5 and Adler-32.
- Supplied readers of the pool (`open_readers`): the pool refuses leases on them, as in the code, and their seeking reads are not modelled.
- The flag that turns chunk errors into zeros, strict logical reads, the abort flags, statistics, progress text and findings lists.
- Encoding chunks in parallel batches: only the order of the results matters to the model.
- Sequential readers, acquisition, recovery of damaged images and AFF4.
