# elfshaker, modelled and verified

elfshaker is a snapshot store: it keeps many versions of a directory tree in packs of
compressed frames, and checks versions out by changing only what differs. This project
models its core in Dafny and proves what the core is for.

| file | what it models |
|---|---|
| `PathPolicy`, `WorkTree`, `Cleanup`, `Symlink`, `Extraction` | incremental checkout: the file tree, the preflights, how link targets are stored, the removal loop with its one-slot directory queue, the write step, and the checkout as a whole |
| `AtomicFile`, `PackPublication` | AtomicCreateFile as a protocol between processes that may stop anywhere, and the publication of a pack and its index built on it |
| `Algo`, `PackStream`, `SkippableFrame` | partitioning, the parallel chunker, writing a pack and reading it back |
| `EntryPool`, `Snapshots`, `PackIndex`, `Identity` | interning pools, delta-encoded snapshots, merging and saving indexes, the stream a snapshot is identified by |
| `Utf8`, `PathEscape`, `PackPath` | canonical paths and how they are displayed |
| `EsiText`, `EsiDocument`, `EsiSpelling`, `EsiCommit` | remote index documents: lossless parsing, printing and editing, the format byte by byte, and committing several files at once |
| `GarbageCollection`, `Ids` | garbage collection of loose data; pack names, tags and HEAD |
| `ByteStrings`, `Orders`, `Splitting`, `Faults` | bytes, sorting and orders, splitting at separators, failing steps, used throughout |

Code that changes things step by step is modelled by classes and methods with loops, each
proved against a specification; the properties are then proved of the specification.
What the outside decides (faults of the file system, the order in which sets are iterated,
checksums, URL rules, Unicode categories) is a parameter, so every theorem holds for all
of its behaviours.

What the code turned out not to promise is stated as well, with the exact condition:

- A checkout whose preflights pass still fails in the write step exactly when an untracked
  file or link stands above a new path (`ExtractSnapshot`, last clause; input:
  `ObstructedUnnoticed`), or a new link with an empty object cannot be made.
- A link whose object is empty passes the preflights when its target is stored as Unix
  bytes. Extracting from a pack writes it the bytes of the smallest non-empty object when an
  entry of that object stands before it in the request, and only then
  (`PackStream.WriteThenRead`; inputs: `EmptyLinkHit`, `LinkBehindFile`); otherwise, or if
  those bytes are no target, the link cannot be made at all. So a checkout that succeeds leaves the target in place exactly when
  no new entry is such a link (`ExtractSnapshot`; input: `EmptyLinkUnnoticed`).
- Coming back from a checkout is refused exactly when an old link target does not decode, a
  HEAD path is led astray through a link of the target, onto another link or to where a
  lookup fails, or the checkout made a link with an empty object (`ThereAndBack`; inputs:
  `WayBackClosed`, `WayBackLoops`).
- A pack and its index can be completed by a later unforced creator exactly as long as
  neither has content (`PairReclaimable`, `PairPublishable`). A creator that dies between
  publishing the one and the other ends that for good (`OrphanForever`; history:
  `EmptyDirectoryOrphans`).
- A temporary file without a lock is stale, but for the moment between making one and
  locking it (`UnlockedTemp`). A creator whose file is deleted in that moment is told that it
  may go on, and can publish never again; exactly those that still have theirs can
  (`FinishesIff`, `LostForever`; run: `SomeRunLosesTemp`).
- The merging loop reports nothing when a tag is already taken: the error inside the
  closure's result is discarded. No snapshot is lost by that exactly when equal tags carry
  equal files and every tag is pushed from somewhere (`LosslessIff`). For loose indexes
  where the store puts them this always holds (`PackingLooseIsLossless`); for indexes that
  came there in another way it may not (`TagTakenLosesSnapshot`, `TagTakenLosesTheRest`).
  Only the condition for one-snapshot indexes, `LosslessLoose`, can be checked beforehand;
  that every tag is pushed from somewhere is the loop followed on its inputs.
- Committing several documents takes two spellings of one missing file for two files and
  reports success with one document lost. Every committed document is written exactly when
  no two changes disagree about a place (`CommitDocuments`, `IdentitiesAndFiles`; input:
  `SpellingsOfOneMissingFile`).
- Rolling such a commit back restores every file; a symbolic link among the targets may
  come back as the file it led to, or not at all if it led nowhere (`CommitDocuments`,
  `BackWithoutLinks`; input: `RollbackUnlinks`).
- A pack header of 4 GiB or more does not read back (`SkippableRoundTrip`).
- Garbage collection keeps contents, not tags: a tag goes exactly when it names a loose
  snapshot that is packed and no pack that is not loose has it (`TagLost`; input:
  `TagMayBeLost`). HEAD is not spared: it resolves afterwards exactly when its pack is not
  redundant (`HeadResolves`).

## Model

| member | source | states |
|---|---|---|
| `Extraction.Repository.ExtractSnapshot` | src/repo/repository.rs:524-639 | Incremental checkout: success leaves exactly the tree `CheckedOut`, moves HEAD and reports how many paths were added, removed and modified, and the tree then holds the target if and only if no new entry is a link with an empty object; whatever fails, in a preflight, in a removal, in a write or in writing HEAD itself, HEAD is as it was and each untracked file, link and directory is there unchanged; what a preflight refuses or fails at changes nothing, and the error is for the reason it names. It succeeds only if no step has a reason to fail, and always then unless a directory it empties resists; without faults, if and only if the preflights pass, no untracked file stands above a new path and every link can be made |
| `Extraction.ObstructedUnnoticed` | src/repo/repository.rs:1888-1969 | An input whose preflights pass although an untracked file stands above a new path |
| `Extraction.EmptyLinkUnnoticed` | src/repo/symlink.rs:176-186 | An input for the exception: a new link with an empty object passes every preflight, is made only of other bytes, and then is not what it should be |
| `Extraction.CheckoutMeaning` | src/repo/repository.rs:524-633 | What `CheckedOut` means: a node of its kind at every target path, the target entry everywhere if and only if no new one is a link with an empty object, nothing of HEAD at HEAD-only paths, untracked nodes kept, and nothing from anywhere else |
| `Extraction.CountsMean` | src/repo/repository.rs:634-639 | The sizes of the two halves of the diff give the numbers of paths added, removed and modified |
| `Extraction.CheckoutPreserves` | src/repo/repository.rs:1888-1969 | The same tree keeps every untracked node |
| `Extraction.ThereAndBack` | src/repo/repository.rs:524-639 | After any successful checkout from a tree that holds HEAD the way back is never obstructed, and it succeeds if and only if the old link targets decode, no HEAD path is led astray through a link of the target (onto another link, or to where lookups fail), and the checkout made no link with an empty object; then every file and link is restored |
| `Extraction.WayBackClosed` | src/repo/repository.rs:2080-2110 | An input with a path led astray: checking out succeeds and coming back is refused |
| `Extraction.WayBackLoops` | src/repo/repository.rs:2080-2110 | Another, without a second link: the target is a link to itself, and looking behind it fails |
| `Extraction.BackClearIff` | src/repo/repository.rs:2080-2110 | The ancestor check of the way back passes exactly when no HEAD path is led astray |
| `Extraction.Repository.RunPreflights` | src/repo/repository.rs:524-593 | The preflights pass exactly when the policy, the ancestors, the link targets, the unchanged check and the collision check all do and no lookup, probe, object read or walk fails; otherwise each error has the reason it names, with the preflights before it passed (`ForReason`); nothing is changed |
| `Extraction.PreflightMakesReady` | src/repo/repository.rs:1888-1969 | Passing the preflights makes the swept tree fit for the write step; whatever can still obstruct it is untracked and was there from the start |
| `Extraction.OutputIsTracked` | src/repo/repository.rs:1888-1969 | After the removals an existing output of a new entry is a file or link HEAD names, never a directory |
| `Extraction.PreflightUntrackedCollisions` | src/repo/repository.rs:1888-1969 | Reports exactly the untracked nodes that a walk from an output comes upon, without what is below untracked directories; none exactly when every existing output belongs to HEAD |
| `Extraction.TrackedSets` | src/repo/repository.rs:1895-1903 | The collected sets are HEAD's paths and exactly their proper ancestors |
| `Extraction.CheckDestinationAncestors` | src/repo/repository.rs:2080-2110 | Passes exactly when every ancestor it would refuse, a link that stays or a failing lookup, stands behind a missing one; otherwise gives the error of the first |
| `Extraction.StoppingDecides` | src/repo/repository.rs:2080-2110 | When nothing is found below what is missing, stopping there decides the same as looking at every ancestor |
| `Extraction.WriteStep` | src/repo/symlink.rs:225-291 | One entry is written if and only if nothing untracked obstructs its parents, no fault occurs and, for a link, there is a target that decodes; what was promised about the others stays true, also when the second try of a replacement loses the old destination |
| `Extraction.MaterializeWellFormed` | src/repo/symlink.rs:248-291 | A write keeps the tree parent-closed and succeeds exactly when no ancestor is a file or link and no fault occurs |
| `Extraction.BlockedIffObstructed` | src/repo/symlink.rs:248-270 | In the middle of the write step an output is blocked exactly when something untracked obstructed it at the start |
| `Extraction.Repository.SweepRemoved` | src/repo/repository.rs:595-629 | Removing the HEAD-only files through the queue, in any order, ends in the pruned tree; it fails if one of them cannot be removed, and otherwise only if a directory resists; with faults, only removed files and emptied directories can be missing |
| `Extraction.RemoveOneMeans` | src/repo/repository.rs:604-623 | Removing one path, there or not, file or directory: it fails if the step does or something on the way is no directory, and otherwise leaves nothing at the path or below it and everything else |
| `Extraction.Repository.WriteEntries` | src/repo/repository.rs:632 | Entries are written in any order; all of them are in place exactly when no write fails and nothing obstructs |
| `Symlinks.DecodesIff` | src/repo/symlink.rs:159-191 | For every encoding: stored bytes decode to a target if and only if the target has no NUL and is stored as these bytes; the Windows encoding never does on Unix |
| `Symlinks.TargetRoundTrip` | src/repo/symlink.rs:14-19 | A target without NUL, stored and decoded, is itself |
| `Symlinks.PortableIff` | src/repo/symlink.rs:21-67 | A target is stored as portable exactly when storing it so again, for comparing, is possible |
| `Symlinks.PortableMeans` | src/repo/symlink.rs:155-176 | In so many characters, what decodes as portable: text that is not empty and has no NUL and no backslash, does not begin with a slash, and not with a letter and a colon |
| `Cleanup.QueueEqualsEager` | src/repo/fs.rs:200-298 | For any order of removals the one-slot queue ends in the same tree as cleaning up after every single removal |
| `Cleanup.QueuedCleansAll` | src/repo/fs.rs:248-298 | Loop invariant of the queue over any run: at the end nothing prunable is left and nothing else is gone |
| `Cleanup.EagerCleansAll` | src/repo/fs.rs:200-235 | The same for calling remove_empty_dirs each time |
| `Cleanup.PrunedMeaning` | src/repo/fs.rs:200-235 | The resulting tree is well formed, keeps every file and every untouched or non-empty directory, and has no touched empty directory below the boundary |
| `Cleanup.OrderIsIrrelevant` | src/repo/fs.rs:248-298 | The order in which files are removed does not show in the result |
| `Cleanup.RemoveEmptyDirsLemma` | src/repo/fs.rs:200-235 | One upward pass, stopped anywhere by a fault, removes only prunable directories, and settles everything it was responsible for when it is not stopped |
| `Cleanup.RemoveEmptyDirsBetween` | src/repo/fs.rs:200-235 | Even when it fails, a pass never removes a directory that was not touched or is not empty |
| `Cleanup.WorkDir.PruneUpwards` | src/repo/fs.rs:200-235 | Going up in place from a directory, deleting while it can, leaves the tree and the verdict of the specification function |
| `Cleanup.EmptyDirectoryCleanupQueue.Enqueue` | src/repo/fs.rs:260-289 | The slot is overwritten or flushed exactly as specified |
| `Cleanup.EmptyDirectoryCleanupQueue.Process` | src/repo/fs.rs:292-298 | Processing empties the slot and cleans up from it |
| `PathPolicy.PreflightPathPolicy` | src/repo/repository.rs:1985-2017 | Accepts a list of paths if and only if they are pairwise distinct and none is a proper component prefix of another; an error names a pair that really conflicts |
| `PathPolicy.NeighboursDecide` | src/repo/repository.rs:1999-2015 | For sorted keys, looking at neighbours decides about all pairs |
| `PathPolicy.JustifiedMeansConflict` | src/repo/repository.rs:1985-2017 | What an error reports is a conflict |
| `PathPolicy.CheckNeighbours` | src/repo/repository.rs:1999-2015 | The neighbour loop finds a conflict exactly when there is one |
| `PathPolicy.FindDuplicate` | src/repo/repository.rs:1988-1995 | The set of seen paths accepts exactly the lists without a duplicate, and names one that is |
| `AtomicFile.AlwaysInv` | src/atomicfile.rs:167-264 | In every interleaving of any number of creators, each stopping anywhere, with unlocked temporary files deleted at any time, the invariant on names, locks, owners and temporaries holds |
| `AtomicFile.NextKeeps` | src/atomicfile.rs:167-264 | Every step of every creator, and every deletion of an unlocked temporary file, keeps the invariant |
| `AtomicFile.OneOwner` | src/atomicfile.rs:61-86 | At most one creator is past `new` on a destination; it holds the lock on the inode the name denotes, and the destination is still empty |
| `AtomicFile.WriterHoldsTemp` | src/atomicfile.rs:213-231 | Past `new` a creator holds the lock of its temporary file |
| `AtomicFile.UnlockedTemp` | src/atomicfile.rs:42-44 | A temporary file without a lock is stale: in every reachable state it is that of no creator past `new`, and if anybody's then of one between making and locking it |
| `AtomicFile.SweepIsHarmless` | src/atomicfile.rs:42-44 | Deleting an unlocked temporary file touches no destination and takes nothing from a creator past `new` |
| `AtomicFile.OnceStagedKept` | src/atomicfile.rs:213-264 | Over whole runs: once past `new` with its temporary file in place, a creator keeps it until it publishes or stops, whoever deletes unlocked files meanwhile |
| `AtomicFile.FinishesIff` | src/atomicfile.rs:235-264 | A creator past `new`, left alone, can publish if and only if its temporary file is still in place and its content is not empty |
| `AtomicFile.LostForever` | src/atomicfile.rs:213-264 | One whose temporary file was deleted before it was locked never publishes |
| `AtomicFile.SomeRunLosesTemp` | src/atomicfile.rs:213-231 | And that can happen: from every start with a claimable destination some run deletes the file between the two steps, and `new` returns all the same |
| `AtomicFile.OnceWritten` | src/atomicfile.rs:235-264 | A destination with content keeps that very content for the rest of the run |
| `AtomicFile.OnlyComplete` | src/atomicfile.rs:235-264 | A destination with content holds what it held at the start or the complete content of a creator that has renamed its temporary file onto it |
| `AtomicFile.MovesChange` | src/atomicfile.rs:167-264 | A single step changes what a destination denotes only by creating it empty or by the rename of its owner |
| `AtomicFile.Reclaim` | src/atomicfile.rs:167-209 | An absent or empty destination without a lock holder can be claimed again: there is a run that fills it |
| `AtomicFile.SomeRunPublishes` | src/atomicfile.rs:167-264 | From every start with an absent or empty destination some run ends with its content published |
| `AtomicFile.MovesKeep` | src/atomicfile.rs:167-264 | Every step of every creator keeps the invariant |
| `PackPublication.IndexImpliesPack` | src/repo/repository.rs:1046-1058 | Over all runs of concurrent pack creators that may die anywhere, a pack index with content means a pack with content, written by the same creator |
| `PackPublication.AlwaysWorldInv` | src/repo/repository.rs:1153-1171 | The order of the two publications holds for every creator in every reachable state |
| `PackPublication.OrphanForever` | src/repo/repository.rs:1153-1171 | Where the guarantee stops: a pack whose creator died before its index was published stays without index whatever creators come later |
| `PackPublication.DyingOrphans` | src/repo/repository.rs:1153-1171 | Dying between the two publications brings that state about |
| `PackPublication.SomeHistoryOrphans` | src/repo/repository.rs:1153-1171 | From every start with a claimable pair some history ends in that state |
| `PackPublication.EmptyDirectoryOrphans` | src/repo/repository.rs:1046-1171 | A history from an empty data directory that ends in that state |
| `PackPublication.SomeHistoryPublishes` | src/repo/repository.rs:1153-1171 | From every such start some history ends with both files published and complete |
| `PackPublication.PairReclaimable` | src/repo/repository.rs:1153-1171 | Exactly when a pair can be completed: a process that has not begun, left alone, can publish both files if and only if neither destination has content or is locked, and both contents are non-empty |
| `PackPublication.PairPublishable` | src/repo/repository.rs:1153-1171 | The same with every other process moving or dying as it may: if and only if neither file has content |
| `PackPublication.NoReservationLeft` | src/repo/repository.rs:1042-1056 | A creator that meets a published pack leaves no empty index reservation behind: while nobody who began before is at work on it, a pack with content and without an index name stays without one, in every state of every run |
| `Algo.PartitionBy` | src/repo/algo.rs:53-84 | Contiguous non-empty slices that make up the input, at most max(1, min(n, length)) of them, all but the last within the bound and filled as far as it allows; the last exceeds the bound only if the slices asked for have run out or its first element alone does |
| `Algo.RunInParallel` | src/repo/algo.rs:9-49 | Outputs in the order of the inputs; one worker per item when there are fewer items than threads, at most 2 * nthread - 1 otherwise |
| `Algo.FewWorkers` | src/repo/algo.rs:19-38 | The bound on the number of chunks |
| `Algo.SliceLimit` | src/repo/algo.rs:58-62 | The number of slices asked for is max(1, min(n, length)) below 2^32 elements |
| `Algo.LimitWraps` | src/repo/algo.rs:58-62 | Beyond that the length is cut to 32 bits |
| `PackStream.WriteThenRead` | src/repo/pack.rs:467-577 | For all objects, every number of frames and every request: reading gives exactly the objects asked for, in order; extracting writes every entry its bytes if and only if no link with an empty object stands in the request behind an entry of the smallest other object |
| `PackStream.LinkBehindFile` | src/repo/pack.rs:737-790 | A request where the extraction goes wrong, and the same one the other way round where it does not |
| `PackStream.WritePack` | src/repo/repository.rs:1065-1131 | Frames, body and index agree: every object lies whole in one frame where the index says, no two overlap, at offset 0 there are the empty objects and the smallest other one, and there are at most max(1, min(frames asked for, objects)) frames |
| `PackStream.ComputeObjectOffsetsAndOrdering` | src/packidx.rs:491-517 | Every handle once, by size and then by handle, every object where those before it end |
| `PackStream.WriteFrames` | src/repo/repository.rs:1085-1131 | Each frame is the compressed concatenation of its partition and the table gives both its sizes |
| `PackStream.LaidIsStored` | src/packidx.rs:482-517 | Cutting the ordering into frames leaves every object whole and in its place |
| `PackStream.PrefixSums` | src/repo/pack.rs:601-619 | The arrays filled in place hold the sums of what comes before |
| `PackStream.FrameOf` | src/repo/pack.rs:637-640 | The last frame that starts at or before an offset, or none when all start behind it |
| `PackStream.AssignToFrames` | src/repo/pack.rs:624-655 | Every frame gets exactly the entries that start in it, in order, with local offsets; it fails only on a pack without frames |
| `PackStream.GatheredAll` | src/repo/pack.rs:624-655 | Every entry goes to exactly one frame: nothing is lost, nothing is read twice |
| `PackStream.OneFrame` | src/repo/pack.rs:621-640 | The frame an offset is assigned to is the one that holds the object, zero-length frames notwithstanding |
| `PackStream.LocalSlice` | src/repo/pack.rs:621-655 | At its local offset in its frame an entry finds exactly its object |
| `PackStream.FrameStream` | src/repo/pack.rs:394-425 | A decoder placed at a frame offset yields that frame and everything behind it |
| `PackStream.ReadObjects` | src/repo/pack.rs:815-839 | One forward pass, one read for entries that share an object: each gets its slice of the stream; on any stream it succeeds if and only if all that is read lies within it, with one result per entry |
| `PackStream.ExtractFiles` | src/repo/pack.rs:713-813 | The extraction loop writes each entry its slice, but a link with an empty object the one object in front of it that reaches over its offset, if there is one; so every entry gets its own if and only if there is no such pair. On any stream, cut short or not, it succeeds if and only if all that is read lies within it, and then every entry is written |
| `PackStream.HandedRight` | src/repo/pack.rs:737-790 | What the loop writes is right exactly when no link with an empty object is reached over |
| `PackStream.EmptyLinkHit` | src/repo/pack.rs:742-783 | An input: behind a file of the one byte 7 a link with an empty object is written with the target 7 |
| `PackStream.TiesByFrame` | src/repo/pack.rs:624-655 | Cutting the request into frames neither makes nor breaks such a pair: equal offsets go to one frame and keep their order |
| `Orders.SortStable` | src/repo/pack.rs:721-725 | Sorting by offset keeps the order of entries with one offset |
| `PackStream.Step` | src/repo/pack.rs:737-751 | One turn of the forward-only reader: every entry still to come starts at or behind the position or is in the buffer |
| `PackStream.PackReader.Seek` | src/repo/pack.rs:293-300 | Discarding past the end is not an error |
| `PackStream.PackReader.ReadExact` | src/repo/pack.rs:303-310 | Reading past the end is an error and consumes the rest |
| `PackStream.ReadFrames` | src/repo/pack.rs:467-577 | The results of all frames are, up to order, what the entries should get: always when objects are read, and when files are extracted if and only if there is no such pair in the request |
| `PackStream.ReadEntryObjects` | src/repo/repository.rs:681-735 | The objects come back in the order of the request |
| `SkippableFrame.SkippableRoundTrip` | src/repo/pack.rs:246-282 | The header frame reads back with its size if and only if its length fits 32 bits, and then the frames start right behind it |
| `SkippableFrame.FrameMeans` | src/repo/pack.rs:246-267 | Any frame with a magic number it accepts is read, whole; cut short anywhere it is an error |
| `SkippableFrame.MagicNumbers` | src/repo/pack.rs:241-282 | The four bytes at the front; skippable frames are accepted, frames of compressed data are not |
| `EntryPools.EntryPool.GetOrInsert` | src/entrypool.rs:40-53 | A known value gives its handle back, a new one the next; no value twice and the map stays the inverse of the list |
| `EntryPools.EntryPool.Get` | src/entrypool.rs:30-36 | Finds a value exactly when it is in the pool, at its position |
| `EntryPools.EntryPool.FromList` | src/entrypool.rs:92-133 | Deserialising keeps first occurrences in order |
| `EntryPools.InternedIsIdentity` | src/entrypool.rs:92-144 | Re-interning a list keeps every handle if and only if the list has no duplicates |
| `Snapshots.ApplyChanges` | src/packidx.rs:318-328 | No assertion fails for an applicable change set, and the set afterwards is the old one less the removed plus the added |
| `Snapshots.GetChanges` | src/packidx.rs:329-363 | The difference is applicable to the old set and leads to the new one, in whatever order sets are iterated |
| `Snapshots.ImageStep` | src/packidx.rs:621-634 | Replaying materialised entries is replaying handles: assertions and results correspond |
| `Snapshots.ApplyCount` | src/packidx.rs:637-653 | List lengths alone give the size of the set after a change |
| `PackIndexes.PackIndex.PushSnapshot` | src/packidx.rs:599-619 | A push under a new tag adds exactly that tag with exactly those files and leaves the meaning of all others alone; a known tag changes nothing |
| `PackIndexes.PackIndex.EntryToHandle` | src/packidx.rs:554-563 | The handle stands for the entry's path, checksum and metadata, and the object's place is recorded |
| `PackIndexes.PackIndex.ResolveSnapshot` | src/packidx.rs:571-580 | Finds a tag exactly when it is there, with the files it stands for |
| `PackIndexes.PackIndex.Visits` | src/packidx.rs:589-634 | Visiting every snapshot with materialised entries never fails and yields each tag with its files and the recorded places |
| `PackIndexes.PackIndex.FileCounts` | src/packidx.rs:637-653 | The counter that never replays equals the number of files of every snapshot |
| `PackIndexes.PackIndex.HandleToEntry` | src/packidx.rs:522-552 | A handle in range gives its entry, any other the error of the half that is not |
| `PackIndexes.ContentsGrow` | src/packidx.rs:554-563 | Growing the pools changes no recorded snapshot |
| `PackIndexes.KeyInjective` | src/packidx.rs:522-552 | Different handles stand for different files |
| `PackIndexes.PushStep` | src/packidx.rs:599-619 | The lists after a push replay without a failing assertion |
| `PackIndexes.PackIndex.Serialize` | src/packidx.rs:962-984 | The seven-field form: numbering the metadata list gives the map back, and the features asked for say whether some tag has a link |
| `PackIndexes.PackIndex.RequiredFeatures` | src/packidx.rs:732-743 | The feature bit is 1 if some tag has a symbolic link among its files, and 0 otherwise |
| `PackIndexes.LinksShow` | src/packidx.rs:732-743 | Looking at the changes alone decides that: they name a link exactly when some tag has one |
| `PackIndexes.Load` | src/packidx.rs:793-881 | Accepted exactly with the feature bits 0 or 1; then pools are re-interned and metadata numbered |
| `PackIndexes.SaveAndLoad` | src/packidx.rs:852-881 | A saved index loads, and every handle and every tag means what it meant |
| `PackIndexes.PourInto` | src/bin/elfshaker/pack.rs:103-110 | Visiting one index and pushing until a push fails |
| `PackIndexes.Merge` | src/bin/elfshaker/pack.rs:95-111 | The merged index holds every snapshot of every source with the same files if and only if equal tags carry equal files and every tag is pushed from somewhere; nothing is left out or joined if and only if no tag occurs twice; object places come from the sources |
| `PackIndexes.MergeLosesNothing` | src/bin/elfshaker/pack.rs:95-111 | The result is the sources one behind the other exactly when no tag occurs twice |
| `PackIndexes.MergedIsPushed` | src/bin/elfshaker/pack.rs:103-110 | What arrives: exactly the snapshots with neither their own tag nor one before them in their index taken by an earlier index |
| `PackIndexes.LosslessIff` | src/bin/elfshaker/pack.rs:95-111 | For any indexes: no snapshot is lost if and only if equal tags carry equal files and every tag is pushed from somewhere |
| `PackIndexes.LosslessLoose` | src/bin/elfshaker/pack.rs:95-111 | For indexes of one snapshot each, as loose ones are: no snapshot is lost if and only if equal tags carry equal files |
| `PackIndexes.PackingLooseIsLossless` | src/repo/repository.rs:882-895 | Loose indexes that lie where their tags say: packing any list of them, repetitions included, loses nothing |
| `PackIndexes.TagTakenLosesSnapshot` | src/bin/elfshaker/pack.rs:103-110 | Why that place matters: of two one-snapshot indexes with one tag and different files the second is dropped without an error |
| `PackIndexes.TagTakenLosesTheRest` | src/bin/elfshaker/pack.rs:103-110 | Why one snapshot each matters: in an index of two, one behind a taken tag is dropped whatever it holds |
| `Identity.IdentityDecides` | src/packidx.rs:656-685 | Two snapshots without a path twice feed the hash the same bytes if and only if they hold the same path, checksum and metadata triples |
| `Identity.StreamInjective` | src/packidx.rs:659-682 | The byte stream determines the sequence of entries |
| `Identity.KeyPrefixFree` | src/packidx.rs:662-680 | One entry can be read off the front of the stream in one way only |
| `Identity.InOrderUnique` | src/packidx.rs:656-659 | Insertion and iteration order do not show: the sorted sequence is unique |
| `Identity.SnapshotIdentity` | src/packidx.rs:656-685 | The computed stream is the identity of the snapshot's set of files; there is none exactly for an unknown tag |
| `Identity.StreamSpelled` | src/packidx.rs:659-682 | The bytes: the header, the number of entries in 8 bytes, the most significant first, and the entries |
| `Identity.EntrySpelled` | src/packidx.rs:662-680 | An entry: the length of its path in 8 bytes, the path, and what the file is |
| `Identity.TailSpelled` | src/packidx.rs:667-680 | What a file is: 0, the checksum and 4 bytes of mode, or 1, the checksum and the two tags of a link with their values |
| `Identity.HeaderSpelled` | src/packidx.rs:661 | The 31 bytes of the header, character by character |
| `Utf8.ScanFindsChar` | src/packpath.rs:245-251 | The validator finds a character exactly where the grammar of RFC 3629 has one |
| `Utf8.CharIsEncoded` | src/packpath.rs:245-251 | The grammar has exactly one character for each scalar value, its encoding |
| `Utf8.EncodedDecodes` | src/packpath.rs:267-278 | The encoding of a scalar value is a character with that code point |
| `Utf8.TruncatedMeans` | src/packpath.rs:256 | No error length exactly when the input is a character cut short |
| `Utf8.BadMeans` | src/packpath.rs:256-259 | What is reported as faulty cannot be extended to a character and is as long as possible |
| `Utf8.ValidPrefix` | src/packpath.rs:251-255 | valid_up_to is text, and what follows does not begin with a character |
| `PathEscape.EscapeBytes` | src/packpath.rs:241-265 | The loop over the shrinking remainder ends and computes the character-by-character escape |
| `PathEscape.PushEscapedStr` | src/packpath.rs:267-278 | Escapes percent signs and control characters of valid text |
| `PathEscape.EscapesListed` | src/packpath.rs:267-278 | Exactly the percent sign and the control characters of Unicode are escaped |
| `PathEscape.PercentSpelled` | src/packpath.rs:258-273 | A byte is escaped by a percent sign and two capital hexadecimal digits |
| `PathEscape.EscapeRoundTrip` | src/packpath.rs:241-278 | One percent-decoder undoes the escape for every byte string |
| `PathEscape.EscapeInjective` | src/packpath.rs:241-278 | No two paths are displayed alike |
| `PathEscape.EscapedIsPrintable` | src/packpath.rs:267-278 | The display is UTF-8 without control characters |
| `PathEscape.PlainStaysPlain` | src/packpath.rs:267-278 | Printable text without percent signs is displayed as it is |
| `PackPaths.ValidateMeans` | src/packpath.rs:184-203 | The checks in their order accept exactly the paths whose every component is a plain name |
| `PackPaths.ValidateSpelled` | src/packpath.rs:184-203 | In so many characters: no NUL, and no part between slashes that is empty, a dot or two dots |
| `PackPaths.FirstFault` | src/packpath.rs:193-201 | The error is that of the first component at fault |
| `PackPaths.ComponentsInjective` | src/packpath.rs:85-87 | Different paths have different components |
| `PackPaths.ComponentsJoined` | src/packpath.rs:85-95 | Components joined with separators split back into themselves |
| `Splitting.PartOf` | src/packpath.rs:85-87 | Every part that splitting yields stands between two separators or ends |
| `Splitting.PartAt` | src/packpath.rs:85-87 | And whatever stands so is among them |
| `PackPaths.FromNative` | src/packpath.rs:62-95 | A native path is accepted exactly when all its components are plain names, and the logical path has those components; otherwise the first component that is not normal gives the error |
| `EsiText.SplitLines` | src/esi.rs:284-311 | The lines are well formed and print back to the very bytes |
| `EsiText.PrintedInjective` | src/esi.rs:284-311 | Well-formed lines that print the same are the same |
| `EsiText.FieldThen` | src/esi.rs:313-320 | A field followed by a separator, a space or a tab, is split off |
| `EsiText.AsciiWhitespace` | src/esi.rs:422-434 | A value that passes the whitespace check has no ASCII white space in it |
| `EsiText.HexRoundTrip` | src/esi.rs:392-403 | Checksums read back |
| `EsiText.SizeRoundTrip` | src/esi.rs:405-411 | Sizes below 2^64 read back |
| `EsiDocuments.CanonicalParses` | src/esi.rs:65-83 | A canonical line parses to its entry, less the sizes version 1 has no room for |
| `EsiDocuments.Parse` | src/esi.rs:129-168 | A document that prints back to the very bytes, or the first error from the top, exactly when the lines of the bytes are not a document |
| `EsiDocuments.Create` | src/esi.rs:109-127 | The error of an invalid URL, otherwise a consistent empty document with the two header lines, given byte by byte |
| `EsiDocuments.Document.Add` | src/esi.rs:193-239 | Which error it gives, and otherwise the exact lines: a known URL has its line exchanged where it stands, a new entry comes behind the last line, which is ended first if it was not, in the ending the document uses; every other line is untouched and the document stays consistent |
| `EsiDocuments.Document.Remove` | src/esi.rs:241-254 | Which error it gives, and otherwise: the line of that URL is gone, every other line as it was |
| `EsiDocuments.Document.ToBytes` | src/esi.rs:256-268 | Prints content and ending of every line |
| `EsiDocuments.Document.PreferredLineEnding` | src/esi.rs:270-281 | The first ending there is, or a line feed |
| `EsiDocuments.PrintAndParse` | src/esi.rs:129-268 | A document after any edits prints to bytes that parse to the same lines and the same ordered entries, sizes dropped for version 1 |
| `EsiDocuments.ApplyEdits` | src/esi.rs:193-254 | Any run of edits, up to the first that is refused, keeps the document consistent and has the entries the edits say; which edit is refused is told from the entries before it |
| `EsiDocuments.ReadingsAgree` | src/esi.rs:129-168 | Two consistent readings of the same bytes agree |
| `EsiDocuments.ConsistentWithoutCr` | src/esi.rs:344-390 | No accepted line contains a carriage return, which is what makes it safe to end an unfinished last line |
| `EsiDocuments.ConsistentIsAcceptable` | src/esi.rs:129-168 | Whatever editing leads to is accepted by the parser |
| `EsiSpelling.ReadSpelled` | src/esi.rs:129-168 | For every valid URL and all entries with different valid URLs: the lines "meta v1" and "url", a space or tab between, and per entry the two checksums in hexadecimal and its URL between tabs, all lines ended in either way, or "meta v2" with the sizes of pack and index in decimal behind, are read as exactly that version, URL and entries |
| `EsiSpelling.WriteSpelled` | src/esi.rs:109-268 | A document created and filled entry by entry prints as exactly these bytes |
| `EsiSpelling.EntryMeans` | src/esi.rs:344-390 | A line is read as an entry if and only if it is text with exactly three fields, or five in version 2: two checksums, a URL without white space that can be joined, and two sizes |
| `EsiSpelling.EntryErrors` | src/esi.rs:344-438 | Otherwise the error is that of the first thing wrong with it |
| `EsiSpelling.HeaderErrors` | src/esi.rs:322-342 | What is wrong with a header line, by its fields |
| `EsiSpelling.VersionsMean` | src/esi.rs:40-54 | The versions are "v1" and "v2" and no others |
| `EsiSpelling.HexSpelled` | src/esi.rs:69-70 | A checksum is written in lower-case digits, the high one of every byte first |
| `EsiSpelling.HexMeans` | src/esi.rs:392-403 | It is read from digits of either case and from nothing else, every byte from its two digits |
| `EsiSpelling.DecimalSpelled` | src/esi.rs:80 | A size is written in decimal notation without leading zeros |
| `EsiSpelling.SizeMeans` | src/esi.rs:405-411 | It is read from decimal digits, perhaps behind a plus sign, if it is below 2^64, and from nothing else |
| `EsiSpelling.HasWhitespaceMeans` | src/esi.rs:422-434 | A text is refused for white space exactly when some whole character of it is white space |
| `EsiSpelling.WhitespaceListed` | src/esi.rs:422-434 | White space is the 25 characters with the Unicode property |
| `EsiCommit.CommitDocuments` | src/esi.rs:509-583 | Without faults it commits exactly when the identities differ. For any pattern of faults: refused means every file as it was, and two changes to one file or a failed step; committed means that every planned change was made and no step failed, and then every target and backup is written if and only if no two changes disagree about a place, in particular when the places are different; rolled back means every file as it was, but that a link among the targets may have become the file it led to; an error while rolling back means two failed steps, one of them putting a file back, and leaves every changed file put back but those whose own step failed. Nothing else is touched |
| `EsiCommit.IdentitiesAndFiles` | src/esi.rs:585-622 | Identities compare files where there are files and spellings where there are none: no two paths denote one place or lead to one file if and only if the identities differ and no two missing paths denote one place, as when missing paths are canonical |
| `EsiCommit.SpellingsOfOneMissingFile` | src/esi.rs:611-622 | An input with two spellings of one missing file: validated, committed, and the first document lost |
| `EsiCommit.AllShowIffAgree` | src/esi.rs:560-583 | After a run of changes every one of them shows if and only if no two disagree about a file |
| `EsiCommit.Rollback` | src/esi.rs:624-658 | Every changed file is put back but those whose own step failed; an error is reported if and only if there is one; without faults there is none |
| `EsiCommit.BackWithoutLinks` | src/esi.rs:624-658 | What a rollback leaves is the files as they were when no target or backup was a link |
| `EsiCommit.RollbackUnlinks` | src/esi.rs:753-756 | An input for the exception: a link to a file, changed and put back, is a file of its own |
| `EsiCommit.PublishAll` | src/esi.rs:560-583 | Makes every planned change if and only if no step of them fails; otherwise the changes before the first failing step are taken back, in reverse order, each by its own step, and an error while doing so means a second failed step |
| `EsiCommit.PublishItem` | src/esi.rs:561-570 | Success means both changes of the item were made and no step failed; otherwise those before the failing step were; the flags say exactly which |
| `EsiCommit.GiveUp` | src/esi.rs:571-583 | Everything that was changed is put back, each file by its own step; which of the two errors is reported says whether some step of that failed |
| `EsiCommit.StageWrite` | src/esi.rs:515-556 | Staging changes no file and records what to write, with which permissions, and what to restore; it fails only if one of its steps does |
| `EsiCommit.StageBackup` | src/esi.rs:523-543 | The same for a backup |
| `EsiCommit.ValidateDocumentWrites` | src/esi.rs:585-608 | Accepts only when all identities of targets and of backups asked for differ, and always then unless one of its own steps, looking one up, fails |
| `EsiCommit.PlanApart` | src/esi.rs:585-608 | Writes to different places never plan two changes that disagree |
| `EsiCommit.PutBack` | src/esi.rs:631-655 | One file is restored or removed, or nothing happens; without faults the former |
| `GarbageCollection.DataDir.Run` | src/bin/elfshaker/gc.rs:33-77 | Succeeds if and only if no deletion it makes fails; then exactly the redundant loose packs and exactly the objects no remaining loose pack lists are gone. Loses nothing, faults included; stops at the first deletion that fails; afterwards a tag is there if and only if some pack that is not redundant had it; a dry run changes nothing |
| `GarbageCollection.NoSnapshotLost` | src/bin/elfshaker/gc.rs:33-77 | Whatever was a snapshot has an equal identity somewhere still, and no file of a loose snapshot that stays has lost its object |
| `GarbageCollection.DataDir.FindDuplicateSnapshots` | src/repo/repository.rs:1291-1333 | The groups hold every snapshot of every pack under its identity, once |
| `GarbageCollection.DataDir.FindRedundantLoosePacks` | src/repo/repository.rs:1341-1373 | Exactly the loose packs whose snapshot some pack that is not loose has, each once |
| `GarbageCollection.ChosenIsRedundant` | src/repo/repository.rs:1341-1373 | Filtering the groups selects the redundant packs and no others |
| `GarbageCollection.DataDir.FindUnreferencedObjects` | src/repo/repository.rs:1385-1426 | What is on disk less what the roots list |
| `GarbageCollection.DataDir.LoosePacks` | src/repo/repository.rs:373-387 | Exactly the loose packs, each once |
| `GarbageCollection.DataDir.CollectSnapshots` | src/bin/elfshaker/gc.rs:39-62 | Succeeds if and only if none of its deletions fails; every redundant pack is found among the roots, so taking it off never fails |
| `GarbageCollection.DataDir.CollectObjects` | src/bin/elfshaker/gc.rs:64-77 | Succeeds if and only if none of its deletions fails; no object the roots list is deleted, and on success every other one is |
| `GarbageCollection.TagLost` | src/repo/repository.rs:1322-1373 | Exactly when a collection takes a tag away: it names a loose snapshot whose content is packed, and no pack that is not loose has the tag |
| `GarbageCollection.HeadResolves` | src/bin/elfshaker/gc.rs:39-62 | HEAD is no root: a successful collection leaves it resolving if and only if the pack it names is not redundant |
| `GarbageCollection.TagMayBeLost` | src/repo/repository.rs:1322-1325 | Content is compared, not tags: an input for which a tag goes |
| `Ids.LooseIndexesApart` | src/repo/repository.rs:882-884 | Different valid tags have different index paths, and none is an ancestor of another, letter case ignored |
| `Ids.PrintParse` | src/repo/pack.rs:218-238 | A printed id parses to itself |
| `Ids.ParsePrint` | src/repo/pack.rs:228-238 | What parses is valid and prints as what was parsed |
| `Ids.HeadRoundTrip` | src/repo/repository.rs:298-316 | HEAD gives back the id written to it, with or without a line break of either kind |
| `Ids.LoosePackValid` | src/repo/pack.rs:81-97 | The pack of a loose snapshot is valid exactly when its tag is |
| `Ids.RegularPackMeans` | src/repo/pack.rs:103-114 | Character by character: a regular pack name has ASCII letters, digits, hyphens and underscores, with single slashes between, and does not begin with "loose/" |
| `Ids.TagMeans` | src/repo/pack.rs:163-215 | A tag is valid if and only if it is not empty, every character may stand in one, and no part between slashes is empty, begins with a space, ends in a space or dot, is a device of MS-DOS with an extension, or a directory that looks like an index |
| `Ids.ComponentMeans` | src/repo/pack.rs:170-215 | The same for one part, device names and the extension in any mix of letter cases |
| `Ids.PlainTags` | src/repo/pack.rs:103-199 | Whatever would do as a pack name would do as a tag |
| `Ids.ParseMeans` | src/repo/pack.rs:81-110 | Which error an id gives, by its two halves |
| `Ids.IndexPathNamesPack` | src/repo/pack.rs:74-78 | The pack found from an index path is the one it was written for |
| `Ids.TagWithoutColon` | src/repo/pack.rs:163-199 | A valid tag has no colon |

## Left out

- PackStream.WriteThenRead: zstd is any codec whose decoder, started at a frame, yields that frame and what is behind it; checksum verification on reading is not modelled.
- PackStream.ExtractFiles: checksum verification, which when asked for reports a link written with other bytes.
- PackStream.ReadEntryObjects: entries of a pack file; the branch that reads loose objects one by one, and the checksum check behind both, are not modelled.
- PackStream.ReadFrames: worker threads are taken one after the other; that this does not show is what `RunInParallel` proves. The assertion that a pack has frames is an error here.
- PackIndexes.PackIndex.PushSnapshot: handles are unbounded numbers; the 32-bit cut of pool sizes is not modelled. The same goes for 64-bit sums of sizes and offsets throughout.
- PackIndexes.Load: MessagePack is taken as field by field, so decoding errors and a wrong number of fields do not occur; optional extensions are ignored, and an index whose handles are out of range is not considered: indexes come from pushes.
- PackIndexes.PackIndex.Visits: a closure that breaks off is modelled by its caller looking at the visits up to there.
- Identity.IdentityDecides: SHA-1 itself; equal identity means equal input to the hash.
- Identity.SnapshotIdentity: says nothing about snapshots that hold a path twice, whose order depends on the hash set.
- Extraction.Repository.ExtractSnapshot: forced extraction and --reset, which drop these guarantees on purpose; Windows and macOS path keys and symlink kinds. Modification times are a predicate: the node is what HEAD recorded. On a read-only repository HEAD is not moved; here it can be written or fails to be. The directory made to try whether links can be made is gone again, also when trying fails. What a lookup finds behind a symbolic link, and what the extraction buffer holds for a link with an empty object, are parameters; of the latter `PackStream.WriteThenRead` says what it can be. The removed paths may come in any order, so the sorting heuristic does not matter.
- Extraction.WriteStep: temporary files of a write and their names; a write leaves none behind in the model.
- Cleanup.QueueEqualsEager: one boundary for the whole queue, as its only caller has it.
- AtomicFile.OnlyComplete: rename, unlocking and returning are one step, so it speaks of creators that have renamed, not of ones that have returned.
- AtomicFile.AlwaysInv: hard links, and the Windows variant with its claim file; a crash may leave a temporary file behind, as in the code.
- PackPublication.IndexImpliesPack: forced pack creation, and restoring a missing pack beside an index that is already published.
- EsiDocuments.Parse: the text and line number of an error message, and which of the two sizes was wrong; Url::parse and Url::join are parameters.
- EsiCommit.CommitDocuments: staging files and their removal. A file system step that fails changes nothing. How a path is spelled out and where links lead is a parameter, asked for only before anything is published; a link that leads in a circle or to a directory counts as a failing read.
- GarbageCollection.DataDir.LoosePacks: the order by modification time.
- GarbageCollection.DataDir.Run: freed bytes, locks and reading errors; indexes are read as values.
- Ids.LooseIndexesApart: Unicode categories are a parameter of which only the line break characters are known.
- Remote fetching, TLS trust and date headers (src/repo/remote.rs): a network client over libraries that are not part of this model.
- Legacy index versions 1 and 2 (src/legacy_path.rs): decoding needs UTF-16 and keeps handles only when distinct wire paths decode to distinct logical paths.
- The command line, progress and logging, listing, finding and showing: user interface.
- File modes and permissions beyond carrying them along.
