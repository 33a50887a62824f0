# LimitlessOS kernel core: a verified model

This project models the four components of the LimitlessOS kernel whose behaviour is hardest
to see from one function body, and proves what they keep over whole runs.

* **RAM file system** (`Ramfs*.dfy`). A flat table of node slots with parent links is shown to
  be a tree at all times; paths and live nodes are in bijection; a move is exactly a re-rooting
  of one subtree; create, delete, write and move back undo or frame one another. Those results
  are about names, which is how the code works on NUL-free paths; `RamfsBytes`, `RamfsForest`,
  `RamfsBytePaths` and `RamfsByteMoves` treat paths as the arbitrary bytes the code accepts,
  `RamfsNul` says exactly where NULs in them make a difference, and `RamfsOverrun` exactly which
  of them make a comparison leave its buffer.
* **Scheduler, message broker and services** (`Scheduler*.dfy`, `Ipc*.dfy`, `Kernel*.dfy`,
  `Machine.dfy`). Sends, timer ticks, service callbacks, user requests and process exits are
  steps of one state machine. Wakeups are never lost, what is queued is delivered within a fixed
  number of turns, queues hold only what the routing rules allow, accepted messages are conserved,
  a request is refused exactly for the reasons that the rules give, the rate limit survives the
  wrap of the tick counter, ages and picks follow from a diary of the calls alone, and the
  init/ai-policy conversation is finite and ends with the user processes spawned.
* **Package store** (`Fnv.dfy`, `Archive*.dfy`, `PackageStore.dfy`). Which bytes validate, the
  readers that rely on it, what the masked 32-bit FNV-1a checksum (section 2 of
  draft-eastlake-fnv) detects, and when parsing undoes encoding.
* **Physical memory** (`FrameBits.dfy`, `Memory*.dfy`). A bump allocator and a frame bitmap
  share one region; nothing handed out ever overlaps or leaves the memory that the loader
  reported, and the free counter mirrors the bitmap.

Each component has three layers: functions on values that say what an operation does
(`RamfsTable`, `SchedulerSpec`, `IpcSpec`, `KernelSpec`, `Archive`, `MemorySpec`), lemmas about
those functions and about every run of them, and a class with the source's arrays, counters and
loops whose methods are proved to compute those functions. `Prelude.dfy` and `CStrings.dfy` hold
what the components share.

`dafny verify dfyconfig.toml` checks the whole project.

## Where the code differs from what one might expect

* A process that exits while its handshake is still queued is no longer a user endpoint, so the
  policy service answers it to `init`. Hence more than one approval can reach `init`:
  `KernelOrphan.ExitCanApproveTwice` is a run of timer interrupts from boot in which two do, and
  `KernelApprovals.AtMostOneApprovalIff` says that at most one does exactly in the runs that never
  give the policy service its turn while such an orphaned handshake is queued.
* The checksum notices every change within three adjacent bytes; within four it does not
  (`ArchiveCollision.FourBytesCollide`).
* The generator's string table is a PowerShell hashtable, whose keys ignore case, and names are
  stored up to a NUL. Parsing therefore undoes encoding exactly when no two names differ only in
  case and no name holds a NUL (`ArchiveRoundTrip.RoundTripIff`).
* The generator records checksum 1 for an image whose digest is 0, while the kernel computes 0
  and refuses records with checksum 0. A sound store generated for an image becomes ready exactly
  when that digest is not 0 (`ArchiveRecord.ImageReadyIff`); the four bytes CC 24 31 C4 are an
  image that never does (`ArchiveRecord.ZeroDigestRefused`).
* `ramfs_walk_parent` refuses a path that ends in a "." segment although `ramfs_open` accepts it
  (`RamfsRuns.WalkFailsOnlyOnTrailingDot`); every node has such a path
  (`RamfsRuns.TrailingDotOpens`).
* Names are stored with whatever bytes follow a NUL, and read only up to it. The sibling lookup
  can therefore miss a node of the same name, exactly when the new leaf holds a NUL and its C
  string has fewer than 30 bytes (`RamfsNul.LookupMissesIff`). Two creates then leave two siblings
  that read alike, and deleting the name once does not close it (`RamfsNul.BootNameSplits`); nor
  does renaming it to a name that still matches (`RamfsNul.RenameStaysOpen`). What a move leaves
  at its source, and when moving back restores the table, is stated exactly
  (`RamfsByteMoves.ByteMoveClosesIff`, `RamfsByteMoves.ByteMoveBackIff`). An operation keeps the
  tree exactly when the leaf it stores, if any, has nothing but NULs behind a legal name
  (`RamfsNul.StepKeepsTreeIff`); the weaker forest invariant survives every path
  (`RamfsForest.ByteRunKeepsForest`).
* The comparison of a name with a segment does not stop at the end of the 32-byte name buffer. It
  reads on exactly for segments of 32 bytes or more whose 32nd byte is NUL
  (`RamfsOverrun.OverrunIff`): after creating the first 31 bytes of such a segment, looking the
  segment up does (`RamfsOverrun.ReadableFromBootIff`).
* `memory_release_frame` does not check ownership; `MemoryRuns.ReleaseSafeIff` says which
  addresses may be released, and `MemoryRuns.BitmapReleaseUnsafe` that the bitmap's own frame may
  not.

## Model

| member | source | states |
|---|---|---|
| RamfsPath.SegmentsConcat | kernel/core/ramfs.c:730-763 | the segments of `a/b` are those of `a` followed by those of `b`, for all byte strings |
| RamfsPath.SegmentsOfRun | kernel/core/ramfs.c:730-763 | a slash-free path denotes itself, unless it is empty or ".": with the row above, what every path denotes |
| RamfsPath.SegmentsSplit | kernel/core/ramfs.c:593-659 | when the last raw run is not ".", the kept segments are the earlier ones without dots plus that run, for all byte strings; on a NUL-free path that run is a legal name |
| RamfsPath.SpellSegments | kernel/core/ramfs.c:730-763 | spelling legal names with slashes and splitting again gives the names back |
| RamfsTree.PathBijection | kernel/core/ramfs.c:387-410 | in a tree, a segment list resolves to a live slot exactly when it is that slot's path |
| RamfsTree.EveryNodeOpens | kernel/core/ramfs.c:695-771 | every live node is opened, from the root, by the spelling of its own path |
| RamfsMove.AncestorIsPrefix | kernel/core/ramfs.c:433-454 | the parent-chain test holds exactly when one node's path is a prefix of the other's |
| RamfsMove.RelinkedTree | kernel/core/ramfs.c:1020-1034 | relinking under a directory outside the subtree, to a free name, keeps a tree |
| RamfsMove.MoveReroots | kernel/core/ramfs.c:1020-1034 | after relinking, every path resolves as the old tree does with the source prefix exchanged for the destination prefix |
| RamfsMove.RelinkBack | kernel/core/ramfs.c:1020-1034 | relinking back restores the table exactly |
| RamfsRuns.WalkFacts | kernel/core/ramfs.c:542-660 | a successful parent walk gives the resolution of all segments but the last, a live directory, plus that last segment |
| RamfsRuns.WalkAgreesWithOpen | kernel/core/ramfs.c:542-771 | opening a path is looking the walk's leaf up below the walk's parent |
| RamfsRuns.WalkFailsOnlyOnTrailingDot | kernel/core/ramfs.c:593-659 | for a path that opens, the parent walk succeeds exactly when its last raw segment exists and is not "." |
| RamfsRuns.TrailingDotOpens | kernel/core/ramfs.c:623-763 | in every tree, every live node's own path followed by "/." opens it and is refused by the parent walk |
| RamfsRuns.OpenComposes | kernel/core/ramfs.c:695-771 | opening `a/b` is opening `b` from the directory that `a` opens |
| RamfsRuns.AddedResolves | kernel/core/ramfs.c:474-508 | a new node adds exactly its own path to what resolves |
| RamfsRuns.CreateKeepsTree | kernel/core/ramfs.c:773-830 | create keeps a tree, whether it succeeds or not |
| RamfsRuns.CreateThenOpen | kernel/core/ramfs.c:773-830 | a successful create is followed by an open of the same path giving the same id and kind |
| RamfsRuns.RemovedResolves | kernel/core/ramfs.c:1053-1087 | removing a childless node removes exactly its own path from what resolves |
| RamfsRuns.DeleteCloses | kernel/core/ramfs.c:1053-1087 | a successful delete keeps a tree, closes the path, and leaves every other path as it was |
| RamfsRuns.DeleteUndoesCreate | kernel/core/ramfs.c:773-1087 | deleting what was just created restores the whole table |
| RamfsRuns.MoveOpensDestination | kernel/core/ramfs.c:960-1035 | after a move to a free path the destination opens to the id that the source had |
| RamfsRuns.MoveClosesSource | kernel/core/ramfs.c:960-1035 | after that move the source path no longer opens |
| RamfsRuns.MoveIsRerooting | kernel/core/ramfs.c:960-1035 | that move keeps a tree, exchanges one path prefix for another for all paths, keeps every relative path below the node, and changes only the node's parent and name |
| RamfsRuns.MoveOntoExisting | kernel/core/ramfs.c:1011-1018 | a move onto an existing path changes nothing and succeeds exactly when both walks succeed and both paths open the same node |
| RamfsRuns.MoveSucceedsIff | kernel/core/ramfs.c:960-1035 | a move to a free path succeeds exactly when both walks succeed, the source opens, the new name has fewer than 32 bytes, and the source's path is no prefix of the destination parent's |
| RamfsRuns.MoveKeepsTree | kernel/core/ramfs.c:960-1035 | every move, successful or not, keeps a tree |
| RamfsRuns.MoveBack | kernel/core/ramfs.c:960-1035 | moving back succeeds and restores the table exactly |
| RamfsRuns.WriteOverwrites | kernel/core/ramfs.c:916-958 | a write stores as much as fits, fills a gap with zeros, and changes only that file's bytes and length |
| RamfsRuns.ReadAfterWrite | kernel/core/ramfs.c:888-958 | reading what was written returns it, and bytes before the offset are unchanged |
| RamfsRuns.WriteKeepsTree | kernel/core/ramfs.c:916-958 | writing keeps a tree and what every path resolves to |
| RamfsFiles.ReadIs | kernel/core/ramfs.c:888-914 | in every forest a read fails exactly without a live file of that id or past its end; otherwise it gives the bytes from the offset on, as many as the file and the capacity allow |
| RamfsFiles.ReadsJoin | kernel/core/ramfs.c:888-914 | reading on where a read stopped is one longer read, and a read stops short only at the end of the file |
| RamfsFiles.WriteIs | kernel/core/ramfs.c:916-958 | a write fails exactly without a live file or past byte 256; otherwise its count, the new length, every byte and the unchanged rest are given |
| RamfsFiles.ReadOfWrite | kernel/core/ramfs.c:888-958 | any range of a written file reads as those bytes, and every other file as before |
| RamfsFiles.NewFileIsEmpty | kernel/core/ramfs.c:773-914 | a file just created reads as nothing |
| RamfsFiles.ListingIsLines | kernel/core/ramfs.c:832-886 | a listing is one line for each live child in slot order: its name, a slash if it is a directory, a line end |
| RamfsFiles.CutIsLines | kernel/core/ramfs.c:832-886 | a listing that does not fit has the lines of the children before the first that does not; that line follows without its end if it is a directory's and misses by one byte |
| RamfsRuns.RunKeepsTree | kernel/core/ramfs.c:773-1087 | every run of create, write, move, rename and delete on NUL-free paths keeps a tree |
| RamfsBytes.BufferMatchesIsEquality | kernel/core/ramfs.c:352-370 | for NUL-free segments the byte comparison is equality of the stored C string |
| RamfsBytes.PathsAgree | kernel/core/ramfs.c:542-771 | on a tree and a NUL-free path, opening and walking by byte comparison is opening and walking by name |
| RamfsBytes.OperationsAgree | kernel/core/ramfs.c:773-1087 | there, create, delete and move by byte comparison are create, delete and move by name |
| RamfsBytes.ReadableIsWalkAndLeaf | kernel/core/ramfs.c:542-660 | a path whose lookups all stay within the name buffers is one whose parent walk does and whose leaf's lookup does |
| RamfsForest.ByteRunKeepsForest | kernel/core/ramfs.c:773-1087 | every run on whatever bytes keeps sound slots, a directory above every node, and parent chains that reach the root |
| RamfsForest.RelinkedForest | kernel/core/ramfs.c:1020-1034 | relinking outside the node's own subtree keeps all of that, with any name that fits |
| RamfsForest.RunAgrees | kernel/core/ramfs.c:773-1087 | from a tree, NUL-free runs by bytes are the runs by name |
| RamfsBytePaths.ByteWalkAgrees | kernel/core/ramfs.c:542-771 | on any bytes, opening a path is looking the walk's leaf up below the walk's parent |
| RamfsBytePaths.ByteWalkFailsIff | kernel/core/ramfs.c:593-659 | on any bytes that open, the parent walk succeeds exactly when the last raw segment exists and is not "." |
| RamfsBytePaths.WalkStays | kernel/core/ramfs.c:542-660 | a parent walk is undisturbed by a change to one node that is not above its end and afterwards hangs only there |
| RamfsBytePaths.ByteCreateThenOpen | kernel/core/ramfs.c:773-830 | on any bytes, a successful create is followed by an open of the same path giving the same id and kind |
| RamfsBytePaths.ByteDeleteUndoesCreate | kernel/core/ramfs.c:773-1087 | on any bytes, deleting what was just created restores the whole table |
| RamfsBytePaths.ByteDeleteUncovers | kernel/core/ramfs.c:1053-1087 | on any bytes, after a delete the path opens the next sibling that its last segment matches, and nothing exactly when there is none |
| RamfsBytePaths.ByteMoveOpens | kernel/core/ramfs.c:960-1035 | on any bytes, after a move that changes the table the destination opens to the id that the source had |
| RamfsBytePaths.ByteMoveOntoExisting | kernel/core/ramfs.c:1011-1018 | on any bytes, a move onto a path that opens changes nothing and succeeds exactly when both walks succeed and end at one node |
| RamfsByteMoves.ByteMoveSource | kernel/core/ramfs.c:960-1035 | on any bytes, after a move that changes the table the source path opens the next sibling that its last segment matches, unless the moved node captures the path where it passes the destination directory; then it goes on below that node |
| RamfsByteMoves.ByteMoveClosesIff | kernel/core/ramfs.c:960-1035 | hence the exact condition, on the table before the move, for the source path to close |
| RamfsByteMoves.ByteMoveBackIff | kernel/core/ramfs.c:960-1035 | on any bytes, moving back succeeds and restores the table exactly when the moved node does not capture the source path, no second sibling matches there, and the node's buffer was its padded leaf |
| RamfsOverrun.OverrunIff | kernel/core/ramfs.c:352-370 | the comparison with some stored leaf's buffer runs past it exactly when the segment has 32 bytes or more and its 32nd is NUL |
| RamfsOverrun.InBoundsReadable | kernel/core/ramfs.c:387-410 | paths without such a segment are read within the buffers of every forest, from every base |
| RamfsOverrun.PlainIsReadable | kernel/core/ramfs.c:387-410 | so are all NUL-free paths |
| RamfsOverrun.PlainMoveIsReadable | kernel/core/ramfs.c:960-1035 | and all moves between NUL-free paths |
| RamfsOverrun.CreateThenOverrun | kernel/core/ramfs.c:352-508 | in every forest with a free slot, after creating the first 31 bytes of such a segment, looking the segment up runs past a buffer |
| RamfsOverrun.ReadableFromBootIff | kernel/core/ramfs.c:662-830 | from boot, a one-segment path is read within the buffers after every run exactly when it is no such segment |
| RamfsNul.LookupMissesIff | kernel/core/ramfs.c:352-410 | some stored leaf of the same C string is missed by the sibling lookup exactly when the leaf holds a NUL and its C string has fewer than 30 bytes |
| RamfsNul.AddedTreeIff | kernel/core/ramfs.c:474-508 | a new node whose lookup failed keeps a tree exactly when its leaf is a legal name with only NULs behind it |
| RamfsNul.RelinkedTreeIff | kernel/core/ramfs.c:1020-1034 | the same for a relinked node |
| RamfsNul.CreateChangesIff | kernel/core/ramfs.c:773-830 | create changes a forest exactly when its guards pass: a legal kind, a walk, no match, a leaf that fits and a free slot |
| RamfsNul.MoveChangesIff | kernel/core/ramfs.c:960-1035 | move changes a forest exactly when its guards pass: both walks, a source, no match at the destination, a leaf that fits, and no directory moved below itself |
| RamfsNul.StepKeepsTreeIff | kernel/core/ramfs.c:773-1087 | an operation on whatever bytes keeps a tree exactly when its guards refuse it or the leaf of its path is such a leaf |
| RamfsNul.RunStaysTreeIff | kernel/core/ramfs.c:773-1087 | a run on whatever bytes is a tree throughout exactly when every leaf that passes those guards is such a leaf |
| RamfsNul.NulLeafSplitsName | kernel/core/ramfs.c:352-508 | in every tree with a free slot, beside every node with a name of fewer than 30 bytes a create of "name NUL x" succeeds and leaves two siblings of one C string |
| RamfsNul.TwoCreatesSplitName | kernel/core/ramfs.c:352-508 | where no node has the name, creating "name NUL x" and then "name NUL" does so too |
| RamfsNul.DeleteLeavesTwin | kernel/core/ramfs.c:1053-1087 | after those creates, deleting the name succeeds and the name still opens, to the second node |
| RamfsNul.BootNameSplits | kernel/core/ramfs.c:177-204 | both on the kernel's own table, with the name "a" below the root |
| RamfsNul.RenameStaysOpen | kernel/core/ramfs.c:1037-1051 | in every tree, renaming any node with a name of fewer than 30 bytes to "name NUL x" succeeds and the old name still opens it |
| RamfsSeed.SeededTree | kernel/core/ramfs.c:510-540 | copying sound seeds one by one yields a tree |
| RamfsSeed.BootSeedsOk | kernel/core/ramfs.c:177-204 | the built-in seeds are sound, whatever their texts |
| RamfsFiles.SeededFileReads | kernel/core/ramfs.c:510-540 | a seeded file reads as its text, or as nothing if the text has more than 256 bytes |
| RamfsFiles.SeedNameStored | kernel/core/ramfs.c:510-540 | a seed's name is stored up to 31 bytes |
| RamfsFiles.BootHasRoom | kernel/core/ramfs.c:177-204 | the kernel boots with exactly the first 26 of 64 slots live |
| Ramfs.EveryRunFromBootIsTree | kernel/core/ramfs.c:662-1087 | from the built-in seeds, every NUL-free run keeps a tree |
| Ramfs.EveryRunFromBootIsForest | kernel/core/ramfs.c:662-1087 | from the built-in seeds, every run on whatever bytes keeps the forest |
| RamfsSeed.SeedTakesNext | kernel/core/ramfs.c:510-540 | the next seed of a sound table goes to the next slot, which has the seed's id |
| Ramfs.Ramfs.constructor | kernel/core/ramfs.c:662-671 | initialisation leaves exactly the seeded table, which is a tree |
| Ramfs.Ramfs.Boot | kernel/core/ramfs.c:177-204 | booting on the built-in seeds meets the constructor's demands |
| Ramfs.Ramfs.CopySeed | kernel/core/ramfs.c:510-540 | overwrites the node that has the seed's id, else the first free slot, else nothing, and no other slot |
| Ramfs.Ramfs.TextEqualsSegment | kernel/core/ramfs.c:352-370 | true exactly when the buffer holds the segment and then a NUL; for a NUL-free segment, when the C string equals it; reads no byte outside the buffer, on every segment that allows it |
| Ramfs.Ramfs.FindNode | kernel/core/ramfs.c:372-385 | the first live slot with the id; where slots carry their own ids, that slot exactly when it is live |
| Ramfs.Ramfs.FindChild | kernel/core/ramfs.c:387-410 | the first live child whose buffer matches the segment, or none |
| Ramfs.Ramfs.CountChildren | kernel/core/ramfs.c:412-431 | the number of live children, none for a file; non-zero exactly when there is one |
| Ramfs.Ramfs.ParentChainContains | kernel/core/ramfs.c:433-454 | from any id the loop ends and answers the ancestor question |
| Ramfs.Ramfs.AllocateNode | kernel/core/ramfs.c:456-472 | zeroes and numbers the first free slot, or changes nothing |
| Ramfs.Ramfs.CreateChild | kernel/core/ramfs.c:474-508 | fills the first free slot with the new node, or changes nothing |
| Ramfs.Ramfs.WalkToParent | kernel/core/ramfs.c:542-660 | on any bytes whose lookups stay within the buffers, computes the parent walk of the specification |
| Ramfs.Ramfs.OpenPath | kernel/core/ramfs.c:695-771 | on any bytes whose lookups stay within the buffers, computes the fold of child lookup over the segments |
| Ramfs.Ramfs.CreatePath | kernel/core/ramfs.c:773-830 | on any bytes whose lookups stay within the buffers, new table and id are those of `ByteCreate` and the forest is kept; from a tree on a NUL-free path, the table is that of `Create` and a tree |
| Ramfs.Ramfs.MovePath | kernel/core/ramfs.c:960-1035 | on any bytes whose lookups stay within the buffers, new table and verdict are those of `ByteMove` and the forest is kept; from a tree on NUL-free paths, the table is that of `Move` and a tree |
| Ramfs.Ramfs.RenamePath | kernel/core/ramfs.c:1037-1051 | a move with one base, with the same two guarantees |
| Ramfs.Ramfs.DeletePath | kernel/core/ramfs.c:1053-1087 | on any bytes whose lookups stay within the buffers, new table and verdict are those of `ByteDelete` and the forest is kept; from a tree on a NUL-free path, the table is that of `Delete` and a tree |
| Ramfs.Ramfs.ReadFile | kernel/core/ramfs.c:888-914 | returns a result exactly for a live file and an offset not past its end, and then the bytes from there on, as many as the file and the capacity allow |
| Ramfs.Ramfs.WriteFile | kernel/core/ramfs.c:916-958 | new table and count are those of `Write`; the forest is kept, and a tree stays one |
| Ramfs.Ramfs.ListDirectory | kernel/core/ramfs.c:832-886 | the whole listing exactly when it fits; otherwise the lines before the first that does not fit, plus that line without its line end when it is a directory's and misses by one byte |
| SchedulerSpec.PickIsPick | kernel/core/scheduler.c:208-276 | the single-pass scan returns the task of the declarative rule (urgent by priority and age, else by score, ties by cyclic order), and none only if no task is due |
| SchedulerSpec.PickUnique | kernel/core/scheduler.c:208-276 | that rule determines one task |
| SchedulerSpec.ScanBest | kernel/core/scheduler.c:218-271 | the running best after k tasks beats, or precedes, every due task scanned |
| SchedulerRuns.RunsKeepOk | kernel/core/scheduler.c:34-393 | every run of registrations, ticks, wakes and task runs keeps the table bounds and "urgent implies ready and due" |
| SchedulerRuns.UrgentImpliesDueFromBoot | kernel/core/scheduler.c:339-393 | urgent flags imply ready and due in every state reachable from boot |
| SchedulerRuns.RunOneIdleIff | kernel/core/scheduler.c:278-335 | a turn leaves the state alone exactly when no task is due |
| SchedulerRuns.UrgentPickIsTop | kernel/core/scheduler.c:234-270 | with urgent tasks the pick is urgent and of highest priority among them |
| SchedulerRuns.QuietRunRemovesPick | kernel/core/scheduler.c:287-328 | a turn whose callback wakes nothing removes exactly the pick from the urgent tasks |
| SchedulerRuns.UrgentDrain | kernel/core/scheduler.c:202-337 | with n urgent tasks and callbacks that wake nothing, the next n picks are exactly those tasks in non-increasing priority |
| SchedulerRuns.AgingIsSharp | kernel/core/scheduler.c:50-66 | across a priority gap of at most three, the older task scores higher exactly when it waited more than four ticks per level; across four it never does |
| SchedulerRuns.AgedIsNotPassedOver | kernel/core/scheduler.c:234-270 | so a task that waited that long is not passed over for a fresh one |
| SchedulerRuns.CriticalBeatsBackground | kernel/core/scheduler.c:234-270 | while a fresh critical task is never passed over for a background one |
| SchedulerLives.SchedulerKeepsDiary | kernel/core/scheduler.c:34-393 | over every run from boot the scheduler is what a diary of its calls says: a task is due exactly from the tick its last registration, wake, sleep or turn gave it, its age is the ticks since then up to 15, and flags, run counts and the next pick follow |
| SchedulerLives.PickIsChoice | kernel/core/scheduler.c:208-276 | the pick is the one that the diary's rule chooses: an urgent task of highest priority and greatest age, else of greatest priority weight plus age, the next in the round on ties |
| SchedulerLives.AgesFromItsTick | kernel/core/scheduler.c:50-66 | a task that may run from a tick on, and is left alone, has the age of the ticks since that tick, whatever else runs |
| SchedulerLives.PeriodicAge | kernel/core/scheduler.c:313-328 | a periodic task that ran and asked for nothing is due again, and ages, from one period after its turn |
| SchedulerLives.WokenAge | kernel/core/scheduler.c:34-48 | a woken task is due at once and ages from the wake |
| SchedulerLives.LastGoesLast | kernel/core/scheduler.c:287-293 | after a turn the round starts behind the task that ran, which comes last in it |
| Scheduler.Scheduler.constructor | kernel/core/scheduler.c:127-138 | the empty scheduler |
| Scheduler.Scheduler.RegisterCommon | kernel/core/scheduler.c:68-99 | appends a ready task, or refuses a full table or a missing callback and changes nothing |
| Scheduler.Scheduler.MarkTaskReady | kernel/core/scheduler.c:34-48 | one task marked ready from the given tick, no other touched; `SchedulerLives.SchedulerKeepsDiary` says what that makes of every later age |
| Scheduler.Scheduler.Tick | kernel/core/scheduler.c:101-200 | one tick later, every sleeper whose time has come is ready and no other task changed |
| Scheduler.Scheduler.WakeTask | kernel/core/scheduler.c:369-377 | the new state is `Wake` of the old |
| Scheduler.Scheduler.WakeTaskUrgent | kernel/core/scheduler.c:379-393 | the new state is `WakeUrgent` of the old |
| Scheduler.Scheduler.WaitTask | kernel/core/scheduler.c:339-348 | the new state is `WaitCurrent` of the old |
| Scheduler.Scheduler.SleepTask | kernel/core/scheduler.c:350-367 | the new state is `SleepCurrent` of the old |
| Scheduler.Scheduler.AgeBonus | kernel/core/scheduler.c:50-66 | the capped age |
| Scheduler.Scheduler.Select | kernel/core/scheduler.c:208-276 | the loop returns the task of the declarative rule, none only if no task is due |
| Scheduler.Scheduler.BeginRun | kernel/core/scheduler.c:287-293 | the new state is `Begin` of the old |
| Scheduler.Scheduler.FinishRun | kernel/core/scheduler.c:313-328 | the new state is `Finish` of the old |
| Scheduler.Scheduler.RunReady | kernel/core/scheduler.c:202-337 | runs the picks one after another; the budget is left unused only when no task is due |
| IpcRuns.RoutesAllowed | kernel/core/ipc.c:112-173 | an admitted message is at most two deep, reaches init only from the policy service, driver-host only from init or itself, and the policy service only from init, itself or a user handshake |
| IpcRuns.EnqueueKeepsQueues | kernel/core/ipc.c:175-235 | distinct non-zero sources in the policy queue, and an interactive last message when it is full |
| IpcRuns.EnqueueConserves | kernel/core/ipc.c:232-242 | accepted stays received followed by queued |
| IpcRuns.DequeueConserves | kernel/core/ipc.c:245-268 | the same across a receive |
| IpcRuns.EnqueueKeepsEdges | kernel/core/services.c:887-920 | each tracked edge's count, depth and flags stay the fold over the accepted messages of its pair, and no pair is tracked twice |
| IpcRuns.EnqueueKeepsComplete | kernel/core/services.c:148-171 | a pair goes untracked only when all sixteen edges are in use |
| IpcRuns.WrappedGap | kernel/core/services.c:834-838 | the difference of wrapped tick counters never exceeds the true gap |
| IpcRuns.EnqueueKeepsRate | kernel/core/services.c:806-885 | accepted ordinary messages of a window's user stay at least three ticks apart, the window holds the last of them, and windows stay in the order of their users' first messages |
| IpcRuns.WindowsStay | kernel/core/services.c:127-146 | a window once assigned keeps its source |
| IpcRuns.WindowOfUser | kernel/core/services.c:127-146 | the first eight users with an ordinary message hold the windows, in the order of those messages |
| IpcRuns.EnqueueKeepsOrder | kernel/core/services.c:874-885 | every admitted send keeps it so |
| IpcRuns.EnqueueKeepsOk | kernel/core/ipc.c:112-243 | a send that is admitted keeps all of these together |
| IpcRuns.DequeueKeepsOk | kernel/core/ipc.c:245-268 | so does a receive |
| IpcRing.Endpoint.HasPendingSource | kernel/core/ipc.c:28-50 | finds a queued message of the source exactly when there is one |
| IpcRing.Endpoint.Push | kernel/core/ipc.c:232-234 | the ring's contents gain one message at the end |
| IpcRing.Endpoint.Pop | kernel/core/ipc.c:264-266 | the ring's contents lose their first message, which is returned |
| KernelSpec.InterruptIsRun | kernel/arch/x86/pit.c:38-43 | a timer interrupt is the run of a tick and two turns, whether or not anything is due |
| KernelRuns.NoLostWakeup | kernel/core/services.c:976-1000 | in every interleaving, between steps a non-empty init or policy queue means its owner is ready and due |
| KernelRuns.BrokerInvariants | kernel/core/ipc.c:112-268 | in every interleaving the queue, conservation, edge-table and rate invariants hold together, with sixteen edges and eight windows |
| KernelRuns.RateLimit | kernel/core/services.c:806-885 | any two accepted ordinary requests of a user that holds a window are at least three ticks apart, even when the counter wraps |
| KernelAdmission.RequestAcceptedIff | kernel/core/services.c:806-841 | in every reachable state a request is queued and logged exactly when its sender lives, has nothing queued, finds a free slot (the eighth only if it is interactive) and is interactive, without a window, or at least three wrapped ticks past its last ordinary request; otherwise nothing changes |
| KernelAdmission.RequestOutcome | kernel/core/ipc.c:112-243 | the same in every state with the broker's invariants |
| KernelAdmission.UserSendOutcome | kernel/core/ipc.c:112-230 | the verdict on every handshake in a live user's name, whatever its flags and depth; neither interactive messages nor probes are held to the three ticks |
| KernelAdmission.TooSoonIff | kernel/core/services.c:806-841 | a burst is found exactly for a source among the first eight ordinary users whose last ordinary tick is fewer than three ticks back modulo 2^32 |
| KernelAdmission.ServiceSendOutcome | kernel/core/ipc.c:112-230 | the verdict on every send of a service: unknown endpoint, route, depth, room, in that order |
| KernelAdmission.BrokerOutcome | kernel/core/services.c:403-478 | what the policy service makes of each message: the exact approval, with the flags of the question and one level deeper, or a counted denial, or neither |
| KernelAdmission.OthersAreDenied | kernel/core/ipc.c:112-161 | an endpoint that is neither a service nor a live user may send nowhere |
| KernelAdmission.UsersOnlyAsk | kernel/core/ipc.c:112-161 | a live user may send only handshakes, and only to the policy service |
| KernelAdmission.ReceiveOutcome | kernel/core/ipc.c:245-268 | who may receive from an endpoint, and that the head of its queue is what is received |
| KernelUrgency.WaitersGetBroker | kernel/core/services.c:976-1000 | from every reachable state an accepted request leaves the policy service due, urgent exactly when a user waits, and then next to run |
| KernelStory.Story | kernel/core/services.c:268-479 | every reachable state is one of four chapters, told by the whole logs of init and the policy service: silent, greeted, approved, or spawned and probed |
| KernelStory.BootSpawns | kernel/core/services.c:268-479 | nine turns from boot, and one more per hundred ticks, reach the last chapter in every interleaving, user requests and exits included |
| KernelDelivery.TurnLowersLoad | kernel/core/scheduler.c:206-330 | every turn that runs anything lowers the load: due services, sends the supervisor has left, telemetry turns to come |
| KernelDelivery.RunSettles | kernel/core/services.c:268-479 | a run without user requests leaves the supervisor and the broker with nothing to do, unless it has fewer turns than its load |
| KernelDelivery.BoundedDelivery | kernel/core/services.c:268-479 | from every reachable state, in every interleaving without user requests, nine turns and one more per hundred ticks deliver everything accepted for init and the policy service |
| KernelDelivery.FiveInterruptsDeliver | kernel/arch/x86/pit.c:38-43 | so do five timer interrupts |
| KernelTalk.ConversationIsFinite | kernel/core/services.c:268-479 | in every interleaving at most two messages from init enter the policy queue, at most one approval of init's own request reaches init, and users are spawned at most once |
| KernelTalk.ProbeReplyRefused | kernel/core/ipc.c:163-173 | the reply to a message at depth two is always refused and counted, whatever else is queued |
| KernelTalk.ReplyReachesInitIff | kernel/core/services.c:403-478 | handling a policy message sends init an approval exactly when it is a handshake at depth at most one from no user endpoint and init's queue has room |
| KernelTalk.EscalationDenied | kernel/core/services.c:362-389 | the driver host's attempt to reach the policy service is always refused and changes nothing |
| KernelHistory.RunGrows | kernel/core/ipc.c:232-268 | over every run the logs only grow and windows keep their sources |
| KernelHistory.DrainApprovesIff | kernel/core/services.c:403-478 | a drain sends init an approval exactly when some queued handshake is answered to it and there is room |
| KernelApprovals.HandlesOwnIff | kernel/core/services.c:403-478 | with only init's own approvals so far, handling the next policy message keeps it so exactly when that message is not an orphan: a shallow handshake from neither init nor a live user endpoint |
| KernelApprovals.DrainsOwnIff | kernel/core/services.c:391-479 | a whole drain keeps it so exactly when no orphan is queued |
| KernelApprovals.RunOwnIff | kernel/core/services.c:268-479 | every run keeps it so exactly when it never gives the policy service its turn while an orphan is queued |
| KernelApprovals.AtMostOneApprovalIff | kernel/core/services.c:268-479 | from boot, at most one approval reaches init exactly in those runs |
| KernelOrphan.ExitCanApproveTwice | kernel/arch/x86/userspace.c:1240-1251 | three timer interrupts from boot: after the second init has spawned the worker, which asks and exits; the third gives the policy service its turn, and two approvals reach init |
| Machine.Machine.constructor | kernel/core/services.c:625-648 | the booted kernel of the specification |
| Machine.Machine.FindPolicySourceWindow | kernel/core/services.c:127-146 | the source's window, else the first free one, else none |
| Machine.Machine.FindGraphEdge | kernel/core/services.c:148-171 | the pair's edge, else the first free one, else none |
| Machine.Machine.IsBurst | kernel/core/services.c:806-841 | true exactly for an ordinary user request too soon after the last; `KernelAdmission.TooSoonIff` says when that is, from the log alone |
| Machine.Machine.NoteWindow | kernel/core/services.c:874-885 | records the tick in the source's window and nowhere else |
| Machine.Machine.NoteEdge | kernel/core/services.c:887-920 | bumps the pair's edge and no other |
| Machine.Machine.WakeEndpointOwner | kernel/core/services.c:976-1000 | wakes the owner, urgently for the policy endpoint |
| Machine.Machine.Check | kernel/core/ipc.c:112-230 | the verdict of the admission rules, in order |
| Machine.Machine.IpcSend | kernel/core/ipc.c:112-243 | new state and status are those of `Send`, whose outcome `KernelAdmission.RequestAcceptedIff` and `KernelAdmission.ServiceSendOutcome` give for users and services |
| Machine.Machine.Route | kernel/core/ipc.c:232-240 | queues the message, stamps its window and edge |
| Machine.Machine.IpcReceive | kernel/core/ipc.c:245-268 | new state and result are those of `Receive`, refusals included |
| Machine.Machine.InitSupervisor | kernel/core/services.c:268-360 | the new state is `InitService` of the old, drain loop included |
| Machine.Machine.DriverHost | kernel/core/services.c:362-389 | the new state is `DriverService` of the old |
| Machine.Machine.AiPolicy | kernel/core/services.c:391-479 | the new state is `PolicyService` of the old, drain loop included |
| Machine.Machine.RunDueTask | kernel/core/scheduler.c:206-330 | one turn of the picked service; nothing happens exactly when none is due |
| Machine.Machine.RunReady | kernel/core/scheduler.c:202-337 | the turns of the budget, one after another |
| Machine.Machine.TimerInterrupt | kernel/arch/x86/pit.c:38-43 | a tick and two turns |
| Machine.Machine.RequestPolicy | kernel/arch/x86/userspace.c:3808-3890 | the request of a live process is a send in its name, with that send's status; without a live process nothing is sent or changed |
| Fnv.TimesPrimeInjective | kernel/core/package_store.c:189-190 | multiplication by the FNV prime loses nothing modulo 2^32 |
| Fnv.HashInjective | kernel/core/package_store.c:187-191 | different digests stay different under the same further bytes |
| Fnv.HashConcat | kernel/core/package_store.c:187-191 | hashing a concatenation continues from the first part's digest |
| Fnv.TwoStepsInjective | kernel/core/package_store.c:211-212 | two adjacent bytes are determined by the digests around them |
| Fnv.ThreeStepsInjective | kernel/core/package_store.c:211-212 | so are three |
| ArchiveTamper.HashPinsWindow | kernel/core/package_store.c:196-216 | equal digests over strings that differ only within three adjacent bytes mean equal strings |
| ArchiveTamper.SmallChangeDetected | kernel/core/package_store.c:501-507 | two archives that validate against one constant never differ only within three adjacent bytes, the masked field included |
| ArchiveCollision.FourBytesCollide | kernel/core/package_store.c:501-507 | two archives that both validate and differ within four adjacent bytes |
| Archive.LayoutIff | kernel/core/package_store.c:462-499 | the checked arithmetic succeeds exactly when the sections tile the archive from header to end |
| Archive.RecordsTotal | kernel/core/package_store.c:245-324 | in a section that fits, the checked address of every index is the plain one, inside the section, and other indices are refused |
| Archive.SignerBytes | kernel/core/package_store.c:245-270 | an address inside the signer section for exactly the indices below the count |
| Archive.ManifestBytes | kernel/core/package_store.c:272-297 | the same for manifests |
| Archive.PayloadBytes | kernel/core/package_store.c:299-324 | the same for payloads |
| Archive.TextInside | kernel/core/package_store.c:326-351 | a string that is found lies in the table, NUL-terminated there and without a NUL; one is refused exactly when no NUL follows |
| Archive.FindFirst | kernel/core/package_store.c:353-409 | the slot search returns the first match and fails only without one |
| Archive.ReadsAreTotal | kernel/core/package_store.c:645-732 | after validation a signer or manifest reads exactly when its index is below the count, with a usable payload behind every manifest |
| Archive.ReadyPayloads | kernel/core/package_store.c:734-775 | once ready, slot 1 yields exactly the bootstrap image and every other slot nothing |
| Archive.ReadyDigestNonZero | kernel/core/package_store.c:539-609 | a ready store's image is non-empty and its digest is not zero |
| ArchiveBytes.LayoutTiles | kernel/core/package_store.c:462-499 | a view is the layout exactly when magic, version 2 and the counts at their offsets make four sections that fill the archive, and the view is theirs |
| ArchiveBytes.ValidatedIff | kernel/core/package_store.c:451-581 | for every byte string, generated or not, validation succeeds exactly when the words at fixed offsets say so: layout, both digests, terminated names, payloads with a slot, kind 1 or 2, a size and a checksum, and a payload behind every manifest |
| ArchiveBytes.ReadyBytesIff | kernel/core/package_store.c:583-628 | the store becomes ready exactly when, besides, its first slot-1 payload has kind 1, offset 0 and the size and digest of the image |
| ArchiveEncode.WordsRead | tools/generate-package-store.ps1:41-55 | the little-endian reader returns every word that was laid out |
| ArchiveRoundTrip.PoolHolds | tools/generate-package-store.ps1:194-208 | every name is found at its offset, NUL-terminated, in the first spelling that equals it up to case |
| ArchiveRoundTrip.EncodedLayout | tools/generate-package-store.ps1:287-346 | the generated archive lays out exactly when its version is the reader's, and as the store says |
| ArchiveRoundTrip.StampChecksum | tools/generate-package-store.ps1:341-346 | stamping the digest over its masked field leaves the digest what the field says |
| ArchiveRoundTrip.ValidatesIff | kernel/core/package_store.c:451-581 | the generated archive validates exactly when the store is sound, with its own view and constant only; sound is spelled out: version 2, every payload with a slot, kind 1 or 2, a size and a checksum, and every manifest's slot among the payloads |
| ArchiveRoundTrip.DecodeEncode | kernel/core/package_store.c:645-732 | reading it back returns the store with every name as it was kept |
| ArchiveRoundTrip.RoundTripIff | kernel/core/package_store.c:645-732 | parsing undoes encoding exactly when no name holds a NUL and no two differ only in case |
| ArchiveRoundTrip.ReadyIff | kernel/core/package_store.c:583-615 | it becomes ready exactly when, besides, its first slot-1 payload has kind 1, offset 0 and the size and digest of the image |
| ArchiveRoundTrip.FlatBinaryBesideBootstrap | kernel/core/package_store.c:521-548 | for every image with a digest, a store of its bootstrap payload in slot 1 and a flat binary of any size and checksum but zero in slot 2 validates and becomes ready |
| ArchiveRoundTrip.CaseVariantLost | tools/generate-package-store.ps1:194-208 | a concrete sound store whose second name comes back in the first's spelling |
| ArchiveRecord.ImageReadyIff | tools/generate-package-store.ps1:219-256 | the store that the generator writes for an image becomes ready with it exactly when the store is sound, its first slot-1 payload is a bootstrap service at offset 0, and the image's digest is not 0 |
| ArchiveRecord.ZeroDigest | kernel/core/package_store.c:177-194 | a concrete image whose digest is 0 |
| ArchiveRecord.ZeroDigestRefused | tools/generate-package-store.ps1:91-110 | a sound store generated for it that never becomes ready |
| PackageStore.PackageStore.constructor | kernel/core/package_store.c:94-97 | the statics before initialisation |
| PackageStore.PackageStore.HashImage | kernel/core/package_store.c:177-194 | the FNV-1a digest of the image |
| PackageStore.PackageStore.HashArchive | kernel/core/package_store.c:196-216 | the digest of the archive with its checksum field masked |
| PackageStore.PackageStore.String | kernel/core/package_store.c:326-351 | an address exactly when the table holds a terminated text there, and that text is the C string at the address |
| PackageStore.PackageStore.FindPayloadSlot | kernel/core/package_store.c:353-409 | the first payload of the slot, or none |
| PackageStore.PackageStore.Fail | kernel/core/package_store.c:443-449 | not ready, and an empty view |
| PackageStore.PackageStore.LayOut | kernel/core/package_store.c:462-499 | the view of the layout, or failure and a reset view |
| PackageStore.PackageStore.CheckSigners | kernel/core/package_store.c:509-519 | every signer reads |
| PackageStore.PackageStore.CheckPayloads | kernel/core/package_store.c:521-548 | every payload is sound, which `ArchiveBytes.PayloadIs` spells out in bytes |
| PackageStore.PackageStore.CheckManifests | kernel/core/package_store.c:550-578 | every manifest reads and names a present payload |
| PackageStore.PackageStore.Validate | kernel/core/package_store.c:451-581 | succeeds exactly on the bytes that `ArchiveBytes.Accepted` spells out, with their view; resets otherwise |
| PackageStore.PackageStore.Init | kernel/core/package_store.c:583-628 | ready exactly when the bytes are accepted and the first slot-1 payload is a bootstrap service that describes the linked-in image |
| PackageStore.PackageStore.ReadSigner | kernel/core/package_store.c:645-664 | the signer at the index when ready, else nothing |
| PackageStore.PackageStore.ReadManifest | kernel/core/package_store.c:666-732 | the manifest at the index with its payload's expected size and checksum when ready, else nothing |
| PackageStore.PackageStore.ReadPayload | kernel/core/package_store.c:734-775 | the image bytes behind the slot when ready, else nothing |
| FrameBits.BitOfWithBit | kernel/core/memory.c:147-169 | setting or clearing one bit changes that bit and no other |
| FrameBits.FullIff | kernel/core/memory.c:300-303 | a word is all ones exactly when every bit is set |
| MemorySpec.AlignUpGrowsIff | kernel/core/memory.c:25-41 | aligning up never goes down exactly when the sum does not wrap |
| MemorySpec.LoaderFits | boot/boot.asm:66-78 | with the loader's 16-bit kilobyte counts and a kernel image in the lower half of memory, the boot fits and no alignment up to 2^30 makes a candidate address wrap |
| MemorySpec.NextGrows | kernel/core/memory.c:141 | the candidate address strictly grows, so the search ends |
| MemoryRuns.RangeIsTouched | kernel/core/memory.c:79-108 | the clipped frame range is exactly the frames that share a byte with the range, and empty when the range's end reaches 2^32 |
| MemoryRuns.TakeRangeFacts | kernel/core/memory.c:220-230 | reserving sets exactly the range's frames and keeps the count right |
| MemoryRuns.RawIsFirst | kernel/core/memory.c:121-145 | the search takes the first candidate with no reserved frame, and gives up only at the heap's end |
| MemoryRuns.EarlyAdds | kernel/core/memory.c:276-286 | an early allocation lies past the bump address inside the heap, its frames were free and are now used |
| MemoryRuns.RunKeepsOwned | kernel/core/memory.c:276-347 | over every legal run each used frame is claimed or holds early bytes, never both, free frames are neither, and the count equals the clear bits |
| MemoryRuns.OwnedApart | kernel/core/memory.c:66-145 | then early allocations and outstanding frames are pairwise disjoint |
| MemoryRuns.BootOwned | kernel/core/memory.c:233-274 | initialisation establishes this, the bitmap being the first allocation |
| MemoryRuns.EveryRunFromBootApart | kernel/core/memory.c:233-347 | so from boot nothing handed out ever overlaps |
| MemoryRuns.ClaimLowest | kernel/core/memory.c:288-328 | a claim returns the lowest free frame, owned by nobody, and the invalid value exactly when the count is zero |
| MemoryRuns.GuardNeverFails | kernel/core/memory.c:225-228 | the non-zero guard before a decrement never fails |
| MemoryRuns.ReleaseSafeIff | kernel/core/memory.c:330-347 | a release keeps ownership intact exactly when its frame holds no early bytes |
| MemoryRuns.BitmapReleaseUnsafe | kernel/core/memory.c:330-347 | right after every boot that maps frames, releasing the first frame of the region is not safe |
| MemoryMap.ExtendedMap | kernel/core/memory.c:233-274 | with extended memory the heap is exactly the bytes from one megabyte to one megabyte plus its size, every whole page of it a frame, and the bitmap takes the fewest words with a bit for each |
| MemoryMap.WrappedMap | kernel/core/memory.c:233-250 | a size whose end passes 2^32 leaves an empty heap |
| MemoryMap.ConventionalMap | kernel/core/memory.c:233-274 | without extended memory it is the whole pages of conventional memory behind the kernel |
| MemoryMap.PagesAreFrames | kernel/core/memory.c:252-274 | every whole page of the heap is a frame, and nothing else is |
| MemoryMap.RunStaysInExtended | kernel/core/memory.c:233-347 | from boot, over every legal run, every byte handed out lies in extended memory |
| MemoryMap.RunStaysInConventional | kernel/core/memory.c:233-347 | or else in conventional memory behind the kernel |
| MemoryMap.FirstTry | kernel/core/memory.c:121-145 | the search starts at the least aligned address not below the bump address |
| MemoryMap.NextTry | kernel/core/memory.c:121-145 | and goes on at the least aligned address one page past the page boundary at or behind the last |
| MemoryMap.AlignUpLeast | kernel/core/memory.c:25-41 | aligning up gives the least multiple that is not below |
| Memory.PhysicalMemory.constructor | kernel/core/memory.c:233-274 | the booted memory, its bitmap placed and reserved whenever a page fits; with extended memory the heap is exactly that memory, and empty if its end passes 2^32 |
| Memory.PhysicalMemory.FrameTest | kernel/core/memory.c:163-169 | whether the frame is used |
| Memory.PhysicalMemory.FrameSet | kernel/core/memory.c:147-153 | that frame is used, nothing else changed |
| Memory.PhysicalMemory.FrameClear | kernel/core/memory.c:155-161 | that frame is free, nothing else changed |
| Memory.PhysicalMemory.RegionIsReserved | kernel/core/memory.c:66-119 | true exactly when a frame of the clipped range is used |
| Memory.PhysicalMemory.ReserveRegion | kernel/core/memory.c:171-231 | the new state is `Reserve` of the old |
| Memory.PhysicalMemory.EarlyAllocRaw | kernel/core/memory.c:121-145 | the address of `Raw`, the bump address moved behind it and nothing else |
| Memory.PhysicalMemory.EarlyAlloc | kernel/core/memory.c:276-286 | new state and address are those of `EarlyAlloc` |
| Memory.PhysicalMemory.FindFree | kernel/core/memory.c:298-325 | the word-skipping scan finds the first free frame of a plain scan |
| Memory.PhysicalMemory.ClaimFrame | kernel/core/memory.c:288-328 | new state and address are those of `Claim` |
| Memory.PhysicalMemory.ReleaseFrame | kernel/core/memory.c:330-347 | the new state is `Release` of the old |

## Left out

- NULL arguments of the C functions: values and options take their place.
- What a comparison finds behind a name buffer: the class asks that no lookup of the call leaves its buffer (`RamfsBytes.Readable`, `RamfsBytes.MoveReadable`); `RamfsOverrun` says exactly when one can.
- Where paths other than source and destination lead after a move with NULs in its paths: re-rooting (`RamfsRuns.MoveIsRerooting`) is about names.
- Ramfs stat and its formatting, node names and kinds as getters: easy members.
- Seed file texts: parameters; only their number and length limits matter.
- Scheduler statistics (fairness boosts, runs per priority, urgent wakes): reporting only.
- Scheduler tick and due-time wrap-around: ticks are unbounded in the scheduler; the wrap is modelled where the rate limit uses the counter.
- Task callbacks in `Scheduler.RunReady`: scripts of waits, sleeps and wakes; in `Machine` they are the services themselves.
- Broker statistics (denied, backpressure and high-water counters, maximal depth seen) and all logging: reporting only.
- The telemetry service: it only reports, so its turn changes nothing but its schedule.
- Machine.Machine.RequestPolicy: leaves out the capability handle that the caller presents and its resolution to the policy service (kernel/arch/x86/userspace.c:3828-3843).
- The static console, ramfs and input service records: they own no queue.
- User processes: exit, further spawns and the policy waiters appear as a step that sets the live user endpoints, of which there are none before init has spawned, and the number of waiters; delivery into a process is not modelled.
- The driver-host queue is never drained by the source, so it has no wakeup theorem.
- KernelTalk.ConversationIsFinite: bounds the approvals of init's own request only, because the bound on all of them is false; `KernelApprovals.AtMostOneApprovalIff` gives the exact condition.
- PackageStore.PackageStore.ReadManifest: leaves out the signature token of the record, an ad hoc mix without a stated guarantee.
- What a failed record read leaves in the caller's record.
- Ed25519 signatures of the 64-bit kernel and the generator's signing step.
- The generator's number parsing and refusal of empty names: the encoder takes any store, empty names included, and texts as ASCII bytes.
- Memory.PhysicalMemory.EarlyAllocRaw: does not model the zeroing of the allocated bytes; of the heap's contents only the bitmap is modelled, as an array of its own.
- Memory sizes: the heap must end two pages and one alignment below 2^32 (`MemorySpec.NoWrap`, `MemorySpec.BootFits`) so that no candidate address wraps; `MemorySpec.LoaderFits` shows that every size the boot loader can store qualifies.
- Memory.PhysicalMemory.ReleaseFrame: models the code, which frees any used frame; that only claimed frames are released is a condition on runs (`MemoryRuns.Legal`).
- All other subsystems of the repository: devices, paging, system calls, and the 64-bit subsystems present only as declarations.
