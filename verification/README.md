# Verified model of the pnfs-lattice metadata server

pnfs-lattice is a parallel-NFS metadata server.  Its catalogue (inodes, names, stripe maps
and a queue of data-server objects to reclaim) lives in a transactional store that several
metadata servers share; locks, opens, layouts, caches and leases live in memory beside it.
This project models the parts where several parties act at once, and proves what every run
keeps.  Where the code does not keep what its comments promise, the model follows the code,
a lemma gives a concrete run, and another lemma says exactly when the promise holds.

`dafny verify dfyconfig.toml` verifies everything.

| module | what it models |
|---|---|
| Namespace, Catalogue, NamespaceRuns | create, link, guarded remove and guarded rename as reference transitions that recount every link, and as transactions that bump counters, proved equal |
| ConcurrentClients | any number of clients between their reads and their transactions |
| DirectoryTree, RenameCheck | whether the directories stay a tree, and what RENAME's own path test lets through and refuses; finalizing an orphan |
| Reclaim, GcSweep | data-server objects: referenced, queued, swept |
| ByteRanges, LockTable | byte-range locks against a per-byte map |
| ParentTouch | deferred parent change counters with a flusher outside the lock |
| OpenState | share reservations with a durable write outside the lock |
| ProbeTable, CatalogImage, DeltaCodec, Endian | the replicated catalogue image: linear-probing hash tables, the delta stream, byte order |
| LayoutRange, LayoutRecall | the persisted range of a layout stateid and the recall scan |
| StripeLease | slices of a range and the leases on them |
| DirentCache | generation-guarded negative name entries |
| NodeRegistry, Failover, Promotion, PromotionRuns | epoch-fenced registration, the watchdog's verdict, promotion of standbys: any number of them step by step, and one as the code runs it |
| HardLink | hard links across two nodes |
| Readdir | cookie-resumed directory listing |

Each locked region or store transaction is one atomic step.  Clocks, the answers of remote
calls, the outcome of durable writes and the contents of reads made earlier are parameters
or steps that may go either way.

Where code and documentation disagree, and the model follows the code:

- `include/parent_touch.h` (lines 22-52) promises that a bucket's logical value is the
  persisted one plus what is pending (plus, during a flush, what is in flight).  A bucket
  whose delta is in flight counts as clean and may be evicted or dropped, and a prepare that
  flushed inline inserts without looking again; `Unsafe` names these steps.
- Section 18.18 of RFC 8881 lets OPEN_DOWNGRADE only reduce access and deny.  The code checks
  the access bits only and stores any deny bits.
- `include/lock_state.h` gives "to end of file" for the largest length.  The code's ranges end
  before byte 2^64-1, so the last byte is never covered.
- `include/catalogue_rondb.h` (lines 690-708) promises that a layout row stays a superset of
  every range granted under its stateid.  A first grant that finds no row inserts it in a
  second transaction, which overwrites.
- `include/failover.h` (lines 103-122) says that a promotion that ends STALE took nothing.
  What was taken is counted by changes to the node's own map, and a refresh of that map may
  come between the compare-and-swap and the change.  And a rollback returns what was listed
  before the takeover looked at the map again.
- `include/hardlink_2pc.h` (lines 34-59) says that abort rolls back and commit finalizes.
  Both handlers do nothing, and the status of a failed increment is overwritten by that of the cleanup.  The
  writes inside its begin and commit are separate, so the name can exist under a PREPARED
  record, and a prepare that votes to abort can leave the link count raised.
- RENAME is to reject a directory moved below itself.  The store does not check.  The handler
  compares path strings, when both are known, but takes the path of the directory that holds
  the source, not of the source: it lets `a` in the root go to `a/b/c`, and it refuses every
  move from a directory other than the root into a directory deeper in it.
- `include/mds_catalogue.h` (lines 486-521) closes the window in which a name is gone and its
  objects are not queued.  The worker drops a queued row with nothing destroyed when the data
  server is not mounted on its host.
- READDIR asks the store for one row more than a page holds and counts hidden rows against
  that limit, so a full answer without a leftover visible row is reported as the end.

## Model

| member | source | states |
|---|---|---|
| `Namespace.BootstrapHolds` | src/catalogue/catalogue_rondb_shim.cpp:2717-2776 | the seeded root row (a directory with link count 2) satisfies the whole namespace invariant |
| `Namespace.LinkCountPut` | src/catalogue/catalogue_rondb_shim.cpp:7691-7930 | recounting after a new dirent raises the link count of exactly the row the dirent counts on, by one |
| `Namespace.LinkCountDel` | src/catalogue/catalogue_rondb_shim.cpp:8538-8858 | recounting after a dirent is gone lowers exactly that row, by one |
| `Namespace.CreatedKeepsInv` | src/catalogue/catalogue_rondb_shim.cpp:7691-7930 | create and mkdir keep: every link count is the number of names (or 2 plus the child directories), no dirent dangles, one name per directory |
| `Namespace.LinkedKeepsInv` | src/catalogue/catalogue_rondb_shim.cpp:5838-5968 | link keeps that invariant |
| `Namespace.UnlinkedKeepsInv` | src/catalogue/catalogue_rondb_shim.cpp:8538-8858 | remove and rmdir keep that invariant, for the last name and for any other |
| `Namespace.RenamedRowStays` | src/catalogue/catalogue_rondb_shim.cpp:8945-9220 | which rows a rename takes away: only the displaced object, and only with its last name or as an empty directory, and not when kept as an open orphan |
| `Namespace.RenamedColumns` | src/catalogue/catalogue_rondb_shim.cpp:8945-9220 | whatever a rename moves across directories records its new parent, only a displaced file that lost its last name is marked an orphan, and no other parent or mark changes |
| `Namespace.UnlinkedColumns` | src/catalogue/catalogue_rondb_shim.cpp:8538-8858 | a remove takes away exactly the last name's object with its stripe map, queues its rows exactly then, and changes nothing but link counts elsewhere |
| `Namespace.RenamedKeepsInv` | src/catalogue/catalogue_rondb_shim.cpp:8945-9220 | rename keeps that invariant, with or without a victim, within or across directories, orphan kept or not |
| `Namespace.DirNameUnique` | src/catalogue/catalogue_rondb_shim.cpp:8402-8480 | a directory is reached by one name only |
| `Catalogue.CreatedIsBumped` | src/catalogue/catalogue_rondb_shim.cpp:7691-7930 | the fixed starting count and the one parent bump of the create transaction equal a full recount from the names |
| `Catalogue.LinkedIsBumped` | src/catalogue/catalogue_rondb_shim.cpp:5838-5968 | the one increment of the link transaction equals a full recount |
| `Catalogue.UnlinkedIsBumped` | src/catalogue/catalogue_rondb_shim.cpp:8538-8858 | the one decrement or delete of the remove transaction equals a full recount |
| `Catalogue.RenamedIsBumped` | src/catalogue/catalogue_rondb.c:1656-1674 | the parent deltas, the moved row and the displaced row of a rename together equal a full recount, in every combination of directory, victim and cross-directory move |
| `Catalogue.NameLinks` | src/catalogue/catalogue_rondb_shim.cpp:8538-8858 | a link count of one on a named file means that this is its only name, which is what the remove guard tests |
| `Catalogue.FlagOnlyForLastName` | src/catalogue/catalogue_rondb.c:1535-1608 | the plan built from the victim reads keeps the orphan exactly when the caller asked for it and the name was the last one; a fresh plan fits unless the displaced directory is full |
| `Catalogue.FitIsRenamable` | src/catalogue/catalogue_rondb_shim.cpp:8945-9220 | a plan that passes the guards is a legal POSIX rename of the live names |
| `Catalogue.Catalogue.constructor` | src/catalogue/catalogue_rondb_shim.cpp:2717-2776 | the store starts as bootstrap leaves it |
| `Catalogue.Catalogue.Create` | src/catalogue/catalogue_rondb_shim.cpp:7691-7930 | acts as the atomic create exactly when it is possible, else changes nothing; EXIST exactly for a taken name |
| `Catalogue.Catalogue.Link` | src/catalogue/catalogue_rondb_shim.cpp:5838-5968 | acts as the atomic link exactly when it is possible, else changes nothing, with the right refusal |
| `Catalogue.Catalogue.GuardRemove` | src/catalogue/catalogue_rondb_shim.cpp:8402-8480 | full directory, moved plan and go-ahead are told apart exactly, and go-ahead knows whether this is the last name |
| `Catalogue.Catalogue.CommitRemove` | src/catalogue/catalogue_rondb_shim.cpp:8538-8858 | the counter updates of a remove leave exactly the recounted state |
| `Catalogue.Catalogue.Remove` | src/catalogue/catalogue_rondb_shim.cpp:8538-8858 | from an arbitrarily old plan: the atomic remove of the live name, or nothing; answered OK the name is gone, unless the planned directory was gone before; a name that stands for something else is answered STALE; NOTEMPTY and STALE only for what has changed |
| `Catalogue.Catalogue.RemoveByName` | src/catalogue/catalogue_rondb.c:1055-1100 | an undisturbed look-up and remove is never stale, and refuses exactly missing names and full directories |
| `Catalogue.Catalogue.GuardRename` | src/catalogue/catalogue_rondb_shim.cpp:8945-9220 | the guards pass exactly when both names still stand for what was read and the victim has the reckoned number of names |
| `Catalogue.Catalogue.CommitRename` | src/catalogue/catalogue_rondb_shim.cpp:8945-9220 | the counter updates of a rename leave exactly the recounted state |
| `Catalogue.Catalogue.WriteParents` | src/catalogue/catalogue_rondb.c:1656-1674 | what the two deltas do to the parent rows: a moved directory takes its link along, a replaced one gives its link back |
| `Catalogue.Catalogue.WriteVictim` | src/catalogue/catalogue_rondb_shim.cpp:8945-9220 | the displaced row goes, loses one link, or becomes an open orphan |
| `Catalogue.Catalogue.RenamePlanned` | src/catalogue/catalogue_rondb_shim.cpp:8945-9220 | from an arbitrarily old plan: the atomic rename of the live names, or NOTEMPTY, DELAY or STALE with every row unchanged, each exactly when; answered OK, what was read stands under the destination and records its directory |
| `Catalogue.Catalogue.ReadVictim` | src/catalogue/catalogue_rondb.c:1535-1608 | NOTDIR, ISDIR and the same-file no-op exactly when, else a plan that fits the state it was read from |
| `Catalogue.Catalogue.ResolveRename` | src/catalogue/catalogue_rondb.c:1683-1783 | a plan is made exactly for a movable pair of names, else the refusal names a real reason |
| `Catalogue.Catalogue.Rename` | src/catalogue/catalogue_rondb.c:1683-1783 | an undisturbed attempt is POSIX rename: it succeeds exactly when possible, NOTEMPTY and ISDIR exactly when, and never asks to retry |
| `Catalogue.RemoveMeans` | src/catalogue/catalogue_rondb_shim.cpp:8819-8858 | every answer of a guarded remove told from the tables before and after |
| `Catalogue.RenameMeans` | src/catalogue/catalogue_rondb_shim.cpp:8945-9220 | every answer of a guarded rename told from the tables before and after |
| `NamespaceRuns.StepKeepsInv` | include/mds_catalogue.h:537-562 | every atomic namespace operation keeps the invariant |
| `NamespaceRuns.RunKeepsInv` | include/catalogue_rondb.h:308-407 | in every state of every run the link counts are exact and no dirent has a missing parent or child |
| `NamespaceRuns.StepSettled` | include/compound.h:1970-1980 | an object that once existed keeps its type or is gone for good, because fileids are never reused |
| `NamespaceRuns.PlanSettled` | src/catalogue/catalogue_rondb.c:1683-1783 | everything a fresh rename plan says is of that lasting kind |
| `DirectoryTree.MoveKeepsTreeIff` | src/catalogue/catalogue_rondb_shim.cpp:8945-9220 | moving a directory keeps every directory below the root if and only if the target directory does not lie in the moved one; the transaction never asks |
| `DirectoryTree.StepKeepsTreeIff` | src/catalogue/catalogue_rondb_shim.cpp:8945-9220 | of all operations only such a move breaks the tree, and always does |
| `DirectoryTree.RunKeepsTree` | src/catalogue/catalogue_rondb_shim.cpp:8945-9220 | in every run the directories form a tree up to the first such move, and not right after it |
| `DirectoryTree.LoopReached` | src/catalogue/catalogue_rondb_shim.cpp:8945-9220 | a reachable state from which renaming a to a/b/c is accepted and cuts both directories off |
| `DirectoryTree.LoopTraps` | src/catalogue/catalogue_rondb_shim.cpp:8945-9220 | a climb through parent columns that starts on a loop never reaches the root |
| `DirectoryTree.Reroute` | src/catalogue/catalogue_rondb_shim.cpp:8945-9220 | after a legal move every directory has a climb to the root, through the new place |
| `DirectoryTree.CutOff` | src/catalogue/catalogue_rondb_shim.cpp:8945-9220 | after an illegal move the moved directory has none |
| `DirectoryTree.FinalizeSoundIff` | src/mds/compound_namespace.c:1752-1794 | deleting the row of an unlinked-but-open orphan keeps the tables sound if and only if its link count is zero, which the code does not look at |
| `DirectoryTree.RevivedOrphanReached` | src/mds/compound_namespace.c:1752-1794 | a reachable state in which a link has revived an orphan, so that finalizing it leaves a dangling name |
| `RenameCheck.PathIsSpelled` | src/mds/compound_namespace.c:623-642 | the path a request tracks is every looked-up name with a slash before it |
| `RenameCheck.RefusesIff` | src/mds/compound_namespace.c:2605-2618 | the handler's string test refuses if and only if the look-ups of the target directory go on from those of a source directory that is not the root |
| `RenameCheck.PathUnique` | src/mds/compound_namespace.c:2605-2618 | a directory has one path |
| `RenameCheck.BelowIff` | src/mds/compound_namespace.c:2605-2618 | one directory lies in another if and only if its path starts with the other's |
| `RenameCheck.RefusedIff` | src/mds/compound_namespace.c:2605-2618 | so a move of anything, file or directory, is refused if and only if both paths are known and it goes from a directory other than the root into one deeper in it |
| `RenameCheck.PassedKeepsTreeIff` | src/mds/compound_namespace.c:2605-2618 | a directory move that the handler lets through breaks the tree if and only if the target lies in the moved directory and that directory is in the root or a path is not known |
| `RenameCheck.RefusedKeepsTreeIff` | src/mds/compound_namespace.c:2605-2618 | a directory move that the handler refuses would have kept the tree if and only if the target is reached from the source's directory by another name |
| `RenameCheck.LoopPasses` | src/mds/compound_namespace.c:2605-2618 | a reachable state in which, with both paths known, renaming a to a/b/c gets past the handler and breaks the tree |
| `Reclaim.UnlinkedCoversIff` | src/catalogue/catalogue_rondb_shim.cpp:8772-8816 | a final unlink keeps every data-server object referenced or queued exactly once if and only if its fused rows are one per data server of the stripe map; a non-final one always does |
| `Reclaim.RenamedCoversIff` | src/mds/compound_namespace.c:2927-2945 | a rename keeps that coverage if and only if the object it takes away holds no data-server objects, since its GC rows come in a later transaction |
| `Reclaim.CreatedCovers` | src/catalogue/catalogue_rondb_shim.cpp:7691-7930 | a create with its stripe map keeps the coverage |
| `Reclaim.LinkedCovers` | src/catalogue/catalogue_rondb_shim.cpp:5838-5968 | a link keeps the coverage |
| `Reclaim.DestroyCovers` | src/modules/ds_gc/ds_gc.c:215-247 | destroying the object of a queued row (or finding it gone) keeps the coverage |
| `Reclaim.TakenOffCoversIff` | src/modules/ds_gc/ds_gc.c:215-247 | taking a row off the queue, and with it any stripe map the file has left, keeps the coverage if and only if the object of the row is gone |
| `Reclaim.EventCoversIff` | include/catalogue_rondb.h:409-446 | which namespace operations and worker steps keep the coverage, both ways: of the worker only the drop of a row whose data server is not mounted there, while the object exists, does not |
| `Reclaim.StepStripes` | src/catalogue/catalogue_rondb_shim.cpp:8538-8858 | no namespace operation changes the stripe map of a file that lives on |
| `Reclaim.LostObject` | src/mds/compound_namespace.c:2927-2945 | a run of three operations whose committed state neither references nor queues an object: rename over a striped file |
| `Reclaim.UnmountedLeak` | src/mds/proxy_io.c:2589-2597 | a run in which a remove queues the right row and the worker drops it because the data server is not mounted: the object is held, unreferenced and unqueued |
| `ConcurrentClients.CommitIsAtomic` | include/catalogue_rondb.h:337-407 | a guarded remove or rename is its atomic operation on the live state, or nothing |
| `ConcurrentClients.SnapshotsCould` | src/catalogue/catalogue_rondb.c:1683-1783 | what one undisturbed look shows is a special case of what a call may know from reads at different times |
| `ConcurrentClients.CouldStays` | include/mds_catalogue.h:467-482 | what a call knows stays true whatever commits meanwhile |
| `ConcurrentClients.RunKeepsInv` | include/mds_catalogue.h:467-482 | with any number of calls in flight the tables are sound in every state and every old plan still meets what its transaction asks for |
| `ConcurrentClients.EveryRunIsAtomic` | include/mds_catalogue.h:467-482 | every interleaving of reads, guarded transactions, creates, links, placements and sweeps moves names and inodes by one atomic operation at a time |
| `ConcurrentClients.MovedWhatWasRead` | src/catalogue/catalogue_rondb_shim.cpp:8945-9220 | a rename that went through moved exactly the object read under the source over exactly the object read under the destination, and no other name changed |
| `ConcurrentClients.RemovedWhatWasRead` | src/catalogue/catalogue_rondb_shim.cpp:8819-8858 | in every run a remove answered OK has left no such name, or its planned directory was gone; it took away what was read and no other name; NOTEMPTY and STALE only when something had changed |
| `ConcurrentClients.RefusedForAChange` | src/catalogue/catalogue_rondb_shim.cpp:8945-9220 | in every run a rename is refused only because a name, a link count or a displaced directory is no longer what was read |
| `ConcurrentClients.PlacingCoversIff` | src/mds/compound_layout.c:1989-2035 | the unguarded write of a stripe map keeps the coverage if and only if the file is alive with nothing overwritten or queued, or gone with all of it queued and not yet destroyed |
| `ConcurrentClients.EventCoversIff` | include/mds_catalogue.h:486-521 | after which transactions and worker steps of the concurrent system some object is not covered exactly once, both ways |
| `ConcurrentClients.EveryRunCovers` | include/mds_catalogue.h:486-521 | in every run every data-server object is referenced by a live file or queued exactly once up to the first such transaction or dropped row, and not right after it |
| `ConcurrentClients.RemoveTidyUnlessPlaced` | src/mds/compound_namespace.c:2150-2196 | a remove that read the right rows is accepted only while they are right, however old its plan, unless the file was placed in between |
| `ConcurrentClients.PlacementRace` | src/mds/compound_layout.c:1989-2035 | a run in which a placement falls between the reads and the transaction of a remove, whose transaction drops the map without a GC row: nothing references or queues the object any more |
| `ConcurrentClients.CarefulRunCovers` | include/mds_catalogue.h:486-521 | in every run in which removes read the right rows, nothing is placed after its creation, no rename takes away a striped file and the worker runs where every data server with a queued row is mounted, every object is covered in every state |
| `ByteRanges.OverlapIsShared` | src/mds/lock_state.c:201-205 | two ranges overlap if and only if some byte is in both |
| `ByteRanges.CoversAsMeantIff` | src/mds/lock_state.c:192-198 | of the bytes a request means, exactly the very last one (2^64-1) is never covered |
| `ByteRanges.OverlapAsMeantIff` | src/mds/lock_state.c:192-205 | two ranges meant to share a byte are seen to overlap if and only if neither starts at the last byte |
| `ByteRanges.CarvedBytes` | src/mds/lock_state.c:378-433 | carving a span out of a range list frees exactly the bytes of the span and leaves every other byte its mode |
| `ByteRanges.CarvedShape` | src/mds/lock_state.c:378-433 | the list stays well formed and free of overlaps |
| `ByteRanges.NothingLeft` | src/mds/lock_state.c:378-433 | after a split the rest of the list cannot be touched, which is why the walk may stop there |
| `ByteRanges.CarveNode` | src/mds/lock_state.c:378-433 | one node is skipped, split, removed or trimmed as the byte map says |
| `ByteRanges.Carve` | src/mds/lock_state.c:378-433 | the list walk with its early stop carves every range |
| `LockTable.GrantKeepsSound` | src/mds/lock_state.c:537-694 | a grant nobody is in the way of keeps: no byte is write-locked by one owner while another holds it |
| `LockTable.CarveKeepsSound` | src/mds/lock_state.c:761-815 | an unlock keeps it |
| `LockTable.GrantBecame` | src/mds/lock_state.c:537-694 | replace, split and upgrade of the owner's ranges set exactly the requested bytes of that stateid in the byte map |
| `LockTable.CarveBecame` | src/mds/lock_state.c:761-815 | an unlock frees exactly the named bytes of that stateid, holes included |
| `LockTable.OthersSound` | src/mds/lock_state.c:897-930 | dropping a client's states keeps the table sound |
| `LockTable.ClashOnlyAtLastByte` | src/mds/lock_state.c:192-198 | two owners never both mean a byte in clashing modes, except the very last byte |
| `LockTable.LastByteShared` | src/mds/lock_state.c:192-198 | there they can: a write lock on the last byte stops nobody |
| `LockTable.UnlockAllIff` | src/mds/lock_state.c:378-433 | unlocking the whole file empties the owner's list if and only if no range starts at the last byte |
| `LockTable.InTheWayIff` | src/mds/lock_state.c:283-312 | the scan is stopped exactly by a byte that another owner of the file holds: any for a writer, a written one for a reader |
| `LockTable.BarredIff` | src/mds/lock_state.c:559-567 | the same by the four lock types of the wire, the waiting ones counting as their plain ones |
| `LockTable.LockTable.constructor` | src/mds/lock_state.c:437-470 | an empty table is sound |
| `LockTable.LockTable.ScanConflict` | src/mds/lock_state.c:283-312 | a conflict is reported if and only if another owner's range is in the way, and the report is one of them |
| `LockTable.LockTable.Acquire` | src/mds/lock_state.c:537-694 | LOCK: exactly the requested bytes of the answering stateid change, to Write for the two write types and Read for the two read types; its seqid moves on by one and every other state is untouched; DENIED exactly when another owner holds a requested byte in a clashing mode; BAD_STATEID, OLD_STATEID and INVAL each exactly when |
| `LockTable.LockTable.Test` | src/mds/lock_state.c:696-747 | LOCKT is DENIED if and only if another owner of the file holds a requested byte: any for the write types, a written one for the read types |
| `LockTable.LockTable.Release` | src/mds/lock_state.c:761-815 | LOCKU: exactly the named bytes of the stateid become free, its seqid moves on by one, nothing else changes, and the refusals are exact |
| `LockTable.LockTable.FreeStateid` | src/mds/lock_state.c:855-887 | FREE_STATEID is refused exactly while ranges are listed, and removes one state and no lock |
| `LockTable.LockTable.ReleaseClient` | src/mds/lock_state.c:897-930 | exactly the states of the client go |
| `ParentTouch.StepExactIff` | src/mds/parent_touch.c:475-882 | from a state where logical = persisted + in flight + pending, which steps keep that equation, both ways, told from the state |
| `ParentTouch.UnsafeIff` | src/mds/parent_touch.c:475-594 | the same told from what happened: an insert is harmful if and only if there is a bucket, or its seed was read without a bucket while a delta was in flight, or a mutation took effect since; a failed flush if and only if there is no bucket and, for an evicted one, a mutation took effect since it was detached |
| `ParentTouch.StepSane` | src/mds/parent_touch.c:475-882 | no step shows more than the true value, and the truth never goes down |
| `ParentTouch.StepKeepsPins` | src/mds/parent_touch.c:475-663 | every outstanding preparation is backed by a pin, whatever is evicted or flushed |
| `ParentTouch.PreparedIsPinned` | include/parent_touch.h:117-247 | in every run a commit after a successful prepare finds its bucket |
| `ParentTouch.RunExact` | include/parent_touch.h:22-52 | in every run the equation holds up to the first such step, and not right after it |
| `ParentTouch.PairsIncrease` | include/parent_touch.h:117-247 | in a run without such a step the change pairs handed out strictly increase |
| `ParentTouch.SharedPair` | src/mds/parent_touch.c:455-472 | a run in which two mutations get the same pair: the bucket is evicted as clean while its delta is in flight |
| `ParentTouch.EvictedLeads` | src/mds/parent_touch.c:455-472 | what making room does to a directory is a run of the state machine |
| `ParentTouch.RegionsAreSteps` | src/mds/parent_touch.c:437-700 | what each locked region does to a directory's chain is an enabled step of its state machine |
| `ParentTouch.Shard.MakeRoom` | src/mds/parent_touch.c:437-472 | with room to spare nothing is touched; a full shard throws idle buckets away until one fits, or, without an idle one, detaches one dirty unpinned bucket for flushing, or finds everything pinned |
| `ParentTouch.Shard.PrepareNew` | src/mds/parent_touch.c:475-594 | a prepare that found nothing inserts at the head without looking again, always when there is room; the bucket count stays within the capacity |
| `ParentTouch.Shard.Prepare` | src/mds/parent_touch.c:475-594 | a prepare pins the bucket it finds, raising it to the seed; without one it gets a new bucket whenever there is room; it is refused only by a full shard with everything pinned |
| `ParentTouch.Shard.FinishEviction` | src/mds/parent_touch.c:475-594 | a failed inline flush puts the detached bucket back or merges it |
| `ParentTouch.Shard.CommitPrepared` | src/mds/parent_touch.c:596-639 | commit returns (v, v+1) of the bucket it finds and counts one pending increment |
| `ParentTouch.Shard.AbortPrepared` | src/mds/parent_touch.c:641-663 | abort unpins and drops a bucket that is idle then |
| `ParentTouch.Shard.NoteSyncBump` | src/mds/parent_touch.c:669-692 | a synchronous commit is folded into the logical value only |
| `ParentTouch.Shard.Overlay` | src/mds/parent_touch.c:694-731 | the value shown is the larger of the row and the bucket |
| `ParentTouch.Shard.TakeFlush` | src/mds/parent_touch.c:737-784 | a flush takes all that is pending, and nothing else, out of the bucket |
| `ParentTouch.Shard.FailFlush` | src/mds/parent_touch.c:322-329 | a failed flush adds the delta back if there is a bucket |
| `ParentTouch.Shard.Drop` | src/mds/parent_touch.c:786-811 | only an idle bucket is dropped |
| `OpenState.FreshKeepsSound` | src/mds/open_state.c:846-1003 | a new open record that passed the conflict check keeps the share reservations |
| `OpenState.UpgradeKeepsSound` | src/mds/open_state.c:674-786 | so does an upgrade to the merged modes |
| `OpenState.FreshRefusedIff` | src/mds/open_state.c:273-327 | a new open is refused if and only if it would break the reservations |
| `OpenState.ReopenRefusedIff` | src/mds/open_state.c:674-786 | an OPEN by the owner of a record is refused if and only if its merged modes would |
| `OpenState.DowngradeSoundIff` | src/mds/open_state.c:1216-1296 | a downgrade keeps them if and only if the new deny meets no other open's access |
| `OpenState.DowngradeBreaksShares` | src/mds/open_state.c:1216-1296 | two readers, one of which downgrades to deny reading |
| `OpenState.StepSoundIff` | include/open_state.h:280-344 | of all steps only such a downgrade breaks the reservations, and always does |
| `OpenState.RunSound` | include/open_state.h:158-181 | in every run no open's access meets another's deny, pending records included, up to the first such downgrade, and not right after it |
| `OpenState.PendingFrozen` | include/open_state.h:376-382 | until its own OPEN ends a pending record is untouched by every other operation; it can only be revoked |
| `OpenState.RollbackRestores` | src/mds/open_state.c:674-786 | a failed durable write restores exactly the record from before the OPEN |
| `OpenState.OpenTable.ShareConflict` | src/mds/open_state.c:273-327 | a conflict is found if and only if some other open of the file clashes |
| `OpenState.OpenTable.Open` | src/mds/open_state.c:846-1003 | DELAY, SHARE_DENIED and INVAL exactly when, SHARE_DENIED by an access bit that meets another open's deny bit or the reverse; success is exactly the fresh or the merged record, pending when a durable write follows |
| `OpenState.OpenTable.Finish` | src/mds/open_state.c:798-844 | commit, unwind or rollback after the durable write, and nothing for a record revoked meanwhile |
| `OpenState.OpenTable.Close` | src/mds/open_state.c:1007-1097 | the exact answer, and exactly that record goes |
| `OpenState.OpenTable.Downgrade` | src/mds/open_state.c:1216-1296 | the exact answer; on success the given modes are stored |
| `OpenState.OpenTable.RevokeClient` | src/mds/open_state.c:1174-1214 | exactly the records of the client go |
| `ProbeTable.ProbeDecides` | src/catalogue/catalog_image.c:87-103 | a probe that ends on an empty slot means the key is absent |
| `ProbeTable.StoreKeepsChained` | src/catalogue/catalog_image.c:107-133 | storing where the probe ended keeps every entry reachable and updates the map at one key |
| `ProbeTable.HoleOpens` | src/catalogue/catalog_image.c:153-185 | emptying a slot leaves only the run behind it in doubt |
| `ProbeTable.LandsInside` | src/catalogue/catalog_image.c:153-185 | a re-inserted entry lands no further back than where it was |
| `ProbeTable.HealStep` | src/catalogue/catalog_image.c:153-185 | re-inserting one entry of the run keeps the table's meaning and shrinks the part in doubt |
| `ProbeTable.Healed` | src/catalogue/catalog_image.c:153-185 | at the end of the run every entry is reachable again |
| `ProbeTable.Probe` | src/catalogue/catalog_image.c:87-103 | the probe loop ends at the key or at the first empty slot of its sequence |
| `ProbeTable.CloseHole` | src/catalogue/catalog_image.c:153-185 | the re-insertion loop makes the table whole without changing what it holds |
| `ProbeTable.RemoveAt` | src/catalogue/catalog_image.c:153-185 | exactly one key is gone |
| `ProbeTable.ProbeTable.Find` | src/catalogue/catalog_image.c:87-103 | find is map look-up |
| `ProbeTable.ProbeTable.Put` | src/catalogue/catalog_image.c:107-133 | put is map update, growing at three quarters load |
| `ProbeTable.ProbeTable.Grow` | src/catalogue/catalog_image.c:135-151 | growing keeps the contents |
| `ProbeTable.ProbeTable.Delete` | src/catalogue/catalog_image.c:303-336 | delete is map removal |
| `Endian.U32RoundTrip` | include/endian_helpers.h:26-40 | get undoes put |
| `Endian.U64RoundTrip` | include/endian_helpers.h:42-64 | get undoes put |
| `Endian.U64Surjective` | include/endian_helpers.h:42-64 | put undoes get |
| `Endian.I64RoundTrip` | include/endian_helpers.h:66-74 | the signed pair round-trips through the unsigned one |
| `Endian.U64OrderIff` | include/endian_helpers.h:42-52 | encoded bytes compare as the numbers do, both ways |
| `DeltaCodec.DecodeEncode` | src/catalogue/catalog_delta.c:67-115 | decoding reads back the record whatever follows it |
| `DeltaCodec.EncodeDecode` | src/catalogue/catalog_delta.c:160-206 | encoding writes back exactly the bytes decoded |
| `DeltaCodec.PrefixCode` | include/catalog_delta.h:78-92 | a stream that begins another stream consists of its first records |
| `DeltaCodec.UniqueDecoding` | include/catalog_delta.h:78-92 | two record sequences with the same bytes are the same |
| `DeltaCodec.CutAcceptedIff` | src/catalogue/catalog_delta.c:160-206 | a stream cut short is a stream again if and only if the cut is between records |
| `DeltaCodec.CutIsRejected` | src/catalogue/catalog_delta.c:160-206 | leftover bytes that hold no whole record are no stream |
| `DeltaCodec.Builder.Ensure` | src/catalogue/catalog_delta.c:27-46 | the doubling keeps what was built |
| `DeltaCodec.Builder.Append` | src/catalogue/catalog_delta.c:67-115 | the buffer is the serialisation of the records appended |
| `DeltaCodec.Deserialize` | src/catalogue/catalog_delta.c:160-206 | delivers whole records from the start; accepts a buffer only if it is a stream (or the callback stopped), rejects it only if it is none |
| `DeltaCodec.ReadBack` | src/catalogue/catalog_delta.c:160-206 | what was built is what is read back |
| `CatalogImage.HighIsMax` | src/catalogue/catalog_image.c:739-752 | the high-water mark is the largest number applied |
| `CatalogImage.NoGapIff` | src/catalogue/catalog_image.c:640-737 | no gap is flagged if and only if the numbers applied are 1, 2, 3, ... in order, wrapping as 64-bit numbers do |
| `CatalogImage.CompleteMeansAll` | src/catalogue/catalog_image.c:754-770 | complete if and only if nothing up to the authority's number is missing or out of order |
| `CatalogImage.EntryMeaning` | src/catalogue/catalogue_rondb.c:4155-4188 | a name record as the store emits it is read as that entry, or as the removal of that name |
| `CatalogImage.InodeMeaning` | src/catalogue/catalog_image.c:649-667 | an inode record is read as that inode with its columns, or as its removal |
| `CatalogImage.RenameReplays` | src/catalogue/catalogue_rondb.c:4155-4188 | the two records a rename emits move the name in every image that applies them, and change nothing else |
| `CatalogImage.InodeReplays` | src/catalogue/catalog_image.c:649-667 | an inode record sets or drops that inode in the image and nothing else |
| `CatalogImage.Image.Apply` | src/catalogue/catalog_image.c:640-737 | the two hash tables stay equal to folding the applied records over plain maps, and the marks to the numbers per stream; refused exactly are inode records without a fileid, puts without a name and cut name records |
| `CatalogImage.Image.IsComplete` | src/catalogue/catalog_image.c:754-770 | the answer is that statement about every record applied |
| `LayoutRange.UnionCovers` | include/layout_range.h:38-80 | the union loses no byte |
| `LayoutRange.UnionIsHull` | include/layout_range.h:38-80 | and is the convex hull, except where the end saturates |
| `LayoutRange.FoldedCovers` | include/catalogue_rondb.h:690-708 | after any number of renewals every granted byte is covered |
| `LayoutRange.FoldedIsHull` | include/layout_range.h:38-80 | and the row is the hull of the grants |
| `LayoutRange.OrderDoesNotMatter` | include/layout_range.h:38-80 | whatever order the grants came in |
| `LayoutRange.IntersectIsShared` | src/mds/layout_recall.c:699-725 | the intersection is found if and only if a byte below the last is shared, and is exactly the shared bytes |
| `LayoutRecall.RenewSpeaks` | src/catalogue/catalogue_rondb_shim.cpp:11682-11786 | a renewed row covers the new grant and all earlier ones, in range, write intent and seqid |
| `LayoutRecall.SpansBytes` | include/layout_range.h:38-80 | the row speaks for a range if it misses no byte of it, and then misses none but the very last |
| `LayoutRecall.RenewTight` | src/catalogue/catalogue_rondb_shim.cpp:11682-11786 | a renewed row says no more than its grants: their hull, write intent of one of them, their largest seqid |
| `LayoutRecall.StepSoundIff` | src/catalogue/catalogue_rondb_shim.cpp:11788-11830 | of all steps only the insert of a first grant can lose a grant, if and only if it finds a row that is not within the one it writes in range, write intent or seqid |
| `LayoutRecall.SeqidGrows` | src/catalogue/catalogue_rondb_shim.cpp:11682-11786 | a renewal never lowers the seqid |
| `LayoutRecall.RunSound` | src/catalogue/catalogue_rondb_shim.cpp:11788-11830 | in every run the row speaks for every grant, and no more, up to the first such insert, and not right after it |
| `LayoutRecall.RunCoversAll` | include/catalogue_rondb.h:690-708 | every granted byte is covered, the last one included, as long as no insert takes a byte of the row away |
| `LayoutRecall.LostRange` | src/catalogue/catalogue_rondb_shim.cpp:11788-11830 | two first grants, one of which is lost |
| `LayoutRecall.NeverMissed` | src/mds/layout_recall.c:946-1010 | a client that may touch a requested byte in a conflicting mode has a row the scan does not skip |
| `LayoutRecall.ConflictsIff` | src/mds/layout_recall.c:679-692 | a row conflicts if and only if it is another client's, not both are for reading, and they share a byte below the last |
| `LayoutRecall.Admit` | src/mds/layout_recall.c:908-938 | one recall per client, carrying its newest row |
| `LayoutRecall.Collect` | src/mds/layout_recall.c:946-1010 | every conflicting client is recalled if and only if there is room for all of them; with room left that is every other client with a shared byte unless both read; each recall comes from such a row and names exactly the shared bytes |
| `LayoutRecall.RecallReaches` | src/mds/layout_recall.c:946-1010 | from grant to recall: in a run without such an insert, a conflicting request for any granted byte but the very last recalls the holder when there is room |
| `StripeLease.SlicesPartition` | src/fsal_obj/lease_stripe_map.c:19-71 | each slice lies in one stripe, indexes are consecutive, and each starts where those before it end |
| `StripeLease.SlicesAddUp` | src/fsal_obj/lease_stripe_map.c:19-71 | the lengths add up to the request |
| `StripeLease.TouchedIsCount` | src/fsal_obj/lease_stripe_map.c:19-71 | there are as many slices as stripes from the first byte to the last |
| `StripeLease.SliceStarts` | src/fsal_obj/lease_stripe_map.c:19-71 | the slices cover the range from its first byte on, without gap or overlap |
| `StripeLease.Fill` | src/fsal_obj/lease_stripe_map.c:19-71 | the loop fills the buffer with exactly these slices, or says which of buffer and indexes ran out |
| `StripeLease.CutRange` | src/fsal_obj/lease_stripe_map.c:19-71 | ENOSPC exactly when more stripes are touched than the buffer holds (and the indexes do not run out first), EINVAL exactly when, else exactly the slices |
| `StripeLease.BlockedIff` | src/fsal_obj/lease_table.c:125-152 | blocked is a slice of which a running lease of another client on the stripe has a byte |
| `StripeLease.LeaseTable.Evict` | src/fsal_obj/lease_table.c:76-91 | exactly the expired leases go |
| `StripeLease.LeaseTable.CheckConflict` | src/fsal_obj/lease_table.c:125-152 | a conflict if and only if another client's unexpired lease on the stripe has a byte of the slice |
| `StripeLease.LeaseTable.Acquire` | src/fsal_obj/lease_table.c:154-202 | the lease is there afterwards, refreshed and not doubled when one with that start was running, and no other running lease is touched |
| `StripeLease.LeaseTable.Release` | src/fsal_obj/lease_table.c:204-229 | the first lease with that start goes and nothing else |
| `StripeLease.LeaseTable.FreePrefix` | src/fsal_obj/lease_table.c:253-284 | the answer is the bytes of the longest run of leading slices with no running lease of another client |
| `DirentCache.Cache.Get` | src/mds/dirent_cache.c:332-389 | an entry past its span is dropped and reads as a miss, negative and positive ones by their own span, a zero positive span lasting for ever |
| `DirentCache.Cache.Store` | src/mds/dirent_cache.c:231-275 | one other entry is evicted, and only when the cache is full |
| `DirentCache.Cache.PutPositive` | src/mds/dirent_cache.c:391-400 | a found child is cached, a zero one refused; on its name this is the step of the interleaving model |
| `DirentCache.Cache.PutNegativeIfUnchanged` | src/mds/dirent_cache.c:430-503 | a negative entry is inserted exactly when the generation has not moved; on its name this is the step of the interleaving model |
| `DirentCache.Cache.Drop` | src/mds/dirent_cache.c:505-540 | exactly that entry goes |
| `DirentCache.Cache.DropParent` | src/mds/dirent_cache.c:542-569 | exactly the entries of that directory go |
| `DirentCache.StepKeepsInv` | src/mds/dirent_cache.c:430-540 | the invariant behind the guard survives every step of readers, creators, removers and evictions |
| `DirentCache.NegativesAreNotStale` | include/dirent_cache.h:88-147 | in every run a cached "not found" for a name that exists has a creator between its commit and its invalidation |
| `DirentCache.QuietMeansFresh` | include/dirent_cache.h:88-147 | once the invalidations are done no stale negative remains |
| `DirentCache.StepFreshIff` | src/mds/dirent_cache.c:391-400 | a positive entry comes to name a child the name no longer stands for, with nobody left to drop it, if and only if it is inserted when the name is gone or replaced and the remover is done |
| `DirentCache.PositivesFresh` | src/mds/dirent_cache.c:391-400 | in every run positive entries are fresh up to the first such insert, and not right after it |
| `DirentCache.PositivesFreshUnlessOvertaken` | src/mds/dirent_cache.c:505-540 | no stale positive outlives its remover in a run in which no whole removal or replacement falls between a reader's look-up and its insert |
| `DirentCache.PositivesCanGoStale` | src/mds/dirent_cache.c:391-400 | a run in which one does |
| `NodeRegistry.Registry.Register` | src/catalogue/catalogue_rondb_shim.cpp:13090-13176 | written only over nothing or over an older incarnation |
| `NodeRegistry.Registry.Heartbeat` | src/catalogue/catalogue_rondb_shim.cpp:13275-13331 | NOTFOUND and STALE exactly when; else exactly this incarnation's row is refreshed |
| `NodeRegistry.Registry.Deregister` | src/catalogue/catalogue_rondb_shim.cpp:13333-13383 | STALE exactly for another incarnation's row; a row already gone is success |
| `NodeRegistry.Registry.ScanStale` | src/catalogue/catalogue_rondb_shim.cpp:13385-13459 | exactly the rows stamped before the threshold |
| `NodeRegistry.EpochsGrow` | include/mds_cluster.h:107-153 | in every run the epoch of a row that persists never goes down |
| `NodeRegistry.OnlyTheOwnerActs` | include/mds_cluster.h:107-153 | only the matching incarnation refreshes or deletes a row, only a newer one replaces it |
| `NodeRegistry.SupersededIsFenced` | include/mds_cluster.h:107-153 | once superseded, an old incarnation's heartbeat and deregister leave the row untouched and are answered STALE |
| `NodeRegistry.PartnerIsStale` | src/cluster/failover_watchdog.c:185-220 | declared stale if and only if the row was stamped more than fifteen seconds ago and in realtime |
| `NodeRegistry.IndeterminateIsNotStale` | src/cluster/failover_watchdog.c:108-111 | a row below the realtime floor never leads to a promotion |
| `NodeRegistry.NeverStaleIff` | include/failover_watchdog.h:27-77 | a live node is never declared stale in any schedule if and only if the watchdog's clock is ahead by at most threshold minus startup deadline |
| `Failover.StepKeepsInv` | src/cluster/subtree_map.c:1244-1359 | every step of every promoting node keeps: the store gives a node what it swapped, and its own view claims no more |
| `Failover.RunKeepsInv` | src/cluster/failover.c:350-447 | in every state of every run of any number of standbys |
| `Failover.AtMostOneWinner` | src/catalogue/catalogue_rondb_shim.cpp:14364-14437 | each partition is won by at most one standby, in the store and in their views, but for the instant of handing it back |
| `Failover.PrimaryIsReady` | src/cluster/failover.c:350-447 | a published primary went through begin, end of takeover, successful recovery load, grace and publication in this order and in this promotion, and the store gives it all it took |
| `Failover.LoserTookNothingIff` | src/cluster/failover.c:190-203 | a promotion that reports a lost race or a failed store is in standby, and has won nothing in the store if and only if no refresh of its map came between winning a partition and the change in the map |
| `Failover.RunReturned` | src/cluster/failover.c:164-181 | of the partitions it won in a promotion the store gives a node exactly those it has not returned |
| `Failover.LoadFailedKeepsIff` | src/cluster/failover.c:376-416 | a promotion whose recovery load failed is in standby; of what it won it still owns in the store exactly what its map did not show as the partner's when the rollback list was made, and what the store could not decide to return |
| `Failover.UndisturbedReturns` | src/cluster/failover.c:376-416 | when no refresh of the map came between the rollback list and the takeover's own look at the map, that is exactly what the store could not decide |
| `Failover.NeverReturned` | src/cluster/failover.c:376-416 | a run in which the map learns of a partition between the two looks: it is taken and the rollback ends without returning it |
| `Failover.FlipCountsIff` | src/cluster/subtree_map.c:1221-1278 | a partition won in the store is counted as taken if and only if the map was not refreshed in between |
| `Failover.WinnerStandsBy` | src/cluster/subtree_map.c:1302-1359 | a run in which a node wins its only partition in the store and reports a lost race |
| `Promotion.PartitionTable.Claim` | src/catalogue/catalogue_rondb_shim.cpp:14297-14362 | a partition is claimed once |
| `Promotion.PartitionTable.Cas` | src/catalogue/catalogue_rondb_shim.cpp:14364-14437 | the owner changes exactly when it was the expected one |
| `Promotion.Promoter.Transfer` | src/cluster/subtree_map.c:1244-1278 | store first and view second: both change or neither |
| `Promotion.Promoter.TakeOver` | src/cluster/subtree_map.c:1302-1359 | exactly what view and store give to the partner is taken; success, STALE and IO exactly when |
| `Promotion.Promoter.RollBack` | src/cluster/failover.c:164-181 | exactly what this node holds of the recorded partitions is given back, as far as the store answers |
| `Promotion.Promoter.Promote` | src/cluster/failover.c:350-447 | each status exactly when: OK needs a healthy standby, something gained (or nothing to gain) and a good recovery load; a refused or lost promotion leaves view and store as they were; a failed recovery load keeps exactly what was taken and could not be given back |
| `Promotion.HandedBack` | src/cluster/failover.c:164-181 | the rollback undoes the takeover but for what the store does not answer for |
| `PromotionRuns.Steps` | src/cluster/failover.c:350-447 | an undisturbed promotion is a path of the concurrent step machine, from begin through every swap and flip, with the load and the rollback, to its outcome |
| `PromotionRuns.PromoteInSteps` | src/cluster/failover.c:350-447 | the promotion as the code runs it answers with the outcome of that path and leaves view, store and role where it ends |
| `HardLink.Coordinator.Initiate` | src/cluster/hardlink_2pc.c:72-145 | the name is created exactly when increment and its own write went through; the reported status, including success after a failed increment and failure for a name that exists; and exactly what is left in the journal |
| `HardLink.PreparedEitherWay` | src/cluster/hardlink_2pc.c:126-135 | two calls that report failure and leave the same PREPARED journal row, one with the name and one without |
| `HardLink.RunKeepsInv` | src/cluster/cluster_transport.c:6212-6240 | in every run the link count is local names plus served requests plus repeats |
| `HardLink.LinksNeverShort` | include/catalogue_internal.h:75-81 | no name is ever without its link whatever is lost, late or repeated; exact if and only if nothing was served twice and everything served was linked |
| `HardLink.OncePerTransactionIff` | src/cluster/cluster_transport.c:6212-6240 | in every run the link count moves once per transaction if and only if no request is served twice |
| `HardLink.LinkedIff` | src/cluster/hardlink_2pc.c:126-135 | a name exists exactly from the write of its dirent on |
| `HardLink.LostReplyLeaks` | src/cluster/hardlink_2pc.c:199-208 | a lost reply leaks a link that the abort message does not take back |
| `HardLink.RunCounts` | src/cluster/hardlink_2pc.c:147-187 | for the read-then-write prepare: the count is exact in every run up to the first write before which names came or went since its read, or the first anchor that fails, and not right after it |
| `HardLink.RunNeverShort` | src/cluster/hardlink_2pc.c:147-187 | no name is without its link as long as no write comes after more names than its read saw, failed anchors or not |
| `HardLink.PutShortIff` | src/cluster/hardlink_2pc.c:147-187 | after a write whose read found the count exact this is if and only if |
| `HardLink.RunUndisturbed` | src/cluster/hardlink_2pc.c:147-187 | in particular the count is exact when nobody else writes the row between a prepare's read and its write and no anchor fails |
| `HardLink.FailedAnchor` | src/cluster/hardlink_2pc.c:165-186 | a single undisturbed prepare whose anchor write fails: it votes to abort and the link count stays raised |
| `HardLink.LostUpdate` | src/cluster/hardlink_2pc.c:147-187 | a run of two overlapping prepares that both vote and count once |
| `Readdir.ReadPage` | src/mds/compound_namespace.c:3271-3402 | a page is the visible rows up to where it is first full, within the budgets unless it is a single entry; the end is reported if and only if no visible row delivered by the store found it full |
| `Readdir.PageCovers` | src/mds/compound_namespace.c:3438-3545 | a page delivers every visible row up to its last cookie and nothing else |
| `Readdir.EndsEarlyIff` | src/mds/compound_namespace.c:3438-3545 | the end is reported too early if and only if nothing fills the page and the row limit cuts off a visible row |
| `Readdir.EarlyForSomeBudgetIff` | src/mds/compound_namespace.c:3438-3545 | some budget makes that happen if and only if the listing hides a row within the limit and has a visible one beyond |
| `Readdir.EarlyEnd` | src/mds/compound_namespace.c:3438-3545 | one hidden row and 257 visible ones under the largest reply budget: the last entry is never listed |
| `Readdir.NothingTwice` | include/mds_catalogue.h:638-662 | no cookie is delivered on two pages, however the paging ends |
| `Readdir.NothingMissed` | include/mds_catalogue.h:53-79 | unless the last listing is cut short like that, an entry present throughout is delivered, even when the entry of a resume cookie is gone |
| `Readdir.ExactlyOnce` | include/mds_catalogue.h:53-79 | hence on exactly one page, whatever is inserted and removed between pages |
| `Readdir.ExactlyOnceUnlessRisky` | include/mds_catalogue.h:53-79 | in particular when the last listing is short or hides nothing within the limit |
| `Readdir.QuietPagingIff` | src/mds/compound_namespace.c:3438-3545 | of a directory nobody changes, every visible entry is delivered if and only if the last listing is not cut short |
| `GcSweep.HintRoundTrip` | include/pnfs_mds.h:354-396 | legacy, geometry and slot hints decode to what was encoded, so they are told apart |
| `GcSweep.HintUnique` | include/pnfs_mds.h:354-396 | every word decodes to a hint that encodes to it |
| `GcSweep.FirstSeenLists` | include/layout_ds_ids.h:94-143 | each data server once, none left out, none made up |
| `GcSweep.FirstSeenOrder` | include/layout_ds_ids.h:94-143 | in first-seen order |
| `GcSweep.FromEntries` | include/layout_ds_ids.h:94-143 | the dedup loop returns that list and fails exactly for a phantom entry or too many |
| `GcSweep.CollectUnique` | src/mds/compound_namespace.c:1611-1665 | the rows of a final unlink are one per data server, in that order, each with the (cut) handle of the server's first entry |
| `GcSweep.Servers.SweepGeometry` | src/modules/ds_gc/ds_gc.c:113-142 | exactly the slots of the geometry go, present or not |
| `GcSweep.Servers.SweepSlot` | src/modules/ds_gc/ds_gc.c:91-100 | exactly one slot goes |
| `GcSweep.Servers.SweepDense` | src/modules/ds_gc/ds_gc.c:156-189 | exactly the dense part goes |
| `GcSweep.Servers.Process` | src/modules/ds_gc/ds_gc.c:215-247 | what each kind of hint takes away; that nothing of another file or server goes; and that an unmounted data server, told apart from an I/O error, leaves everything as it was |
| `GcSweep.Servers.WorkOff` | src/modules/ds_gc/ds_gc.c:215-247 | a row stays queued exactly after an I/O error; the row of an unmounted data server is dropped with nothing destroyed |
| `GcSweep.ReclaimFile` | src/mds/compound_namespace.c:1667-1737 | one geometry row per data server of the stripe map, each worked off, takes every object of the file that lies on a mounted data server and nothing else |
| `GcSweep.ReclaimLegacy` | src/modules/ds_gc/ds_gc.c:156-189 | a row without a geometry takes all objects of the file from its mounted data server if and only if the stripe map is dense there: the first mirror of every earlier stripe and every earlier mirror of the stripe are there too; from an unmounted one it takes nothing |
| `GcSweep.OneByOneIsDense` | src/modules/ds_gc/ds_gc.c:156-189 | a file of one stripe and one mirror is dense on every data server |
| `GcSweep.WideIsNotDense` | src/modules/ds_gc/ds_gc.c:156-189 | the second of two stripes on two data servers is not |

## Left out

- Follow-up transactions: the separate GC enqueue after a rename over a striped file, which comes later and may be lost in a crash; Reclaim and ConcurrentClients speak about the committed state before it.
- The fallback for stores without the fused operation: a remove followed by a separate enqueue of the rows read before it.
- Re-striping a file that has a stripe map (the data mover, migration), and the preallocated object pool.
- Raw row access (`dirent_put`, `inode_put`, `inode_del`, `nlink_adjust`), which bypasses the invariants by design.
- 32-bit overflow of link counts; timestamps, change counters of the namespace rows, quota, attributes and access checks.
- The relaxed directory-change option, and the inline form of a single-stripe map, which is merged with the stripe tables here.
- The deferred-remove queue and the retry loops around a stale or temporary answer; each retry is one more call.
- Catalogue.Catalogue.Create: requires a fileid never used before and a parent that is not a file, as the protocol layer guarantees before the call.
- Catalogue.Catalogue.RenamePlanned: requires what every plan read at any time meets, which ConcurrentClients.RunKeepsInv proves of all runs.
- LockTable: the shared lock rows, the 56-bit stateid counter, and the hash stripes and their locks.
- ParentTouch: least-recently-used order of evictions (any eligible bucket may go), the stamps that travel with the counter, crash loss, and seeds from other metadata servers.
- OpenState: the durable rows themselves, delegations, and record reuse from the allocation pool.
- CatalogImage: the poller that fetches records, sorted listing of an image directory, and the columns inside an inode payload, which are kept as bytes.
- LayoutRecall: grants in the mode "any", the device index rows, and sending the recalls.
- StripeLease.LeaseTable.FreePrefix: requires the slices of the range, which its caller has just cut, and a clock that does not go back.
- DirentCache: which entry is least recently used (any other one may be evicted), and invalidations sent to other servers.
- NodeRegistry.Registry.Register: the insert that loses to a concurrent insert and is retried is one atomic step here.
- Failover: partitions that move in the node's map only (entries without a store row, or a store without the compare-and-swap), of which two standbys may both take one; the look at the map right before a compare-and-swap is one step with it.
- Failover: the dead partner takes no steps; grace, recovery rows and membership are reduced to their order; planned demotion is not modelled.
- HardLink: start-up recovery of PREPARED rows, decrement requests, and what the anchor rows say.
- RenameCheck: paths that other clients' renames have made stale since the look-ups, and the rule between subtrees and shards that comes before the test.
- Readdir: the listing by name for stores without cookies, and the cookie that hard links of one file share in the store.
- GcSweep: the worker threads, and probing for objects outside the geometry.
- Reclaim: the worker's delete of left-over stripe rows and its dequeue of the row are one step.
- Cross-directory rename between servers, subtree migration, backup, and everything that is network, wire or storage-library plumbing.
- Memory exhaustion and null arguments.
