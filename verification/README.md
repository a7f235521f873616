# Verified models of the hypervec vector database

Dafny models of the parts of hypervec whose correctness is hardest to see from one function: the Python
server's collection lifecycle when the process stops at any write, its reader-writer lock, and the C++
sorting, hashing, graph, partitioning, merging and quantization code. Every method, function and lemma
below is checked by `dafny verify dfyconfig.toml`; nothing here executes the database.

## What is modelled

**Collection lifecycle** (`Tables`, `Bundles`, `Collection`, `ImportRecovery`, `ImportChains`,
`PurgeSafety`, `BundleRoundTrip`, `Ingest`, `Freshness`, `VersionProtocol`, `Engine`). One collection
lives in three stores that cannot commit together: the index file with its side files, the live and
staging SQLite tables, and its entry in `collections.json`. Each operation is a sequence of durable
writes; a process that stops keeps a prefix, and a restart runs recovery, which may be cut short again
any number of times. `Engine` has the server's own shape, objects whose methods write one store at a
time, and each of its methods is proved to make exactly the write sequence the crash lemmas reason
about. Where the documented promise does not hold unconditionally, the exact condition is proved: an
import is atomic if and only if it starts from a live index without a differing `.pre-import` file, and
interrupted recovery converges if and only if the row counts differ, from any start; an open purge gate
covers rows and index until one of a few crashes, listed in `PurgeSafety.Torn`; an exported bundle can
be read back if and only if the rows fit the dimension the metadata states.

**Lock** (`RWLocks`). The writer-preferred lock as a state machine with explicit waiting, parked and
notified threads, and the object itself, whose critical sections are its actions.

**Array algorithms** (`Buckets`, `BucketSort`, `BucketSortParallel`, `BucketSortInPlace`, `HashTables`,
`FuzzyPartition`, `BufferLists`, `RangeMerge`). Bucket sorts: stable reference, any-schedule parallel
version, and the cycle-following in-place version; the bucketed open-addressing table; fuzzy partition
by bisection; linear buffers and the merge of partial range-search results.

**HNSW** (`HnswGraph`, `HnswSelect`, `HnswSearch`, `HnswLinks`, `HnswInsertion`, `Hnsw`,
`VisitedTables`, `MinimaxHeaps`). The flat neighbour layout through insertion and pruning, the level
search in its reference and batched forms and what its result means, what an inserted point is linked
to, greedy descent, the stamp table, and the bounded candidate heap with its three pop implementations.

**Quantization and one-dimensional search** (`Bits`, `PqCodes`, `Vectors`, `Pq`, `Ivfpq`, `Lvq`,
`FlatOneD`). Bit packing in both directions, distance tables against reconstruction, the precomputed
IVFPQ table against the direct one, LVQ codes, and exact nearest neighbours by two-sided expansion.

`Collections` and `Rows` hold facts about sets, sequences and flat tables that several modules use.

## Conventions

- Checksums are free constructors, that is, SHA-256 is taken to be injective. A file write is torn until
  it ends; unlink, rename and a metadata update are atomic; a SQLite transaction commits or rolls back.
- A crash is a process that stops: what it wrote is durable. Surviving a power cut needs more than the
  code asks for, since SQLite runs in WAL mode with `synchronous=NORMAL` and renames are not followed by
  `fsync`.
- The rows of a batch encode without an error. The source rolls back an insert on a key conflict only,
  so an encoding error further down a batch would leave its transaction open for the next commit.
- Distances are exact reals, or integers that stand for a float's rank (`MinimaxHeaps`); there is no
  NaN.
- A priority queue's choice among equal elements may depend on everything done to it before, in any way
  (`HnswSelect.Ties`); random levels, distances, hash values and trained codebooks are inputs.
- An exception or a failed `THROW_IF_NOT` is a result `ok == false`. Vector instructions are taken by
  their meaning lane by lane; a 64-bit register wraps explicitly (`Bits.Shl64`).
- A thread schedule is an arbitrary choice inside the model: which thread enters a critical section
  next, which thread writes next, which thread handles which hash bucket.

## Where the code differs from what it says

- `import_collection_bundle` calls its switch "all-or-nothing" after recovery; without a prior index, or
  over a stale `.pre-import` file, it is not (`ImportAtomicIff`), and such a file arises by itself
  (`FinishedImportMayLeavePreImport`, `SafeAgainIff`).
- Recovery is not idempotent for equal row counts (`RecoveryConvergesIff`, `EqualCountsMislead`).
- `purge_collection_data(require_exported=True)` is meant to delete nothing the last export lacks. For
  rows that always holds when every crash is followed by a restart (`PurgeNeverLosesRows`,
  `UnrecoveredSwitchAtTheGate`); the index can be another one after a crash inside flush or upload or at
  the marker of an import over a stale `.pre-import` file, and is missing after one inside purge
  (`GateBreaksIff`).
- `export_collection_bundle` compares the index with the metadata and never looks at the rows'
  dimensions, so it can produce a bundle that `read_bundle` rejects, right before the purge it allows
  (`MisfitRun`, `ExportPurgeImportIff`). Rows that do not fit come from importing a bundle whose
  manifest has no dimension, or from a drop stopped after its metadata write (`InheritedRows`,
  `FirstDimensionFitsIff`).
- A purge stopped between dropping the table and writing its metadata changes the rows under an
  unchanged data version (`StepForwardIff`).
- `RWLock.acquire_write` left by an exception can strand a parked reader (`AbandonedWriteIff`).
- `bucket_sort_inplace_ref` asserts inside its loop that the slot is in range, which in its first turn
  means that bucket 0 is not empty; without assertions the result is right either way.
- `simd_partition_fuzzy` reports q_max kept elements when q_max exceeds n.
- `CountBelow` counts popped entries too.
- `IndexHNSW::Add` draws levels for all points on every call, so its tables outgrow the points.

## Model

| member | source | states |
|---|---|---|
| ImportRecovery.ImportAtomicIff | src/python/hypervec_server_engine.py:892-1063 | From any quiescent collection that accepts the bundle: stopping the import after any number of its durable writes and then recovering leaves index bytes, rows and every metadata field all old or all new, if and only if there was a live index and no differing `.pre-import` file. |
| ImportRecovery.ImportOutcome | src/python/hypervec_server_engine.py:977-1063 | A finished import shows exactly the bundle's index and rows, no side files, and the metadata one data version on with a fresh index. |
| ImportRecovery.CrashStates | src/python/hypervec_server_engine.py:977-1063 | Every crash point of an accepted import falls into one of four shapes: untouched, marked with old rows and staging present, marked with both swaps done, finished. |
| ImportRecovery.CrashAtMarker | src/python/hypervec_server_engine.py:161-169 | Stopping right after the commit-intent marker: recovery restores the stale `.pre-import` file if there is one, and ends `invalid` when no index is left. |
| ImportRecovery.CrashAfterSwapWithoutIndex | src/python/hypervec_server_engine.py:119-169 | Without a prior index, a crash after the index swap is rolled back to the old rows and metadata but keeps the new index file. |
| ImportRecovery.RecoveryConvergesIff | src/python/hypervec_server_engine.py:96-173 | From any quiescent collection that accepts the bundle, with or without an index or a left-over `.pre-import` file: for every crash point of the import and any number of recoveries cut short at any of their writes, the final outcome is that of one uninterrupted recovery, if and only if the old row count differs from the bundle's. |
| ImportRecovery.EqualCountsMislead | src/python/hypervec_server_engine.py:119-126 | The failing pair of crash points for each start (index, only a `.pre-import` file, neither): with equal counts, a recovery cut short there makes the next one announce a new data version over the old rows, while one whole recovery restores the old metadata. |
| ImportRecovery.FinishedImportMayLeavePreImport | src/python/hypervec_server_engine.py:1056-1056 | A crash just before the last clean-up leaves a finished import together with a `.pre-import` file that recovery skips, so the next import no longer starts safely. |
| ImportRecovery.RecoveryCleansUp | src/python/hypervec_server_engine.py:143-153 | Recovery of an unfinished import leaves no staging table, no staged index and no `.pre-import` file, whichever way it goes. |
| ImportRecovery.NextImportSafeIff | src/python/hypervec_server_engine.py:992-1056 | An import that starts safely, is stopped after any of its writes and recovered, leaves a safe start for the next import, if and only if it was not stopped just before its last clean-up with another index than before. |
| ImportRecovery.EveryImportAtomic | src/python/hypervec_server_engine.py:892-1063 | Over any sequence of imports, accepted or turned away, each stopped anywhere but just before its last clean-up and recovered, every one of them leaves index, rows and metadata all old or all new. |
| ImportChains.SafeAgainIff | src/python/hypervec_server_engine.py:119-173 | With restarts cut short as well: the next start is safe except, when the index changed, in three cases: the import stopped just before its last clean-up; its roll-forward was cut short before its clean-up; or, with equal row counts, a roll-back cut short misled the next recovery, which was cut short there. |
| PurgeSafety.PurgeNeverLosesRows | src/python/hypervec_server_engine.py:1101-1123 | In every run of create, drop, insert, flush, upload, load, close, export, import and purge, each possibly cut short at any durable write and followed by restarts that may be cut short too: whenever the exported-only purge is allowed, the live rows are those of the most recently exported bundle (or there are none). |
| PurgeSafety.StepTrackedIff | src/python/hypervec_server_engine.py:1101-1123 | From a state whose metadata match rows, index and last export, any call, finished or cut short and recovered, leads to such a state again if and only if it is none of the torn crashes: between the two writes of a flush or upload that changes the index, inside a purge before its metadata write, or at the marker of an import over a `.pre-import` file that differs from the index, unless restarts cut short and equal row counts finish that import. |
| PurgeSafety.GateBreaksIff | src/python/hypervec_server_engine.py:1101-1123 | While the exported-only purge is allowed, one call leaves it allowed over rows or an index the last export does not hold if and only if it is a torn crash. |
| PurgeSafety.PurgeCoversRowsAndIndex | src/python/hypervec_server_engine.py:1101-1123 | In every run without a torn crash, an allowed purge deletes rows and index bytes equal to the last export's; all other crashes, failed calls and recoveries cut short are included. |
| PurgeSafety.FlushCrashAtTheGate | src/python/hypervec_server_engine.py:528-538 | A crash between flush's two writes leaves the collection purgeable; the export then holds rows and index if and only if the rebuild reproduced the index. |
| PurgeSafety.UploadCrashAtTheGate | src/python/hypervec_server_engine.py:747-760 | The same for an upload: if and only if the uploaded file is the index already there. |
| PurgeSafety.MarkerCrashAtTheGate | src/python/hypervec_server_engine.py:161-169 | A crash at the marker of an import over a `.pre-import` file, recovered once: the gate stays open, and the export holds the index if and only if that file equals it. |
| PurgeSafety.UnrecoveredSwitchAtTheGate | src/python/hypervec_server_engine.py:1057-1063 | An import stopped between table swap and metadata write, without a restart, keeps the old export valid: purge is allowed, and the export holds the rows now live if and only if they are the rows it was taken from. |
| PurgeSafety.RejectedImportTouchesNothing | src/python/hypervec_server_engine.py:979-1028 | A bundle that is turned away leaves index, rows, metadata and `.pre-import` as they were at every one of its writes. |
| Ingest.RejectedLeavesNothingStaged | src/python/hypervec_server_engine.py:1014-1028 | And once it is swept, no staging table and no staged index are left. |
| VersionProtocol.SameVersionSameRows | src/python/hypervec_server_engine.py:496-510 | Between any two points of a run, with crashes anywhere, the collection stays, neither version goes back, and an equal data version means equal rows, unless a call in between is one of the two of `StepForwardIff`. |
| VersionProtocol.StepForwardIff | src/python/hypervec_server_engine.py:443-453 | One call, finished or cut short and recovered, keeps rows and versions in step if and only if it is no drop that removes existing metadata and no purge stopped right after dropping a table that held rows. |
| BundleRoundTrip.RowsStayLabelled | src/python/hypervec_scalar_store.py:94-134 | After any run, crashes anywhere, the row ids are exactly 0..count-1, no document id repeats and no import is left in flight. |
| BundleRoundTrip.FlushedLabelsAreRows | src/python/hypervec_server_engine.py:515-549 | After a flush, label i of the index file is the vector of the row whose id is i, for every row and no other. |
| BundleRoundTrip.ExportsReadableIff | src/python/hypervec_server_engine.py:772-890 | In every run, crashes anywhere: a bundle that export produces is accepted by `read_bundle` if and only if all rows have the dimension the metadata states. |
| BundleRoundTrip.ExportsPassTheLabelCheck | src/python/hypervec_server_engine.py:772-890 | A sufficient condition on the run: if every drop runs to its end and every imported manifest states a positive dimension, each exported bundle is accepted. |
| BundleRoundTrip.CacheStaysCoherent | src/python/hypervec_server_engine.py:551-584 | After any run the in-memory index, if loaded, is the readable index file on disk. |
| BundleRoundTrip.ExportPurgeImportIff | src/python/hypervec_server_engine.py:807-890 | Export, purge, import in every run: the purge is allowed and empties the collection; the import is accepted if and only if the rows fit the stated dimension, and then index bytes and rows are the exported ones, the index fresh and the data version two higher; otherwise the collection stays empty. |
| BundleRoundTrip.ExportPurgeImport | src/python/hypervec_server_engine.py:807-890 | In a run whose drops run to their end and whose imported manifests state a positive dimension, the round trip completes. |
| BundleRoundTrip.ImportThenExport | src/python/hypervec_server_engine.py:892-1063 | After an import, export succeeds if and only if the index has the collection's dimension, and the rows fit if and only if the bundle's vectors have it; a positive dimension in the manifest guarantees both. |
| BundleRoundTrip.MisfitRun | src/python/hypervec_server_engine.py:840-880 | A failing run without a crash, for any two vectors of different lengths: create, insert, import of a bundle without a dimension; export succeeds, its bundle is unreadable, the purge is allowed, the import back is rejected. |
| BundleRoundTrip.InheritedRows | src/python/hypervec_server_engine.py:443-453 | A collection created after a drop that stopped behind its metadata write has the old rows and no dimension. |
| BundleRoundTrip.FirstDimensionFitsIff | src/python/hypervec_server_engine.py:485-510 | The insert that fixes the dimension leaves rows that fit if and only if the rows already there have it. |
| Ingest.InsertSucceedsIff | src/python/hypervec_server_engine.py:468-510 | An insert goes through if and only if the collection exists, all vectors are flat, of one length and of its dimension, and no id, given or made up from a row id, is taken or repeated. |
| Ingest.InsertStoresBatch | src/python/hypervec_server_engine.py:475-508 | An insert that goes through appends exactly its rows: row i of the batch is stored under row id count + i with its own vector and payload and its own id, or else the decimal of the row id, under the next data version. |
| Ingest.InsertThenFlush | src/python/hypervec_server_engine.py:515-549 | After an insert and a flush, the label count + i is the vector of row i of the batch, and the older labels are the older rows' vectors. |
| Ingest.FlushSucceedsIff | src/python/hypervec_server_engine.py:515-527 | A flush goes through if and only if there are rows and all have the collection's positive dimension. |
| Ingest.UploadSucceedsIff | src/python/hypervec_server_engine.py:733-758 | An upload goes through if and only if the file exists, is readable and has the checksum asked for, and the version asked for is not older; the version then is that one or the next. |
| Ingest.LoadSucceedsIff | src/python/hypervec_server_engine.py:551-577 | A load goes through if and only if there is a readable index file, which then is the one in memory. |
| Ingest.ExportSucceedsIff | src/python/hypervec_server_engine.py:790-835 | With the in-memory index in step with the file, an export goes through if and only if the collection is ready, the index readable and fresh, and the counts and dimensions agree. |
| Ingest.VersionsMove | src/python/hypervec_server_engine.py:496-538 | How each call that goes through moves the three versions: an insert or purge makes the index stale, a flush or upload makes it fresh and raises the version, an import does both, every other call leaves them. |
| Ingest.FlushThenExportIff | src/python/hypervec_server_engine.py:790-835 | Right after a flush, export goes through if and only if the collection is ready. |
| Ingest.InsertFlushExport | src/python/hypervec_server_engine.py:772-890 | In a tidy run, a non-empty batch that was inserted can be flushed, and exported if and only if the collection is ready; the readable bundle then holds each row of the batch with its id, payload and vector, and the vector again under the row's label. |
| Ingest.FirstBatch | src/python/hypervec_server_engine.py:418-441 | A collection just created takes a non-empty batch if and only if the vectors fit each other and the ids differ, and then flush and export go through. |
| Ingest.PurgeEmpties | src/python/hypervec_server_engine.py:1131-1181 | A purge leaves no rows, no index, no side file, remembers the count, and makes any index stale. |
| Ingest.PurgedUntilImport | src/python/hypervec_server_engine.py:790-800 | After a purge nothing can be exported until a drop or an import, whatever is inserted or flushed in between, crashes included. |
| Ingest.DropLeavesNothing | src/python/hypervec_server_engine.py:443-453 | A finished drop leaves nothing but a staging table, if there was one. |
| Ingest.ImportSetsDimension | src/python/hypervec_server_engine.py:1045-1046 | A finished import takes the manifest's dimension if it states a positive one, and keeps the collection's otherwise. |
| Tables.StrReadsBack | src/python/hypervec_server_engine.py:488-488 | The id made up for a row without one is its row id in decimal digits without leading zeros, and reads back as that number. |
| Freshness.FreshIndexIsCurrent | src/python/hypervec_server_engine.py:804-815 | After any run whose uploads and bundles carry indexes of their own rows, crashes included but for those inside a purge and those of an import that may not be recovered: an index whose version equals the data version labels every row with its vector. |
| Freshness.ExportsAgreeWithThemselves | src/python/hypervec_server_engine.py:820-860 | In every bundle such a run exports, label i of the index is the vector of row i. |
| Tables.InsertAllSucceeds | src/python/hypervec_scalar_store.py:101-133 | A batch goes in if and only if no row id or document id repeats inside it or against the table. |
| Tables.InsertAllSound | src/python/hypervec_scalar_store.py:101-133 | A batch that goes in adds exactly its rows and keeps keys ascending and document ids distinct. |
| Tables.AppendLabelled | src/python/hypervec_scalar_store.py:94-133 | Rows numbered from `next_row_id` extend a table with ids 0..n-1 at its end, in their order. |
| Tables.ReloadIsIdentity | src/python/hypervec_scalar_store.py:300-335 | Loading a table's own exported rows rebuilds the table. |
| Bundles.ValidateIndexLabelMapping | src/python/hypervec_bundle.py:73-138 | Succeeds if and only if the strategy is sequential, every label below the total resolves to a row, there are as many rows as labels, and every vector fits the dimension. |
| Bundles.ResolvingIdsAreDistinct | src/python/hypervec_bundle.py:112-138 | If every label resolves and the count fits, no row id repeats and none is out of range. |
| Bundles.ReadBundle | src/python/hypervec_bundle.py:271-377 | Returns the bundle if and only if format, checksums, total and label mapping all hold. |
| Bundles.LoadInvertsExport | src/python/hypervec_scalar_store.py:191-232 | Loading exported rows into an empty staging table gives the exported table. |
| Bundles.LoadedRowsAreLabelled | src/python/hypervec_scalar_store.py:300-335 | Whatever order a valid bundle lists its rows in, the loaded table has row i at position i and holds exactly those rows. |
| Engine.HypervecServerEngine.RecoverInterruptedImports | src/python/hypervec_server_engine.py:96-173 | Start-up recovery makes exactly the durable writes of `RecoverWrites`, in order. |
| Engine.HypervecServerEngine.CreateCollection | src/python/hypervec_server_engine.py:418-441 | Makes exactly the writes of `CreateEffect`, or raises on an existing name. |
| Engine.HypervecServerEngine.DropCollection | src/python/hypervec_server_engine.py:443-453 | Metadata first, then table, index and side files. |
| Engine.HypervecServerEngine.Insert | src/python/hypervec_server_engine.py:468-513 | Ensures the table, checks all vectors, bumps the data version, inserts the batch or nothing, then records the count; a failed batch leaves the version bumped. |
| Engine.HypervecServerEngine.Flush | src/python/hypervec_server_engine.py:515-549 | Writes the index built from the rows in row order, then the metadata with a fresh index version and checksum. |
| Engine.HypervecServerEngine.UploadIndex | src/python/hypervec_server_engine.py:723-770 | Version, checksum and readability checks in order, then index file and metadata. |
| Engine.HypervecServerEngine.ExportCollectionBundle | src/python/hypervec_server_engine.py:772-890 | All refusals in order; otherwise the bundle of the file and rows on disk, and the versions recorded as exported. |
| Engine.HypervecServerEngine.ImportCollectionBundle | src/python/hypervec_server_engine.py:892-1074 | Prepare, commit-intent marker, switch, metadata and clean-up, as exactly the write sequence the crash lemmas cut. |
| Engine.HypervecServerEngine.Prepare | src/python/hypervec_server_engine.py:979-1028 | Stages index and rows beside the live state; on a bad index or bad rows leaves exactly the writes of the sweep. |
| Engine.HypervecServerEngine.Commit | src/python/hypervec_server_engine.py:999-1063 | The commit phase's five or six writes, in order, with the backup rename only when an index exists. |
| Engine.HypervecServerEngine.PurgeCollectionData | src/python/hypervec_server_engine.py:1076-1181 | The export gate, then index, side files, tables and metadata. |
| Engine.HypervecServerEngine.LoadCollection | src/python/hypervec_server_engine.py:551-577 | Caches the index file as it is on disk, or raises; writes nothing durable. |
| Engine.DataRoot.InsertBatch | src/python/hypervec_scalar_store.py:101-133 | One transaction: the whole batch becomes visible, or the table is as before. |
| Engine.DataRoot.ImportRowsToStaging | src/python/hypervec_scalar_store.py:300-335 | Drop and create commit on their own; the rows commit together or the new staging table stays empty. |
| RWLocks.MutualExclusion | src/python/rwlock.py:38-63 | Under every interleaving: at most one writer, never together with a reader, and the counters count the threads they stand for. |
| RWLocks.WritersComeFirst | src/python/rwlock.py:38-42 | A thread that enters as a reader finds no writer active and none waiting. |
| RWLocks.FreeLockIsTaken | src/python/rwlock.py:44-63 | When nobody holds the lock and somebody waits, some notified thread can run and enters: no wake-up is lost. |
| RWLocks.InvAlways | src/python/rwlock.py:38-63 | In every reachable state every un-notified waiter's wait condition is true. |
| RWLocks.AbandonedWriteIff | src/python/rwlock.py:50-58 | A writer that leaves `wait` by an exception loses a wake-up unless no reader is parked, a writer is active or another writer waits. |
| RWLocks.AbandonedWriteCanStrand | src/python/rwlock.py:50-58 | A concrete schedule in which that leaves a parked reader facing a lock nobody holds. |
| RWLocks.RWLock.AcquireRead | src/python/rwlock.py:38-42 | One critical section of the object is one action of the model; entered if and only if the thread is then a reader. |
| RWLocks.RWLock.ReleaseRead | src/python/rwlock.py:44-48 | The last reader to leave notifies everybody. |
| RWLocks.RWLock.AcquireWrite | src/python/rwlock.py:50-58 | Announces itself, then enters or parks; entered if and only if the thread is then the writer. |
| RWLocks.RWLock.ReleaseWrite | src/python/rwlock.py:60-63 | Leaves nobody un-notified. |
| BucketSort.BucketSortRef | src/utils/structures/sorting.cpp:208-237 | Throws if and only if some value is out of range; otherwise the output is the stable sort: each index once, values ascending, equal values in their original order, and `lims` count the smaller values. |
| Buckets.AscendingVisitIsStable | src/utils/structures/sorting.cpp:208-237 | The reference sort is stable: inside a bucket the indices ascend. |
| Buckets.SortedIsPermutation | src/utils/structures/sorting.cpp:208-308 | The output lists every visited index as often as it was visited. |
| Buckets.SortedIsGrouped | src/utils/structures/sorting.cpp:208-308 | In whatever order the indices are visited, the output groups each index once by value, and `lims` count the smaller values. |
| BucketSortParallel.BucketSortParallel | src/utils/structures/sorting.cpp:239-308 | For every thread count, every order of entering the two critical sections and every interleaving of single writes, the output groups each index once by value, `lims` count the smaller values, and the run is a bucket sort that visits the threads' shares in some order. |
| BucketSortParallel.ParallelMatchesReference | src/utils/structures/sorting.cpp:239-308 | Hence `lims` equal the sequential limits, `perm` is a permutation, and each bucket holds the same indices as the reference sort's. |
| BucketSort.VisitIsPermutation | src/utils/structures/sorting.cpp:248-250 | The threads' ranges cover every index exactly once, for any thread count. |
| BucketSortParallel.WriteOne | src/utils/structures/sorting.cpp:287-292 | One write of one thread keeps every other thread's region of every bucket as it is: claimed slots are disjoint. |
| BucketSortInPlace.BucketSortInPlaceRef | src/utils/structures/sorting.cpp:314-376 | Throws, leaving the matrix alone, if and only if there are not more cells than buckets or a cell is no bucket number; otherwise terminates with `lims` counting the smaller cells and, in each bucket's slice, each matrix row as often as it had cells with that number; the debug assertion holds throughout if and only if bucket 0 is not empty. |
| BucketSortInPlace.FollowCycles | src/utils/structures/sorting.cpp:340-371 | The cycle-following loop alone, with the slots left to write as its measure. |
| BucketSortInPlace.OneMove | src/utils/structures/sorting.cpp:344-354 | One turn keeps every bucket's account: rows written, rows still to be taken and the row in flight are together the bucket's rows. |
| BucketSortInPlace.RoomForFlight | src/utils/structures/sorting.cpp:344-350 | A value in flight always finds a free slot in its bucket. |
| BucketSortInPlace.RestIsPicked | src/utils/structures/sorting.cpp:314-376 | The rows promised per bucket are the rows of the indices the reference sort puts there. |
| HashTables.Add | src/utils/structures/sorting.cpp:666-721 | A batch is refused if and only if, for some bucket, more than its width of the table's and the batch's keys hash into its range of slots, and then some key's region is full of other keys; otherwise the table holds the old map with the batch put in the order of a bucket sort. Either way it stays a table and no other key changes. |
| HashTables.AddOne | src/utils/structures/sorting.cpp:697-714 | Probing stores a new key, overwrites an old one, or reports a full region without touching anything. |
| HashTables.AddBucket | src/utils/structures/sorting.cpp:686-719 | One bucket's entries, including the early stop when the same thread has seen an overflow before. |
| HashTables.Lookup | src/utils/structures/sorting.cpp:723-761 | Every looked-up key gets its value, or -1 when absent, although the probe does not stop at free slots. |
| HashTables.Init | src/utils/structures/sorting.cpp:657-664 | The empty table is the empty map. |
| HashTables.StoreFree | src/utils/structures/sorting.cpp:697-706 | A free slot found by probing proves the key absent, and storing there keeps every key reachable. |
| HashTables.FullOverflows | src/utils/structures/sorting.cpp:707-714 | A full region of other keys means the bucket has more keys than slots. |
| HashTables.LastBatchWins | src/utils/structures/sorting.cpp:666-761 | After any sequence of successful batches a key has a value the last batch containing it gives it, the value if the batch lists the key once, in whatever order each batch was put, and is absent if and only if no batch contains it. |
| HashTables.AddThenLookup | src/utils/structures/sorting.cpp:657-761 | Init, a sequence of batches, lookup, on one array: all batches are accepted if and only if the hashes of all their keys fit the buckets, and then each looked-up key gets a value of the last batch containing it, or -1. |
| HashTables.RoomByHashes | src/utils/structures/sorting.cpp:644-680 | The condition in numbers: one bucket below 4096 slots, buckets of 4096 slots up to a capacity of 2^20, 1024 buckets from there on, and in none of them more keys whose masked hash lies in its range than it has slots. |
| HashTables.DifferentHashesFit | src/utils/structures/sorting.cpp:676-680 | Keys whose masked hashes differ are always accepted. |
| HashTables.LayoutCapacity | src/utils/structures/sorting.cpp:644-646 | Buckets times width is the capacity, for every capacity. |
| Hnsw.IndexHNSW.Add | src/index/hnsw/index_hnsw.cpp:77-115 | Over any run of calls, with arbitrary distances, levels and tie-breaking, the graph stays well-formed for all points, every point but the first keeps a link on level 0, each point is inserted after the previous one by its own distances, and each call lengthens the tables by one drawn level for every point so far. |
| Hnsw.HNSW.AddWithLocks | src/index/hnsw/hnsw.cpp:505-546 | Inserting the next point keeps the slots of every node on every level a list of distinct, valid, other nodes of that level followed by -1 and makes the entry point a node of the highest level; on every level the point shares with the graph it is joined to a selection of what a search by its distances found there, started where the descent ended. |
| Hnsw.HNSW.Descend | src/index/hnsw/hnsw.cpp:526-534 | The descent ends on the point's top level, no farther than the entry point, at a local minimum of the level above; without a higher level it stays at the entry point. |
| Hnsw.InsertedPointIsNear | src/index/hnsw/index_hnsw.cpp:95-115 | Each added point is linked, on every level it shares with the graph, to a node no farther from it than the entry point, than any other of its links, and than any link that node had. |
| HnswInsertion.InsertedIsNear | src/index/hnsw/hnsw.cpp:467-499 | The same for one insertion and any start of the search. |
| HnswInsertion.InsertedLinksBack | src/index/hnsw/hnsw.cpp:309-347 | A node linked to the new point takes the link, keeping its others, or keeps what is nearest to it among the point and its old links; all other nodes of the level keep their links. |
| HnswInsertion.InsertedIsSpread | src/index/hnsw/hnsw.cpp:234-273 | Of any two links of the point one is no nearer to the other than to the point, unless the search found fewer nodes than there are slots; then all of them are linked. |
| Hnsw.HNSW.AddLinksStartingFrom | src/index/hnsw/hnsw.cpp:467-499 | On one level the point is linked exactly to what the heuristic keeps of the search's results, each target is linked back or fights for it, and no other block changes. |
| Hnsw.HNSW.AddLink | src/index/hnsw/hnsw.cpp:309-347 | A link goes into the first free slot, or the block is refilled from the selection among the new node and the old links; no other slot changes. |
| HnswLinks.AddedIsListed | src/index/hnsw/hnsw.cpp:309-347 | Either way the block stays a list of distinct links drawn from the old ones and the new node, and is not empty. |
| HnswSelect.ShrinkNeighborList | src/index/hnsw/hnsw.cpp:234-273 | The kept nodes come nearest first, nobody nearer to an earlier one than to the query; the nearest is kept; unless full, every node left out is dominated; with the option set, left-out nodes fill the free places. |
| HnswLinks.ShrinkResultSet | src/index/hnsw/hnsw.cpp:285-305 | A short result set stays as it is; a long one becomes such a selection. |
| Hnsw.HNSW.PrepareLevelTab | src/index/hnsw/hnsw.cpp:204-229 | Tables grow by the new points only: old blocks keep their contents, new ones are free, the highest new level is returned; preset and drawn levels. |
| Hnsw.HNSW.SearchNeighborsToAdd | src/index/hnsw/hnsw.cpp:354-463 | The batched and the reference search both end with the results of `SearchFrom`, and leave no flag set. |
| Hnsw.ExpandBatched | src/index/hnsw/hnsw.cpp:411-459 | Expanding four at a time, leftovers last, ends in the same results, candidates and visited set as the reference. |
| Hnsw.ExpandReference | src/index/hnsw/hnsw.cpp:389-410 | One neighbour at a time: mark, then offer. |
| HnswSearch.BatchedIsReference | src/index/hnsw/hnsw.cpp:388-459 | Marking all new links first and offering them in any batches equals the one-at-a-time expansion. |
| HnswSearch.SearchFrom | src/index/hnsw/hnsw.cpp:354-463 | The search terminates, each step using up a candidate or an unseen node, and its end state is good and done. |
| HnswSearch.SearchIsLocallyComplete | src/index/hnsw/hnsw.cpp:368-378 | The results are the at most ef nearest of all visited nodes, and every link of every result was visited: a link that is no result is no nearer than any of ef results. |
| Hnsw.HNSW.GreedyUpdateNearest | src/index/hnsw/hnsw.cpp:801-864 | Terminates at a node none of whose links on the level is closer, never farther than the start. |
| HnswGraph.SlotsOfSet | src/index/hnsw/hnsw.cpp:51-59 | Writing one block changes that block and no other node's or level's. |
| VisitedTables.VisitedTable.Set | src/include/index/hnsw/visited_table.h:36-45 | Adds one node to the set and says whether it was new, for stamps and for the hash set. |
| VisitedTables.VisitedTable.Advance | src/index/hnsw/visited_table.cpp:30-40 | Empties the set, however often it is called: stamps are cleared before a stamp value is used again. |
| VisitedTables.VisitedTable.Get | src/include/index/hnsw/visited_table.h:48-54 | Says whether a node is in the set. |
| VisitedTables.VisitedTable.constructor | src/index/hnsw/visited_table.cpp:22-28 | Starts empty; the threshold decides unless told otherwise. |
| MinimaxHeaps.MinimaxHeap.Push | src/index/hnsw/hnsw.cpp:1042-1054 | The stored distances are the n smallest ever pushed, tombstones included; the entry is added, refused, or replaces the top one; the live count stays exact. |
| MinimaxHeaps.MinimaxHeap.PopMin | src/index/hnsw/hnsw.cpp:1235-1266 | Turns the rightmost of the nearest live entries into a tombstone and returns its id and distance, -1 if there is none. |
| MinimaxHeaps.MinimaxHeap.PopMinAvx2 | src/index/hnsw/hnsw.cpp:1154-1230 | The eight-lane version does exactly that. |
| MinimaxHeaps.MinimaxHeap.PopMinAvx512 | src/index/hnsw/hnsw.cpp:1070-1148 | The sixteen-lane version with its masked block does exactly that. |
| MinimaxHeaps.RightmostMinIsUnique | src/index/hnsw/hnsw.cpp:1070-1266 | There is only one such entry, so the three versions pick the same. |
| MinimaxHeaps.MinimaxHeap.CountBelow | src/index/hnsw/hnsw.cpp:1269-1278 | How many of all distances ever pushed are below the threshold, capped at n: neither pops nor evictions are noticed. |
| MinimaxHeaps.MinimaxHeap.HeapPush | src/include/utils/structures/heap.h:82-103 | One entry more, distances still a heap; ids only break ties. |
| MinimaxHeaps.MinimaxHeap.HeapPop | src/include/utils/structures/heap.h:45-76 | The top entry less, distances still a heap. |
| FuzzyPartition.SimdPartitionFuzzy | src/utils/structures/partitioning.cpp:613-624 | For both orderings: 1 <= q_min <= q_max < n gives between q_min and q_max of the best pairs in front, each value with its own id, within 17 of the 200 rounds; the other cases leave the arrays alone and report 0, or q_max even beyond n. |
| FuzzyPartition.SimdPartitionFuzzyWithBounds | src/utils/structures/partitioning.cpp:364-462 | The same from given bounds, with the threshold inside them; equal bounds return at once. |
| FuzzyPartition.Bisect | src/utils/structures/partitioning.cpp:398-426 | The bisection stops within 17 rounds at a threshold with n_lt <= q <= n_lt + n_eq, so the repair of a negative count is never needed. |
| FuzzyPartition.CountLtAndEq | src/utils/structures/partitioning.cpp:241-270 | How many positions hold a strictly better value, and how many the threshold. |
| FuzzyPartition.CompressArray | src/utils/structures/partitioning.cpp:274-343 | Compacting in place, equal values only as long as wanted, leaves exactly the kept pairs in front. |
| FuzzyPartition.KeptAreBest | src/utils/structures/partitioning.cpp:86-104 | No pair left out has a lower value than a kept one, or a higher one for the other ordering. |
| FuzzyPartition.FindMinimax | src/utils/structures/partitioning.cpp:203-228 | Least and greatest value, by sixteen lanes and leftovers. |
| RangeMerge.Merge | src/utils/common/range_search_result.cpp:110-145 | For any partial results, buffer sizes and missing entries after the first, each query's block is its results partial by partial and `lims` are the offsets; throws if and only if the result has tables already; the vector is emptied on request. |
| RangeMerge.NothingLostOrDuplicated | src/utils/common/range_search_result.cpp:110-145 | The merged tables hold exactly the entries of all partial results. |
| RangeMerge.EntryPlace | src/utils/common/range_search_result.cpp:96-145 | Each entry of each partial result lies in its query's block behind exactly the entries of earlier partial results and of earlier blocks of its own. |
| RangeMerge.BlockSize | src/utils/common/range_search_result.cpp:110-145 | A query's block is as long as all partial results together have entries for it. |
| RangeMerge.RangeSearchResult.DoAllocation | src/utils/common/range_search_result.cpp:36-49 | Counts become starts, the tables get the total length; throws on existing tables. |
| RangeMerge.CopyResult | src/utils/common/range_search_result.cpp:96-108 | Each query's results land behind what its block holds already, and its limit moves past them. |
| RangeMerge.RangeSearchPartialResult.NewResult | src/utils/common/range_search_result.cpp:69-74 | Begins an empty block for a query. |
| RangeMerge.RangeSearchPartialResult.Add | src/utils/common/range_search_result.cpp:61-64 | Appends to the block begun last and to no other. |
| BufferLists.BufferList.Add | src/utils/common/buffer_list.cpp:28-36 | Appends one entry to the linear contents, with a new buffer when the last is full. |
| BufferLists.BufferList.CopyRange | src/utils/common/buffer_list.cpp:46-61 | Copies any range of the linear contents, across any number of buffers, and nothing else. |
| FlatOneD.Search | src/index/flat/index_flat.cpp:412-515 | Every query gets min(k, n) distinct nearest points in ascending distance with their distances, then -1 and infinity; throws unless k > 0 and the permutation covers all points. |
| FlatOneD.Expand | src/index/flat/index_flat.cpp:461-487 | Two-sided expansion from the bisection point. |
| FlatOneD.Bisect | src/index/flat/index_flat.cpp:449-456 | The last position not beyond the query. |
| FlatOneD.WindowIsNearest | src/index/flat/index_flat.cpp:461-512 | The positions between the two pointers are nearest neighbours. |
| PqCodes.RoundTripIff | src/include/quantization/pq/pq.h:224-297 | Packed and unpacked numbers come back if and only if each fits the width. |
| PqCodes.UnpackOfPack | src/include/quantization/pq/pq.h:224-297 | Field m of a packed list is the low bits of number m, for every width and length. |
| PqCodes.CodeBit | src/include/quantization/pq/pq.h:224-297 | Bit j of number m is bit m * nbits + j of the code bytes, the lowest bit of each byte first. |
| PqCodes.PQEncoderGeneric.Encode | src/include/quantization/pq/pq.h:233-242 | Bytes written plus register bits are the numbers packed so far. |
| PqCodes.PQEncoderGeneric.Finish | src/include/quantization/pq/pq.h:244-248 | The last partial byte completes the number. |
| PqCodes.PQDecoderGeneric.Decode | src/include/quantization/pq/pq.h:286-296 | Returns the next field of what is left and leaves the rest. |
| PqCodes.Encode8 | src/include/quantization/pq/pq.h:252-256 | The byte shortcut packs the same number. |
| PqCodes.Encode16 | src/include/quantization/pq/pq.h:260-268 | The two-byte shortcut packs the same number. |
| PqCodes.ByteFields | src/include/quantization/pq/pq.h:299-303 | With 8 bits the fields are the bytes. |
| PqCodes.PairFields | src/include/quantization/pq/pq.h:306-315 | With 16 bits they are the byte pairs. |
| Pq.ProductQuantizer.SetDerivedValues | src/quantization/pq/pq.cpp:101-123 | Throws if and only if the dimension does not split evenly or the width is unsupported. |
| Pq.ProductQuantizer.ComputeCode | src/quantization/pq/pq.cpp:61-75 | The code's fields are the nearest centroids of the sub-vectors. |
| Vectors.EncodingIsOptimal | src/quantization/pq/pq.cpp:34-46 | Such a code reconstructs the vector at least as well as any other code. |
| Pq.ProductQuantizer.Decode | src/quantization/pq/pq.cpp:48-91 | The selected centroids one after the other, by any of the three decoders. |
| Pq.ProductQuantizer.DecodedAt | src/quantization/pq/pq.cpp:48-58 | Component t of part m of a decoded vector is component t of codeword m * ksub + code of the codebook. |
| Pq.ProductQuantizer.ComputeDistanceTable | src/quantization/pq/pq.cpp:253-262 | Distances of every sub-vector to every centroid of its sub-quantizer. |
| Pq.ProductQuantizer.ApplyDistanceTable | src/quantization/pq/pq.cpp:278-299 | The sum of the entries the code selects, by any of the three ways of reading it. |
| Pq.ProductQuantizer.TableDistance | src/quantization/pq/pq.cpp:253-299 | Looking a code up in a query's table gives the squared distance to the decoded vector. |
| Ivfpq.PrecomputedScore | src/quantization/pq/index_ivfpq.cpp:236-248 | Coarse distance plus precomputed entries minus twice the inner products is the squared distance to centroid plus decoded residual. |
| Ivfpq.ResidualScore | src/quantization/pq/index_ivfpq.cpp:226-232 | The residual's table gives the same score. |
| Ivfpq.IndexIVFPQ.ScoreIsDistance | src/quantization/pq/index_ivfpq.cpp:218-264 | On each of the three table paths, offset plus lookup is the squared distance to the reconstruction. |
| Ivfpq.IndexIVFPQ.SearchOne | src/quantization/pq/index_ivfpq.cpp:158-271 | For each probed list, one after the other, exactly one score for each of its entries in order: the entry's own id, and the squared distance from the query to what `Reconstruct` returns for it; negative list numbers are skipped, nothing else is scored. |
| Ivfpq.IndexIVFPQ.PrecomputeTable | src/quantization/pq/index_ivfpq.cpp:314-354 | Every cell holds norms plus twice the inner products; throws unless everything is trained and residuals are encoded. |
| Ivfpq.IndexIVFPQ.Reconstruct | src/quantization/pq/index_ivfpq.cpp:283-308 | The first entry with the key, decoded, plus its centroid when residuals are encoded; throws, leaving the output alone, if and only if the key is nowhere or the quantizer is not trained. |
| Ivfpq.IndexIVFPQ.ReconstructionAt | src/quantization/pq/index_ivfpq.cpp:291-298 | Each component of a reconstruction, counted from the start of the codebook: the selected codeword's, plus the list's centroid's when residuals are encoded. |
| Vectors.LookupIsDistance | src/quantization/pq/pq.cpp:253-299 | The same for any prefix of sub-quantizers, which carries the induction. |
| Vectors.L2IsDistance | src/quantization/pq/pq.cpp:253-262 | A distance is never negative and zero exactly between equal vectors. |
| Vectors.L2Single | src/quantization/pq/pq.cpp:253-262 | On one coordinate it is the square of the difference. |
| Lvq.PairRoundTripIff | src/quantization/lvq/lvq.cpp:44-73 | Decoding an encoded pair gives the pair back if and only if both parts fit their widths, for all widths below 64 bits together. |
| Lvq.PairBit | src/quantization/lvq/lvq.cpp:61-73 | In the code bytes the bits of the local id come first, then those of the codeword, the lowest bit of each byte first. |
| Lvq.BytesRoundTripIff | src/quantization/lvq/lvq.cpp:44-73 | Encoding a decoded code gives the bytes back if and only if their unused bits are zero. |
| Lvq.DecodedInRange | src/quantization/lvq/lvq.cpp:44-59 | Decoded parts always fit their widths. |
| Lvq.EncodePair | src/quantization/lvq/lvq.cpp:61-73 | The code bytes are the combined number, lowest byte first. |
| Lvq.DecodePair | src/quantization/lvq/lvq.cpp:44-59 | Reads the number back through a 64-bit register. |
| Lvq.BitsForCount | src/quantization/lvq/lvq.cpp:27-36 | The least width, at least one, that holds n values. |
| Lvq.LocalVectorQuantizer.SetDerivedValues | src/quantization/lvq/lvq.cpp:82-101 | Throws if and only if a size is out of range or the two widths reach 64 bits. |
| Lvq.LocalVectorQuantizer.BuildDecodedCodebooks | src/quantization/lvq/lvq.cpp:103-117 | Every decoded codeword is its centroid plus its residual. |
| Lvq.LocalVectorQuantizer.Train | src/quantization/lvq/lvq.cpp:119-185 | Throws on bad parameters, else ends with decoded codebooks built from the trained ones. |
| Lvq.LocalVectorQuantizer.DecodeCode | src/quantization/lvq/lvq.cpp:211-216 | Throws if and only if the local id is out of range; the residual id cannot be. |
| Lvq.LocalVectorQuantizer.Decode | src/quantization/lvq/lvq.cpp:218-228 | Centroid plus residual of the code. |
| Lvq.LocalVectorQuantizer.DecodedComponent | src/quantization/lvq/lvq.cpp:218-228 | Each component of a decoded vector, counted from the start of the two codebooks. |
| Lvq.LocalVectorQuantizer.ComputeDistanceTable | src/quantization/lvq/lvq.cpp:239-245 | Distances to all decoded codewords. |
| Lvq.LocalVectorQuantizer.ApplyDistanceTable | src/quantization/lvq/lvq.cpp:247-253 | The entry the code selects. |
| Lvq.LocalVectorQuantizer.TableIsDistance | src/quantization/lvq/lvq.cpp:218-253 | That entry is the squared distance to what the code decodes to. |
| Lvq.LocalVectorQuantizer.ComputeCode | src/quantization/lvq/lvq.cpp:187-200 | The stored pair is the nearest centroid and the nearest codeword for the residual, and always decodes. |
| Lvq.LocalVectorQuantizer.EncodingIsBestInCell | src/quantization/lvq/lvq.cpp:187-228 | Within the chosen cell no codeword reconstructs the vector better. |

## Left out

- Several collections at once: table names fold characters together, so one collection, or distinct table names, is assumed.
- The scalar cache, search filters, field-name lookup, index-type dispatch, HTTP and gRPC servers, clients, SWIG wrappers.
- Real SQLite, ZIP, JSON and file-system behaviour, including the textual JSONL framing; timestamps, sizes and the bundle file's own checksum in the metadata.
- Export and purge residue in the collection directory other than the index, `.import.staging` and `.pre-import` files.
- Engine.HypervecServerEngine.ImportCollectionBundle: the mode test, the bundle file's checksum and the id, vector and text field names in the manifest are not compared, since each only adds a refusal before anything is written.
- Engine.HypervecServerEngine.DropCollection: fixes one order for the file deletions, which the source leaves to `rmtree`.
- Engine.HypervecServerEngine.PurgeCollectionData: export and temporary residue in the directory is not deleted, because the model has none.
- Engine.DataRoot.InsertBatch: an encoding error in a later row, after which the source rolls nothing back, is excluded.
- Bundles.ReadBundle: refusals of the ZIP container (members, sizes, compression ratio) and of malformed JSON are not modelled.
- BundleRoundTrip.ExportsPassTheLabelCheck: a sufficient condition on runs; the exact one, on the state, is `ExportsReadableIff`.
- BundleRoundTrip.ExportPurgeImport: a sufficient condition on runs; the exact one, on the state, is `ExportPurgeImportIff`.
- Operating-system errors inside the commit phase of an import, other than as a crash followed by a restart.
- Threads holding several locks: each lock is modelled alone, and each engine call as one critical section.
- `parallel_merge` and the parallel argsort: for more than one merge thread sortedness does not hold.
- The multi-threaded in-place bucket sort, `partition_fuzzy_median3`, the histogram partition, and the C++ integer widths of row numbers and bucket numbers.
- BucketSortInPlace.BucketSortInPlaceRef: requires non-negative cells, because the source's range test does not reject negative ones.
- HashTables.AddOne: key -1 is excluded, because the table marks free slots with it; the source would store a value in a slot that stays free.
- HashTables.AddBucket: key -1 is excluded likewise.
- HashTables.AddThenLookup: key -1 is excluded likewise.
- HashTables.Add: the interleaving of single slot writes of different threads is not modelled, because threads work on disjoint buckets; key -1 is excluded, as the table reserves it.
- HashTables.LastBatchWins: of a key repeated inside one batch, which of its values wins is left open, because it depends on the order the parallel sort leaves them in.
- RangeMerge.Merge: the first partial result must exist, because the source takes the result object from it without a test; the non-incremental copy and `Finalize` are not modelled.
- Level generation, HNSW query search, panorama search, entry permutation and index reading and writing.
- Multi-threaded HNSW building: the drivers insert one point at a time, so the node locks have no effect and are omitted.
- MinimaxHeaps.MinimaxHeap.PopMin: a negative id other than -1 is excluded; the vector versions would skip it and the plain one would not.
- FlatOneD.Search: the sorted permutation is an input; how `fvec_argsort` finds it is not modelled.
- Ivfpq.IndexIVFPQ.SearchOne: gives the score of every scanned code; the id filter and the final heap of the k best are not modelled.
- Lvq.LocalVectorQuantizer.Train: the centroids and residual codebooks k-means would find are inputs.
- k-means training elsewhere: trained codebooks are inputs.
