# DeDup core in Dafny

A model of the bookkeeping at the heart of DeDup, a duplicate file finder. The finder
walks directory trees and records every file in a SQLite workspace. It fingerprints the
files with xxhash, then confirms candidate duplicates with md5. The model covers:

- the workspace store (`dedup/workspace.py`): a table of file rows keyed by path, the
  directory list and its legacy JSON copy, and the single metadata row;
- the two-phase duplicate resolver (`dedup/deduper.py`): group by fingerprint, hashing
  missing fingerprints lazily, then split each group by md5 and keep sub-groups of more
  than one file;
- the scanner (`dedup/scanner.py`): sequential and per-directory-parallel enumeration
  over a directory-tree value that stands in for `os.walk`;
- the parallel processor (`dedup/parallel_processor.py`): the split at 50 MiB, result
  collection, the `processed` counter, the bounded in-flight window and the per-core
  activity table;
- the engine (`dedup/engine.py`): the directory list, scan-and-hash and find-duplicates;
- the scan-thread helpers (`dedup/gui/scan_thread.py`): the resume filter, the batched
  file counter, folder discovery, fingerprint collection and the commit loop;
- the most-recently-used workspace list (`dedup/recent_workspaces.py`).

Abstractions used throughout:

- **The files table** is a `seq<FileRow>` in rowid order with unique paths.
  `INSERT OR REPLACE` removes the row with the same path and appends the new one. `Upsert`
  and `UpsertAll` in `workspace.dfy` do this, which matches SQLite's REPLACE conflict
  resolution and the rowid order of `SELECT *`.
- **The hash functions** `compute_xxhash` and `compute_md5` are parameters of type
  `string -> Option<string>`. `None` stands for a file that cannot be read.
- **The filesystem** is a map from a root path to a directory tree. A node can be:
  - unreadable: the walk yields nothing below it, as with `onerror=None`;
  - broken: an exception escapes the walk there.
- **`os.path.exists`, `os.path.abspath`, `cpu_count()` and the clock** are parameters.
- **Thread and process pools** are sequential loops. Which pending task finishes next is
  chosen nondeterministically (`:|`), and a ghost `order` records the completion order.
  Every result is stated as a gather over that order. A lemma shows that any such order
  gives the same multiset of results as the sequential order.
- **The cancellation flag** is a field set before a call or not at all. Only the first
  test of it inside a loop can therefore fire, as it would if `cancel()` came before the
  call.

Two behaviours of the code that a reader might not expect, both modelled as written:

- Files whose fingerprint stays `None` are bucketed together under the key `None`, not
  left out of grouping (`dedup/deduper.py:14-16`). `Deduper.SameFingerprintGrouped`
  includes that case.
- The metadata `INSERT OR REPLACE` rewrites `created_at` on every update
  (`dedup/workspace.py:133-137`). `WorkspaceStore.MetadataFor` sets it to the time of
  the update.

## Model

| member | source | states |
|---|---|---|
| WorkspaceStore.Lookup | dedup/workspace.py:17 | the row a path selects is in the table and has that path; None means no row has the path |
| WorkspaceStore.Upsert | dedup/workspace.py:58-65 | after INSERT OR REPLACE the row is last and is the one its path selects; every other path selects what it did; unique paths are kept; the table grows by one exactly when the path was new |
| WorkspaceStore.RemovePath | dedup/workspace.py:17 | the rows left do not have the path, come from the table, and keep their order |
| WorkspaceStore.LookupRemovePath | dedup/workspace.py:17 | after removal the path selects nothing and every other path selects what it did |
| WorkspaceStore.RemovePathUnique | dedup/workspace.py:17 | removing a path keeps paths unique |
| WorkspaceStore.RemovePathLength | dedup/workspace.py:17 | removal drops exactly one row when the path was present and none otherwise |
| WorkspaceStore.UpsertAllLookup | dedup/workspace.py:58-65 | after a sequence of upserts a path selects its last written row if it was written, and its old row otherwise |
| WorkspaceStore.UpsertAllAppend | dedup/workspace.py:58-65 | two batches of upserts equal one batch of both |
| WorkspaceStore.UpsertAllUnique | dedup/workspace.py:17 | any sequence of upserts keeps paths unique |
| WorkspaceStore.WithXxhash | dedup/workspace.py:122-130 | the rows passing `WHERE xxhash IS NOT NULL`: each has a fingerprint, and each row with one is kept |
| WorkspaceStore.MetadataFor | dedup/workspace.py:112-139 | the metadata row: file count, size total, number of repeated non-null fingerprints, both timestamps equal to now, the name or else the basename of the database path |
| WorkspaceStore.StatsOf | dedup/workspace.py:141-158 | row 1 when it exists, with its name, counts and both timestamps; otherwise no id or timestamps, zero counts and the basename of the database path |
| WorkspaceStore.LoadedDirectories | dedup/workspace.py:95-110 | the directory rows when there are any; else the decoded legacy list; `[]` when there is no legacy value; a JSON error exactly when there are no rows and the legacy blob is malformed |
| WorkspaceStore.SaveLoadRoundTrip | dedup/workspace.py:73-110 | loading after saving `ds` gives `ds`, including the empty list through the legacy `"[]"` |
| WorkspaceStore.LegacyFallback | dedup/workspace.py:100-109 | the legacy copy is read only when the directory rows are empty |
| WorkspaceStore.Workspace.Open | dedup/workspace.py:7-56 | opening a database holds its tables unchanged |
| WorkspaceStore.Workspace.AddFile | dedup/workspace.py:58-65 | the table is the upsert of the given row; exactly that row is selected by its path; directories, legacy copy and metadata unchanged |
| WorkspaceStore.Workspace.GetFiles | dedup/workspace.py:67-71 | all stored rows with unique paths, each path selecting its stored row |
| WorkspaceStore.Workspace.SaveDirectories | dedup/workspace.py:73-93 | the directory list is replaced by `ds` and the legacy copy written; files and metadata unchanged; loading then gives `ds` |
| WorkspaceStore.Workspace.LoadDirectories | dedup/workspace.py:95-110 | the stored list when non-empty; an error only with no rows and a malformed legacy copy; in every case the loaded result of the current table and legacy value |
| WorkspaceStore.Workspace.UpdateWorkspaceMetadata | dedup/workspace.py:112-139 | the metadata row becomes the aggregate of the current files; nothing else changes; the stats then report the file count and the repeated-fingerprint count |
| WorkspaceStore.Workspace.GetWorkspaceStats | dedup/workspace.py:141-158 | the statistics of the current metadata row, or zero files and the basename of the path when there is none |
| WorkspaceStore.Workspace.ClearFiles | dedup/workspace.py:160-164 | the files table is empty; directories, legacy copy and metadata unchanged |
| WorkspaceStore.Connect | dedup/workspace.py:7-56 | fails exactly on a file that is not a database; a new file starts empty; an existing database is read as it is |
| WorkspaceStore.CreateWorkspace | dedup/workspace.py:166-169 | no existence check: it fails exactly on a non-database, a new path gives an empty workspace with no legacy value, and an existing database is read as it is |
| WorkspaceStore.LoadWorkspace | dedup/workspace.py:171-176 | a missing path raises FileNotFoundError, a non-database fails, an existing database is opened as it is |
| Grouping.Bucket | dedup/deduper.py:11-16 | a bucket holds only elements with its key and is no longer than the input |
| Grouping.Larger | dedup/deduper.py:17 | exactly the groups of more than one element, in their order |
| Grouping.DuplicateGroups | dedup/deduper.py:17 | every group has more than one member and is one of the buckets |
| Grouping.LargeValues | dedup/deduper.py:17 | the loop over the dictionary's values keeps exactly the large buckets in key-insertion order |
| Grouping.GroupedByAppend | dedup/deduper.py:16 | appending to `hash_map[key]` keeps the dictionary equal to the buckets of what has been seen |
| Grouping.BucketMultiset | dedup/deduper.py:11-16 | a bucket holds every copy of each element with its key and none of the others |
| Grouping.KeysSpec | dedup/deduper.py:11-16 | the dictionary keys are distinct, each comes from an element, and every element's key is among them |
| Grouping.BucketsPartition | dedup/deduper.py:11-16 | the buckets together are a permutation of the input |
| Grouping.ExactlyOneBucket | dedup/deduper.py:11-16 | each element lies in the bucket of its own key and in no other |
| Grouping.SameKeyGroupedTogether | dedup/deduper.py:11-17 | two elements with one key are in a common duplicate group |
| Grouping.LoneKeyExcluded | dedup/deduper.py:17 | an element alone with its key is in no duplicate group |
| Grouping.BucketLarge | dedup/deduper.py:17 | a bucket has more than one element exactly when its key occurs twice |
| Grouping.DuplicateGroupCount | dedup/workspace.py:122-130 | the number of groups equals the number of keys that occur more than once |
| Grouping.GroupMembersShareKey | dedup/deduper.py:11-17 | a group has more than one member, all with one key, all from the input |
| Grouping.DuplicateGroupsWithin | dedup/deduper.py:17 | the groups together take no element more often than the input has it |
| Grouping.GroupsSharingMemberEqual | dedup/deduper.py:11-17 | two groups with a common member are the same group |
| Deduper.EnsureAllXxhash | dedup/deduper.py:12-15 | one row per stored row, in order, each with its fingerprint filled in when it had none |
| Deduper.EnsureAllMd5 | dedup/deduper.py:23-26 | one row per group member, in order, each with its digest filled in when it had none |
| Deduper.Deduper.constructor | dedup/deduper.py:6-7 | the deduper keeps the workspace it is given |
| Deduper.Deduper.FindPotentialDuplicates | dedup/deduper.py:9-17 | the groups are the duplicate groups of the filled-in rows by fingerprint; the store receives exactly the rows that lacked a fingerprint; nothing else changes |
| Deduper.Deduper.ConfirmDuplicates | dedup/deduper.py:19-31 | the confirmed groups are each potential group split by digest; the store receives exactly the rows that lacked a digest |
| Deduper.Deduper.SplitByMd5 | dedup/deduper.py:21-30 | one group's loop: its duplicate groups by digest, and the digest writes of its rows |
| Deduper.Deduper.FillXxhash | dedup/deduper.py:12-15 | one row of the first loop: the row with its fingerprint filled in, written to the store only when it had none |
| Deduper.Deduper.FillMd5 | dedup/deduper.py:23-26 | one row of the second loop: the row with its digest filled in, written only when it had none |
| Deduper.PotentialGroupShape | dedup/deduper.py:17 | a potential group has more than one member, one fingerprint, and members from the filled-in rows |
| Deduper.PotentialGroupsPartition | dedup/deduper.py:11-17 | the buckets are a permutation of the rows; the groups take no row twice; two groups with a common row are equal |
| Deduper.SameFingerprintGrouped | dedup/deduper.py:14-16 | two stored rows with one fingerprint, including one that stays None, land in a common group |
| Deduper.UniqueFingerprintExcluded | dedup/deduper.py:17 | a row alone with its fingerprint is in no group |
| Deduper.XxhashWritesLookup | dedup/deduper.py:13-15 | a row with a truthy fingerprint is not rewritten; a row without one is rewritten with only its fingerprint changed |
| Deduper.FingerprintsStored | dedup/deduper.py:13-15 | after the first phase each stored path holds its row with the fingerprint filled in; other fields are copied |
| Deduper.SplitGroupShape | dedup/deduper.py:24-30 | a sub-group has more than one member, one digest, members drawn from the group, and is no larger |
| Deduper.ConfirmedShape | dedup/deduper.py:21-30 | a confirmed group has more than one member, one digest, and is drawn from one potential group and no larger than it |
| Deduper.ConfirmedFromExactlyOne | dedup/deduper.py:21-30 | with path-disjoint potential groups, a confirmed group's paths come from exactly one of them |
| Deduper.UniqueDigestExcluded | dedup/deduper.py:28-30 | a row alone with its digest in its potential group is in no confirmed group |
| Deduper.PotentialGroupsDisjoint | dedup/deduper.py:9-17 | over a store with one row per path, no path lies in two potential groups |
| Deduper.Md5WritesCopyFields | dedup/deduper.py:24-26 | each digest write is a group row that lacked a digest, changed only in its digest |
| Scanner.FirstRaise | dedup/scanner.py:12-20 | the walk steps before the first exception are all visits |
| Scanner.FolderFilesMembers | dedup/scanner.py:13-19 | a tuple is produced for a folder exactly when it comes from a name whose stat succeeds |
| Scanner.StatFailureSkipped | dedup/scanner.py:15-19 | a failed stat contributes nothing and does not stop the folder |
| Scanner.FolderFilesCount | dedup/scanner.py:13-19 | at most one tuple per name, exactly one each when every stat succeeds |
| Scanner.StatFolder | dedup/scanner.py:13-19 | the inner loop yields the folder's tuples in name order |
| Scanner.WalkDirectory | dedup/scanner.py:12-19 | the walk of one directory yields its tuples in walk order, and reports when an exception escapes |
| Scanner.ScanDirectories | dedup/scanner.py:6-20 | the concatenation of the directories' tuples, or the first directory's walk exception |
| Scanner.ScanResultOk | dedup/scanner.py:6-20 | the scan succeeds exactly when no walk raises, and is then the concatenation directory by directory |
| Scanner.ScanResultErr | dedup/scanner.py:6-20 | the first raising directory decides the error |
| Scanner.ScanFailurePersists | dedup/scanner.py:6-20 | once a prefix of the directories fails, the whole scan fails the same way |
| Scanner.ScanSingleDirectory | dedup/scanner.py:34-51 | one directory's tuples up to the exception that ends its walk |
| Scanner.Assignments | dedup/scanner.py:54 | one pair per directory, in order, with core id `i % max_workers` below the worker count |
| Scanner.ScanWorkers | dedup/scanner.py:31 | the worker count is `min(8, cpu_count, len(directories))` |
| Scanner.ScanDirectoriesParallel | dedup/scanner.py:22-102 | empty input gives `[]`; the result is the per-directory lists in completion order, a permutation of their concatenation; one progress value per directory; the assignments are in range |
| Scanner.ParallelMatchesSequential | dedup/scanner.py:73-78 | every completion order gives a permutation of the sequential scan when no walk raises |
| Completion.AsCompleted | dedup/scanner.py:73-95 | a pool drained with `as_completed`: each item finishes once, the results follow the finishing order, and the counter reports `base + 1 ..` once per item |
| Completion.GatherPermutation | dedup/scanner.py:73-78 | two finishing orders with the same items give the same multiset of results |
| Completion.GatherIsConcat | dedup/scanner.py:73-78 | any finishing order gives a permutation of the results in submission order |
| Completion.TicksValues | dedup/parallel_processor.py:46-48 | the k-th progress value is `base + k + 1` |
| Parallel.LargeFiles | dedup/parallel_processor.py:22 | every large file has at least the threshold size |
| Parallel.SmallFiles | dedup/parallel_processor.py:23 | every small file is under the threshold |
| Parallel.SplitPartition | dedup/parallel_processor.py:11-23 | the split is a partition: each file lands on one side by size, both sides keep the input order, and together they are a permutation of it |
| Parallel.CompletedPermutation | dedup/parallel_processor.py:37-69 | results in any finishing order are a permutation of the results in input order |
| Parallel.HashResultsMembers | dedup/parallel_processor.py:41 | a pair is a result exactly when its path was submitted and its fingerprint is that non-empty text |
| Parallel.HashResultsCount | dedup/parallel_processor.py:37-42 | at most one result per file, exactly one each when every fingerprint is truthy |
| Parallel.SplitHashResults | dedup/parallel_processor.py:30-71 | the large and small results together are a permutation of the results of all files |
| Parallel.TicksAppend | dedup/parallel_processor.py:46-69 | the large phase's counter followed by the small phase's runs 1..n |
| Parallel.IdleOn | dedup/parallel_processor.py:89-90 | the first n cores are idle and other entries are kept |
| Parallel.IdleOnTwice | dedup/parallel_processor.py:89-180 | idling n cores after idling m of them idles `max(m, n)` cores |
| Parallel.LargeCores | dedup/parallel_processor.py:97 | `min(4, max(2, max_cores // 2))`: between 2 and 4, 2 up to 5 cores, 4 from 8 |
| Parallel.SlotsDone | dedup/parallel_processor.py:143-186 | when the window drains, the table is the start with the used cores idle |
| Parallel.SubmitOne | dedup/parallel_processor.py:145-156 | a submission keeps the window invariant: in flight at most the core count, completed plus in flight equals `file_index`, core `file_index % cores` shows the file |
| Parallel.FinishOne | dedup/parallel_processor.py:159-186 | a completion keeps the window invariant, sets its core idle and appends its result |
| Parallel.ParallelProcessor.constructor | dedup/parallel_processor.py:9-13 | the 50 MiB threshold and an empty activity table |
| Parallel.ParallelProcessor.ProcessFilesParallel | dedup/parallel_processor.py:15-71 | large-file results in finishing order, then small-file results in finishing order; together a permutation of one truthy result per file; progress runs 1..n |
| Parallel.ParallelProcessor.ResetCores | dedup/parallel_processor.py:89-90 | the first `max_cores` cores are idle |
| Parallel.ParallelProcessor.RunWindow | dedup/parallel_processor.py:143-186 | the in-flight window: every file finishes once, results follow the finishing order, progress counts from base, and the used cores end idle |
| Parallel.ParallelProcessor.SubmitRound | dedup/parallel_processor.py:145-156 | fills the window until it is full or no file is left, keeping its invariant |
| Parallel.ParallelProcessor.FinishBatch | dedup/parallel_processor.py:159-186 | completing a batch of in-flight tasks keeps the invariant and the counter |
| Parallel.ParallelProcessor.FinishTask | dedup/parallel_processor.py:159-184 | one completion: result appended only when truthy, counter advanced, core idle |
| Parallel.ParallelProcessor.SubmitLargeAsWritten | dedup/parallel_processor.py:102-112 | the large-phase submit loop as written submits the first `min(large_cores, n)` files |
| Parallel.ParallelProcessor.CompleteLarge | dedup/parallel_processor.py:115-132 | the submitted large files all finish once, in some order, and their cores end idle |
| Parallel.ParallelProcessor.LargePhaseAsWritten | dedup/parallel_processor.py:97-132 | the large phase as written processes only the submitted prefix |
| Parallel.ParallelProcessor.LargePhase | dedup/parallel_processor.py:97-132 | the corrected large phase processes every large file through a window of `large_cores` |
| Parallel.ParallelProcessor.SmallPhase | dedup/parallel_processor.py:134-186 | every small file finishes once through a window of `min(max_workers, max_cores)` cores |
| Parallel.ParallelProcessor.ProcessFilesWithCoreTrackingAsWritten | dedup/parallel_processor.py:73-188 | as written: the results of the submitted large prefix and all small files, with the table after both phases |
| Parallel.ParallelProcessor.ProcessFilesWithCoreTracking | dedup/parallel_processor.py:73-188 | corrected: a permutation of one truthy result per file, large first; progress 1..n; the table after both phases |
| Parallel.LargePhaseDropsFiles | dedup/parallel_processor.py:102-105 | with more large files than `large_cores`, the as-written method returns fewer results than there are files to hash |
| Engine.RemoveFirstSpec | dedup/engine.py:23-28 | `list.remove` takes out exactly the first occurrence, or nothing when there is none |
| Engine.FileDict | dedup/engine.py:57 | the dictionary's keys are exactly the scanned paths |
| Engine.FileDictLast | dedup/engine.py:57 | a path maps to the values of its last scanned tuple |
| Engine.StoreRowsLookup | dedup/engine.py:59-62 | a path is written exactly when it has a result and was scanned, with its dictionary values |
| Engine.ScanAndHashStores | dedup/engine.py:50-62 | after the storing loop a scanned path with a truthy fingerprint holds it, with its last tuple's values; every other path, including a failed fingerprint, keeps its old row |
| Engine.ConfirmedGroupShape | dedup/engine.py:67-84 | a group of `find_duplicates` has more than one row, one fingerprint and one digest, and only stored paths |
| Engine.DedupEngine.constructor | dedup/engine.py:9-14 | an engine on the workspace with no directories |
| Engine.DedupEngine.AddDirectory | dedup/engine.py:16-21 | appends exactly when the path exists, duplicates included, and reports that |
| Engine.DedupEngine.RemoveDirectory | dedup/engine.py:23-28 | removes the first occurrence and reports whether there was one |
| Engine.DedupEngine.ScanAndHash | dedup/engine.py:30-65 | ValueError on an empty list before any write; a scan error propagates without writes; otherwise the fingerprints of all files, large first, progress 1..n, each result stored with its path's values |
| Engine.DedupEngine.FindDuplicates | dedup/engine.py:67-84 | the potential groups confirmed by digest, with both phases' writes; the potential groups share no path |
| Engine.FindDuplicatesFromOneGroup | dedup/engine.py:67-84 | each confirmed group of a store with one row per path comes from exactly one potential group |
| Engine.FindDuplicatesUniqueDigestExcluded | dedup/engine.py:67-84 | a row alone with its digest in its potential group is in no confirmed group of the result |
| Engine.DedupEngine.GetAllFiles | dedup/engine.py:86-88 | the stored rows, one per path |
| Engine.OpenEngine | dedup/engine.py:9-14 | fails only on a non-database; otherwise an engine with no directories on that path |
| ScanThreads.StoredFingerprint | dedup/gui/scan_thread.py:68-73 | the query finds only a row with that path, that size and a fingerprint |
| ScanThreads.StoredFingerprintNone | dedup/gui/scan_thread.py:68-73 | the query finds nothing exactly when no row with the path has that size and a fingerprint |
| ScanThreads.UnhashedMembers | dedup/gui/scan_thread.py:66-81 | a file is kept exactly when no stored row matches its path, size and modification time with a fingerprint |
| ScanThreads.UnhashedSubsequence | dedup/gui/scan_thread.py:63-84 | the kept files keep their input order |
| ScanThreads.ScanThread.constructor | dedup/gui/scan_thread.py:32-42 | not cancelled, no connection, counter zero |
| ScanThreads.ScanThread.OpenConnection | dedup/gui/scan_thread.py:98 | the thread's connection is the given workspace; the settings, the flag and the counter are unchanged |
| ScanThreads.ScanThread.Cancel | dedup/gui/scan_thread.py:86-87 | sets the flag and nothing else |
| ScanThreads.ScanThread.UpdateGlobalFileCount | dedup/gui/scan_thread.py:89-93 | the counter increases by exactly the increment and the new value is reported |
| ScanThreads.ScanThread.FilterUnhashedFiles | dedup/gui/scan_thread.py:58-84 | the input unchanged without a connection; otherwise the files the store does not hold unchanged |
| ScanThreads.ScanThread.FilesToHash | dedup/gui/scan_thread.py:319-326 | the filter applies only with skip mode on; the skipped count is the difference; order is kept |
| ScanThreads.BatchedCount | dedup/gui/scan_thread.py:151-171 | full batches of 50 and then a last partial batch: the count of reports is the total divided by 50, rounded up |
| ScanThreads.ScanThread.ScanSingleDirectoryWithUpdates | dedup/gui/scan_thread.py:127-173 | the directory's tuples up to the walk's exception; the increments sum to the files found, in batches; the counter grows by that |
| ScanThreads.ScanThread.ScanSteps | dedup/gui/scan_thread.py:134-163 | the walk loop: tuples of the steps before the exception, the full batches reported, less than one batch pending |
| ScanThreads.ScanThread.CountFolder | dedup/gui/scan_thread.py:146-163 | one folder: its tuples appended, a report each time 50 more are found |
| ScanThreads.FoldersOfMembers | dedup/gui/scan_thread.py:186-190 | a folder is discovered exactly when the walk visits it with a non-empty file list |
| ScanThreads.FoldersOfSubsequence | dedup/gui/scan_thread.py:186-190 | discovered folders keep walk order |
| ScanThreads.ScanThread.DiscoverFolders | dedup/gui/scan_thread.py:180-193 | nothing when cancelled; otherwise the folders with files of each walk up to its exception, directory by directory |
| ScanThreads.ScanThread.WalkFolders | dedup/gui/scan_thread.py:186-190 | one walk's folders with files, up to its exception |
| ScanThreads.HashTaskAgrees | dedup/gui/scan_thread.py:8-20 | the worker task with the `if xxhash:` filter applied to what it returns gives, in any finishing order, exactly the pool's per-file hashing results |
| ScanThreads.KeepTruthy | dedup/gui/scan_thread.py:482-483 | a worker's result is kept, as its path and fingerprint, exactly when the fingerprint is truthy |
| ScanThreads.ReportedSpec | dedup/gui/scan_thread.py:486-489 | a pass over n files reports exactly the multiples of 5 up to n and n itself, in increasing order, `ceil(n / 5)` reports ending with n |
| ScanThreads.ReportProgress | dedup/gui/scan_thread.py:474-489 | the reporting test applied to each value of the completion counter yields the throttled reports |
| ScanThreads.ScanThread.CollectHashResults | dedup/gui/scan_thread.py:449-511 | only truthy fingerprints are kept, one per file, in finishing order; hash progress is reported after every fifth completion and after the last; nothing when cancelled, and nothing when fewer than two cores leave the pool no worker, whose ValueError the handler turns into an empty list |
| ScanThreads.FirstMatchIsFirst | dedup/gui/scan_thread.py:520 | `next(...)` finds the first tuple with the path |
| ScanThreads.CommitsShape | dedup/gui/scan_thread.py:514-524 | each committed entry is a result whose size and modification time come from the first tuple with its path |
| ScanThreads.CommitsLookup | dedup/gui/scan_thread.py:514-524 | a path is written exactly when it has a result and was scanned |
| ScanThreads.ScanThread.AddFileToDb | dedup/gui/scan_thread.py:552-563 | an upsert of the row with status "present" when there is a connection; nothing otherwise |
| ScanThreads.ScanThread.CommitResult | dedup/gui/scan_thread.py:519-524 | one result: appended and written when its path was scanned |
| ScanThreads.ScanThread.CommitHashResults | dedup/gui/scan_thread.py:514-524 | the commit loop appends and writes one entry per scanned result, nothing when cancelled |
| ScanThreads.HashPhaseAsWrittenFails | dedup/gui/scan_thread.py:437-440 | the hashing phase as written raises UnboundLocalError for `file_list` before any commit |
| ScanThreads.ScanThread.RunHashPhase | dedup/gui/scan_thread.py:437-533 | with `file_list` assigned first: the total is the file count, and the committed list is the scanned results in finishing order, all written to the store; with fewer than two cores the pool fails, an empty list is reported and the store is unchanged |
| ScanThreads.HashPhaseStores | dedup/gui/scan_thread.py:449-524 | after the corrected phase a scanned path with a truthy fingerprint holds it, with its first tuple's values; every other path keeps its old row |
| RecentWorkspaceList.NewEntry | dedup/recent_workspaces.py:19-23 | the new entry's path is the absolute path |
| RecentWorkspaceList.KeptMembers | dedup/recent_workspaces.py:47-51 | an item is kept exactly when it is a dictionary with a "path" that exists |
| RecentWorkspaceList.KeptSubsequence | dedup/recent_workspaces.py:47-51 | kept items keep their order |
| RecentWorkspaceList.KeptLength | dedup/recent_workspaces.py:54-55 | the list never grows and is unchanged exactly when its length is |
| RecentWorkspaceList.KeptIdempotent | dedup/recent_workspaces.py:47-55 | filtering twice is filtering once, so a second read writes nothing back |
| RecentWorkspaceList.WithoutPathSpec | dedup/recent_workspaces.py:66-70 | no item left has the path; all others stay, in order |
| RecentWorkspaceList.AddedListSpec | dedup/recent_workspaces.py:26-32 | the new entry is first, no other item has its path, the others keep their order, and the length is `min(10, 1 + others)` |
| RecentWorkspaceList.AddedIsLast | dedup/recent_workspaces.py:11-64 | a workspace just added is the last workspace while its path exists |
| RecentWorkspaceList.RecentWorkspaces.constructor | dedup/recent_workspaces.py:7-9 | `max_recent` is 10 |
| RecentWorkspaceList.RecentWorkspaces.GetRecentWorkspaces | dedup/recent_workspaces.py:37-57 | the kept items of the stored list, `[]` for unparsable text; written back exactly when an item was dropped |
| RecentWorkspaceList.RecentWorkspaces.AddWorkspace | dedup/recent_workspaces.py:11-35 | no change when the path does not exist; otherwise the new entry in front of the other kept entries, cut to 10 |
| RecentWorkspaceList.RecentWorkspaces.GetLastWorkspace | dedup/recent_workspaces.py:59-64 | the first kept entry's path, or None |
| RecentWorkspaceList.RecentWorkspaces.RemoveWorkspace | dedup/recent_workspaces.py:66-70 | the kept list without any entry for exactly that path |
| RecentWorkspaceList.RecentWorkspaces.ClearRecentWorkspaces | dedup/recent_workspaces.py:72-74 | the stored list is empty |

## Left out

- Concurrency: QThread, signal emission, locks, and the thread and process pools are sequential loops with a nondeterministic finishing order. The small phase waits with `as_completed(..., timeout=0.1)` (`dedup/parallel_processor.py:167`), which raises when no task finishes within 0.1 s; the model assumes some task always finishes in time.
- `_update_core_display` and the per-core display lists, the log and progress callbacks, and the status texts are UI output and are left out. The activity table they read is modelled.
- `process_files_parallel` sizes its pools with `min(4, max_workers)` and `max_workers`. Pool size does not change which results come back, so the model only requires `max_workers >= 1`, below which the executor refuses to start.
- `hash_single_file` also returns the process id; process ids only feed a log line, so they are left out.
- The folder-queue work-stealing phase of `ScanThread.run` (`dedup/gui/scan_thread.py:203-313`) is left out: it depends on thread scheduling and `os.listdir`/`isfile`. Its fallback, `scan_single_directory_with_updates`, is modelled.
- `ScanThread.run` end to end is not modelled. Its hashing phase raises before the commit loop (see Findings); the helpers and loops are modelled one by one.
- The 500 ms status throttle and `time.time()` are left out; they only affect status texts.
- JSON encoding and decoding of the legacy directory blob and of the settings value are modelled as already-decoded values, or a marker for text that does not parse. JSON values of other types (a number, a list of non-strings) are not modelled.
- `os.path.exists`, `os.path.abspath`, `cpu_count()` and the current time are parameters.
- `close()` of the workspace and engine, connection commits, index creation and `CREATE TABLE IF NOT EXISTS` are left out: the database is a value, so schema creation has nothing to repeat.
- The percentage text of `progress_wrapper` (`dedup/engine.py:45-48`) is left out; the `processed` values it receives are modelled.
- The real `os.walk`, `os.stat` and file reading are replaced by a directory-tree value whose entries carry the stat result or its failure.
- The hash functions are parameters; nothing is proved about hash values.
- The `id` and `created_at` columns of the files table are not stored; `ORDER BY added_at` is modelled as insertion order.
- The cancellation flag cannot change during a call, so a cancel that arrives midway through a loop is not modelled.
- ProcessFilesWithCoreTrackingAsWritten: its progress is stated as two ranges, `Ticks(0, k) + Ticks(k, m)`, rather than one; `Parallel.TicksJoin` shows they run 1..k+m.

## Findings

| source | as written | input that shows it | evidently intended | confidence | as-written member | corrected member |
|---|---|---|---|---|---|---|
| dedup/gui/scan_thread.py:437-440 | `hash_progress_updated.emit(0, len(file_list))` reads `file_list` one line before it is assigned, so the hashing phase raises UnboundLocalError, which the `except` at line 540 catches | any scan that reaches the hashing phase, e.g. one directory holding one readable file | assign `file_list` first, so that the files are hashed, committed and reported through `scan_completed` | not executed | ScanThreads.HashPhaseAsWritten (shown by ScanThreads.HashPhaseAsWrittenFails) | ScanThreads.ScanThread.RunHashPhase (with ScanThreads.HashPhaseStores) |
| dedup/parallel_processor.py:102-105 | the large-phase submit loop stops once `len(future_to_file)` reaches `large_cores` and never submits again, so only the first `large_cores` large files are hashed | five files of at least 50 MiB with `max_cores` of 4: `large_cores` is 2, so three of them get no result | keep submitting as slots free up, as the small phase does at lines 143-186, so every large file is hashed | not executed | Parallel.ParallelProcessor.ProcessFilesWithCoreTrackingAsWritten (shown by Parallel.LargePhaseDropsFiles) | Parallel.ParallelProcessor.ProcessFilesWithCoreTracking |
