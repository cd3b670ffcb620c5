/** The helpers and loops of the scan thread that runs behind the window: the resume
    filter, the shared file counter, folder discovery, the per-directory scan that reports
    its count in batches, the collection of fingerprints and the loop that writes them back
    to the workspace. The thread's SQLite connection is a `Workspace` object. The
    cancellation flag is a field that is either set before a call or not at all, so only
    the first test of it inside a loop can fire; the model tests it there. */
module ScanThreads {
  import opened Common
  import opened Completion
  import opened Scanner
  import opened WorkspaceStore
  import opened Parallel

  /** The shared file counter is advanced once per this many files found. */
  const CountBatch: nat := 50

  // ---------------------------------------------------------------------------------
  // The resume filter

  /** The query of `_filter_unhashed_files`: the fingerprint and modification time of the
      stored row with this path and size, when that row has a fingerprint. */
  function StoredFingerprint(t: seq<FileRow>, path: string, size: int): (r: Option<(string, int)>)
    ensures r.Some? ==> exists row :: row in t && row.path == path && row.size == size
                          && row.xxhash == Some(r.value.0) && row.modified == r.value.1
  {
    match Lookup(t, path)
    case None => None
    case Some(row) => if row.size == size && row.xxhash.Some? then Some((row.xxhash.value, row.modified)) else None
  }

  /** Under the `UNIQUE` path constraint the query finds nothing exactly when no row has the
      path and size together with a fingerprint. */
  lemma StoredFingerprintNone(t: seq<FileRow>, path: string, size: int)
    requires UniquePaths(t)
    ensures StoredFingerprint(t, path, size).None? <==>
      forall i :: 0 <= i < |t| && t[i].path == path ==> t[i].size != size || t[i].xxhash.None?
  {
    var o := Lookup(t, path);
    if o.Some? {
      var j :| 0 <= j < |t| && t[j] == o.value;
      forall i | 0 <= i < |t| && t[i].path == path
        ensures i == j
      {
      }
    }
  }

  /** A file must be hashed unless a stored row with its path and size has a fingerprint
      and the same modification time. */
  predicate NeedsHash(t: seq<FileRow>, f: FileTuple)
  {
    var stored := StoredFingerprint(t, f.path, f.size);
    stored.None? || stored.value.1 != f.modified
  }

  /** The files of `files` that need hashing, in their order. */
  function Unhashed(t: seq<FileRow>, files: seq<FileTuple>): seq<FileTuple>
  {
    if files == [] then []
    else
      var f := files[|files| - 1];
      Unhashed(t, files[..|files| - 1]) + (if NeedsHash(t, f) then [f] else [])
  }

  /** A file is kept exactly when it needs hashing. */
  lemma {:induction false} UnhashedMembers(t: seq<FileRow>, files: seq<FileTuple>, f: FileTuple)
    ensures f in Unhashed(t, files) <==> f in files && NeedsHash(t, f)
  {
    if files != [] {
      var files', g := files[..|files| - 1], files[|files| - 1];
      assert files == files' + [g];
      UnhashedMembers(t, files', f);
    }
  }

  /** The kept files are in their original order. */
  lemma {:induction false} UnhashedSubsequence(t: seq<FileRow>, files: seq<FileTuple>)
    ensures Subsequence(Unhashed(t, files), files)
  {
    if files != [] {
      var files', g := files[..|files| - 1], files[|files| - 1];
      UnhashedSubsequence(t, files');
      assert files' + [g] == files;
      if NeedsHash(t, g) {
        var u := Unhashed(t, files);
        assert u[..|u| - 1] == Unhashed(t, files');
      } else {
        assert Unhashed(t, files) == Unhashed(t, files');
        SubsequenceWeaken(Unhashed(t, files'), files', g);
      }
    }
  }

  // ---------------------------------------------------------------------------------
  // The batched file counter

  function Sum(s: seq<nat>): nat
  {
    if s == [] then 0 else Sum(s[..|s| - 1]) + s[|s| - 1]
  }

  lemma SumSnoc(s: seq<nat>, x: nat)
    ensures Sum(s + [x]) == Sum(s) + x
  {
    assert (s + [x])[..|s|] == s;
  }

  /** Counter reports in batches: every report is at most a batch, and all but the last are
      a full batch. */
  predicate Batched(increments: seq<nat>)
  {
    && (forall i :: 0 <= i < |increments| ==> 0 < increments[i] <= CountBatch)
    && (forall i :: 0 <= i < |increments| - 1 ==> increments[i] == CountBatch)
  }

  lemma {:induction false} FullBatchesSum(s: seq<nat>)
    requires forall i :: 0 <= i < |s| ==> s[i] == CountBatch
    ensures Sum(s) == CountBatch * |s|
  {
    if s != [] {
      FullBatchesSum(s[..|s| - 1]);
    }
  }

  /** Reporting `n` files in batches takes one report per started batch of 50. */
  lemma BatchedCount(increments: seq<nat>)
    requires Batched(increments)
    ensures |increments| == (Sum(increments) + CountBatch - 1) / CountBatch
  {
    if increments != [] {
      var k := |increments|;
      var prefix := increments[..k - 1];
      FullBatchesSum(prefix);
      var x := increments[k - 1];
      assert Sum(increments) == 50 * (k - 1) + x;
      assert (50 * (k - 1) + x + 49) / 50 == k;
    }
  }

  lemma FullBatched(increments: seq<nat>)
    requires forall k :: 0 <= k < |increments| ==> increments[k] == CountBatch
    ensures Batched(increments)
  {
  }

  lemma BatchedSnoc(increments: seq<nat>, x: nat)
    requires forall k :: 0 <= k < |increments| ==> increments[k] == CountBatch
    requires 0 < x <= CountBatch
    ensures Batched(increments + [x])
  {
  }

  // ---------------------------------------------------------------------------------
  // Folder discovery

  /** The folders of a run of walk steps that list at least one name. */
  function FoldersOf(steps: seq<Step>): seq<string>
  {
    if steps == [] then []
    else
      var s := steps[|steps| - 1];
      FoldersOf(steps[..|steps| - 1]) + (if s.Visit? && s.filenames != [] then [s.root] else [])
  }

  /** Every folder a run of steps visits, in walk order. */
  function Roots(steps: seq<Step>): seq<string>
  {
    if steps == [] then []
    else
      var s := steps[|steps| - 1];
      Roots(steps[..|steps| - 1]) + (if s.Visit? then [s.root] else [])
  }

  /** The steps of the walk of `directory` before it raises. */
  function WalkBeforeRaise(fs: FileSystem, directory: string): seq<Step>
  {
    var steps := WalkOf(fs, directory);
    steps[..FirstRaise(steps)]
  }

  /** The discovery loop of `run`: the folders of each directory one after the other; an
      exception from a walk keeps the folders found before it and moves on. */
  function DiscoveredFolders(fs: FileSystem, dirs: seq<string>): seq<string>
  {
    if dirs == [] then []
    else DiscoveredFolders(fs, dirs[..|dirs| - 1]) + FoldersOf(WalkBeforeRaise(fs, dirs[|dirs| - 1]))
  }

  /** A folder is discovered exactly when a step visits it and lists some name. */
  lemma {:induction false} FoldersOfMembers(steps: seq<Step>, x: string)
    ensures x in FoldersOf(steps) <==>
      exists k :: 0 <= k < |steps| && steps[k].Visit? && steps[k].root == x && steps[k].filenames != []
  {
    if steps != [] {
      var steps', s := steps[..|steps| - 1], steps[|steps| - 1];
      FoldersOfMembers(steps', x);
      if exists k :: 0 <= k < |steps'| && steps'[k].Visit? && steps'[k].root == x && steps'[k].filenames != [] {
        var k :| 0 <= k < |steps'| && steps'[k].Visit? && steps'[k].root == x && steps'[k].filenames != [];
        assert steps[k] == steps'[k];
      }
      if exists k :: 0 <= k < |steps| && steps[k].Visit? && steps[k].root == x && steps[k].filenames != [] {
        var k :| 0 <= k < |steps| && steps[k].Visit? && steps[k].root == x && steps[k].filenames != [];
        if k < |steps'| {
          assert steps'[k] == steps[k];
        }
      }
    }
  }

  /** The discovered folders keep walk order. */
  lemma {:induction false} FoldersOfSubsequence(steps: seq<Step>)
    ensures Subsequence(FoldersOf(steps), Roots(steps))
  {
    if steps != [] {
      var steps', s := steps[..|steps| - 1], steps[|steps| - 1];
      FoldersOfSubsequence(steps');
      var f, r := FoldersOf(steps), Roots(steps);
      if s.Visit? {
        assert r == Roots(steps') + [s.root];
        assert r[..|r| - 1] == Roots(steps');
        if s.filenames != [] {
          assert f[..|f| - 1] == FoldersOf(steps');
        } else {
          assert f == FoldersOf(steps');
          SubsequenceWeaken(FoldersOf(steps'), Roots(steps'), s.root);
        }
      } else {
        assert f == FoldersOf(steps') && r == Roots(steps');
      }
    }
  }

  /** Discovery in one list of directories and then another is discovery in both. */
  lemma {:induction false} DiscoveredFoldersAppend(fs: FileSystem, a: seq<string>, b: seq<string>)
    ensures DiscoveredFolders(fs, a + b) == DiscoveredFolders(fs, a) + DiscoveredFolders(fs, b)
  {
    if b == [] {
      assert a + b == a;
    } else {
      var b', d := b[..|b| - 1], b[|b| - 1];
      assert (a + b)[..|a + b| - 1] == a + b';
      assert (a + b)[|a + b| - 1] == d;
      DiscoveredFoldersAppend(fs, a, b');
      var tail := FoldersOf(WalkBeforeRaise(fs, d));
      assert DiscoveredFolders(fs, a + b) == DiscoveredFolders(fs, a + b') + tail;
      assert DiscoveredFolders(fs, b) == DiscoveredFolders(fs, b') + tail;
    }
  }

  // ---------------------------------------------------------------------------------
  // Hashing and committing

  /** `max_hash_cores`: one core is reserved for the interface. */
  function MaxHashCores(cpuCount: nat): int
  {
    cpuCount - 1
  }

  /** `ProcessPoolExecutor(max_workers=...)` raises ValueError unless at least one worker
      is asked for. */
  predicate PoolStarts(cpuCount: nat)
  {
    MaxHashCores(cpuCount) >= 1
  }

  /** The hash progress the result loop reports after the first `k` of `n` completions:
      a report after every fifth completion and after the last. */
  function ReportedUpTo(k: nat, n: nat): seq<nat>
  {
    if k == 0 then [] else ReportedUpTo(k - 1, n) + (if k % 5 == 0 || k == n then [k] else [])
  }

  /** The hash progress reported over a whole pass of `n` files. */
  function Reported(n: nat): seq<nat>
  {
    ReportedUpTo(n, n)
  }

  lemma {:induction false} ReportedUpToMembers(k: nat, n: nat)
    ensures forall v :: v in ReportedUpTo(k, n) <==> 1 <= v <= k && (v % 5 == 0 || v == n)
  {
    if k > 0 {
      ReportedUpToMembers(k - 1, n);
    }
  }

  lemma {:induction false} ReportedUpToIncreasing(k: nat, n: nat)
    ensures forall i, j :: 0 <= i < j < |ReportedUpTo(k, n)| ==> ReportedUpTo(k, n)[i] < ReportedUpTo(k, n)[j]
  {
    if k > 0 {
      ReportedUpToIncreasing(k - 1, n);
      ReportedUpToMembers(k - 1, n);
      var r := ReportedUpTo(k - 1, n);
      forall i | 0 <= i < |r| ensures r[i] < k {
        assert r[i] in r;
      }
    }
  }

  lemma {:induction false} ReportedUpToCount(k: nat, n: nat)
    requires k < n
    ensures |ReportedUpTo(k, n)| == k / 5
  {
    if k > 0 {
      ReportedUpToCount(k - 1, n);
    }
  }

  /** A pass reports exactly the multiples of 5 up to `n` and `n` itself, in increasing
      order: `ceil(n / 5)` reports, the last of them `n`. */
  lemma ReportedSpec(n: nat)
    ensures forall v :: v in Reported(n) <==> 1 <= v <= n && (v % 5 == 0 || v == n)
    ensures forall i, j :: 0 <= i < j < |Reported(n)| ==> Reported(n)[i] < Reported(n)[j]
    ensures |Reported(n)| == (n + 4) / 5
    ensures n > 0 ==> Reported(n)[|Reported(n)| - 1] == n
  {
    ReportedUpToMembers(n, n);
    ReportedUpToIncreasing(n, n);
    if n > 0 {
      ReportedUpToCount(n - 1, n);
    }
  }

  /** The reporting test of the result loop, applied to each value the completion counter
      takes: `completed % 5 == 0 or completed == len(file_list)`. */
  method ReportProgress(completions: seq<nat>, n: nat) returns (progress: seq<nat>)
    requires completions == Ticks(0, n)
    ensures progress == Reported(n)
  {
    TicksValues(0, n);
    progress := [];
    var i := 0;
    while i < |completions|
      invariant 0 <= i <= |completions|
      invariant progress == ReportedUpTo(i, n)
    {
      var completed := completions[i];
      if completed % 5 == 0 || completed == n {
        progress := progress + [completed];
      }
      i := i + 1;
    }
  }

  /** `hash_single_file`: the tuple's own path with its fingerprint, None when hashing
      fails (the process id it also returns is not modelled). */
  function HashSingleFile(info: FileTuple, h: HashFunction): (r: (string, Option<string>))
    ensures r.0 == info.path && r.1 == h(info.path)
  {
    (info.path, h(info.path))
  }

  /** The `if xxhash:` step of the result loop: a task's result is kept, as a
      `(path, xxhash)` pair, exactly when its fingerprint is truthy. */
  function KeepTruthy(r: (string, Option<string>)): (kept: seq<(string, string)>)
    ensures |kept| <= 1
    ensures kept != [] <==> Truthy(r.1)
    ensures kept != [] ==> kept[0] == (r.0, r.1.value)
  {
    if Truthy(r.1) then [(r.0, r.1.value)] else []
  }

  /** The task submitted to the process pool for each tuple, followed by the filter the
      result loop applies to what it returns. */
  function HashTask(h: HashFunction): FileTuple -> seq<(string, string)>
  {
    info => KeepTruthy(HashSingleFile(info, h))
  }

  /** Hashing a tuple in a worker and keeping a truthy fingerprint is what the hashing
      results of the pool model record for that tuple. */
  lemma {:induction false} HashTaskAgrees(files: seq<FileTuple>, h: HashFunction, order: seq<nat>)
    requires InBounds(order, |files|)
    ensures Gather(files, order, HashTask(h)) == Completed(files, order, h)
    ensures Concat(files, HashTask(h)) == HashResults(files, h)
  {
    forall i | 0 <= i < |files| ensures HashTask(h)(files[i]) == Hashed(h)(files[i]) {
      var r := HashSingleFile(files[i], h);
      assert r.0 == files[i].path && r.1 == h(files[i].path);
    }
    GatherAgree(files, order, HashTask(h), Hashed(h));
    ConcatAgree(files, HashTask(h), Hashed(h));
    CompletedGather(files, order, h);
    HashResultsConcat(files, h);
  }

  /** One element of `hashed_files`: `(path, size, modified, xxhash)`. */
  datatype HashedFile = HashedFile(path: string, size: int, modified: int, xxhash: string)

  /** `next((f for f in all_files if f[0] == filepath), None)`. */
  function FirstMatch(files: seq<FileTuple>, p: string): (o: Option<FileTuple>)
    ensures o.Some? ==> o.value in files && o.value.path == p
    ensures o.None? ==> forall i :: 0 <= i < |files| ==> files[i].path != p
  {
    if files == [] then None
    else if files[0].path == p then Some(files[0])
    else
      assert forall i :: 1 <= i < |files| ==> files[i] == files[1..][i - 1];
      FirstMatch(files[1..], p)
  }

  /** The match is the first tuple with the path. */
  lemma {:induction false} FirstMatchIsFirst(files: seq<FileTuple>, p: string, i: nat)
    requires i < |files| && files[i].path == p
    requires forall j :: 0 <= j < i ==> files[j].path != p
    ensures FirstMatch(files, p) == Some(files[i])
  {
    if i > 0 {
      FirstMatchIsFirst(files[1..], p, i - 1);
    }
  }

  /** What the commit loop appends to `hashed_files` for `hashResults`: one entry per
      result whose path was scanned, with the size and modification time of the first
      tuple with that path. */
  function Commits(hashResults: seq<(string, string)>, allFiles: seq<FileTuple>): seq<HashedFile>
  {
    if hashResults == [] then []
    else
      Commits(hashResults[..|hashResults| - 1], allFiles) + CommitOf(hashResults[|hashResults| - 1], allFiles)
  }

  /** The entry for one result: none when no scanned tuple has its path. */
  function CommitOf(e: (string, string), allFiles: seq<FileTuple>): seq<HashedFile>
  {
    match FirstMatch(allFiles, e.0)
    case None => []
    case Some(f) => [HashedFile(e.0, f.size, f.modified, e.1)]
  }

  lemma CommitsSnoc(hashResults: seq<(string, string)>, i: nat, allFiles: seq<FileTuple>)
    requires i < |hashResults|
    ensures Commits(hashResults[..i + 1], allFiles) == Commits(hashResults[..i], allFiles) + CommitOf(hashResults[i], allFiles)
  {
    assert hashResults[..i + 1][..i] == hashResults[..i];
  }

  /** The row `_add_file_to_db` writes for an entry: no md5 or sha1, status "present". */
  function RowOf(c: HashedFile): FileRow
  {
    FileRow(c.path, c.size, c.modified, Some(c.xxhash), None, None, Present)
  }

  function Rows(cs: seq<HashedFile>): seq<FileRow>
  {
    if cs == [] then [] else Rows(cs[..|cs| - 1]) + [RowOf(cs[|cs| - 1])]
  }

  lemma RowsSnoc(cs: seq<HashedFile>, c: HashedFile)
    ensures Rows(cs + [c]) == Rows(cs) + [RowOf(c)]
  {
    assert (cs + [c])[..|cs|] == cs;
  }

  lemma {:induction false} RowsAppend(a: seq<HashedFile>, b: seq<HashedFile>)
    ensures Rows(a + b) == Rows(a) + Rows(b)
  {
    if b == [] {
      assert a + b == a;
    } else {
      assert (a + b)[..|a + b| - 1] == a + b[..|b| - 1];
      RowsAppend(a, b[..|b| - 1]);
    }
  }

  /** One more iteration of the commit loop: its entries are appended and written. */
  lemma CommitStep(t: seq<FileRow>, hashResults: seq<(string, string)>, i: nat, allFiles: seq<FileTuple>)
    requires i < |hashResults|
    ensures Commits(hashResults[..i + 1], allFiles) == Commits(hashResults[..i], allFiles) + CommitOf(hashResults[i], allFiles)
    ensures UpsertAll(t, Rows(Commits(hashResults[..i + 1], allFiles)))
         == UpsertAll(UpsertAll(t, Rows(Commits(hashResults[..i], allFiles))), Rows(CommitOf(hashResults[i], allFiles)))
  {
    CommitsSnoc(hashResults, i, allFiles);
    RowsAppend(Commits(hashResults[..i], allFiles), CommitOf(hashResults[i], allFiles));
    UpsertAllAppend(t, Rows(Commits(hashResults[..i], allFiles)), Rows(CommitOf(hashResults[i], allFiles)));
  }

  /** Every entry comes from a result, with its path and fingerprint, and carries the size
      and modification time of the first scanned tuple with that path. */
  lemma {:induction false} CommitsShape(hashResults: seq<(string, string)>, allFiles: seq<FileTuple>, c: HashedFile)
    requires c in Commits(hashResults, allFiles)
    ensures (c.path, c.xxhash) in hashResults
    ensures FirstMatch(allFiles, c.path) == Some(FileTuple(c.path, c.size, c.modified))
  {
    var hr', e := hashResults[..|hashResults| - 1], hashResults[|hashResults| - 1];
    if c in Commits(hr', allFiles) {
      CommitsShape(hr', allFiles, c);
      assert hashResults == hr' + [e];
    }
  }

  /** The row the commit writes last for path `p`, when all results for `p` carry the
      fingerprint `x`: a row exactly when some result for `p` was scanned. */
  lemma {:induction false} CommitsLookup(hashResults: seq<(string, string)>, allFiles: seq<FileTuple>, p: string, x: string)
    requires forall e :: e in hashResults && e.0 == p ==> e.1 == x
    ensures Lookup(Rows(Commits(hashResults, allFiles)), p) ==
      if (p, x) in hashResults && FirstMatch(allFiles, p).Some? then
        Some(FileRow(p, FirstMatch(allFiles, p).value.size, FirstMatch(allFiles, p).value.modified,
                     Some(x), None, None, Present))
      else None
  {
    if hashResults != [] {
      var hr', e := hashResults[..|hashResults| - 1], hashResults[|hashResults| - 1];
      assert hashResults == hr' + [e];
      assert (p, x) in hashResults <==> (p, x) in hr' || e == (p, x);
      CommitsLookup(hr', allFiles, p, x);
      var cs' := Commits(hr', allFiles);
      var fm := FirstMatch(allFiles, e.0);
      if fm.None? {
        assert Commits(hashResults, allFiles) == cs' + [];
        assert cs' + [] == cs';
      } else {
        var c := HashedFile(e.0, fm.value.size, fm.value.modified, e.1);
        assert Commits(hashResults, allFiles) == cs' + [c];
        RowsSnoc(cs', c);
        LookupSnoc(Rows(cs'), RowOf(c), p);
      }
    }
  }

  /** The hashing phase with `file_list` bound before it is read: after it, each scanned
      path with a truthy fingerprint holds that fingerprint, with the size and modification
      time of its first tuple, and every other path keeps its old row. */
  lemma HashPhaseStores(t: seq<FileRow>, allFiles: seq<FileTuple>, order: seq<nat>, h: HashFunction, p: string)
    requires IsPermutation(order, |allFiles|)
    ensures InBounds(order, |allFiles|)
    ensures Lookup(UpsertAll(t, Rows(Commits(Completed(allFiles, order, h), allFiles))), p) ==
      if (exists i :: 0 <= i < |allFiles| && allFiles[i].path == p) && Truthy(h(p)) then
        Some(FileRow(p, FirstMatch(allFiles, p).value.size, FirstMatch(allFiles, p).value.modified,
                     h(p), None, None, Present))
      else Lookup(t, p)
  {
    CompletedPermutation(allFiles, order, h);
    var hr := Completed(allFiles, order, h);
    var x := if h(p).Some? then h(p).value else "";
    forall e | e in hr && e.0 == p
      ensures e.1 == x
    {
      assert e in multiset(hr);
      assert e in multiset(HashResults(allFiles, h));
      HashResultsMembers(allFiles, h, e.0, e.1);
    }
    CommitsLookup(hr, allFiles, p, x);
    HashResultsMembers(allFiles, h, p, x);
    assert (p, x) in hr <==> (p, x) in HashResults(allFiles, h) by {
      assert (p, x) in hr <==> (p, x) in multiset(hr);
      assert (p, x) in HashResults(allFiles, h) <==> (p, x) in multiset(HashResults(allFiles, h));
    }
    UpsertAllLookup(t, Rows(Commits(hr, allFiles)), p);
  }

  /** `len(file_list)`, for a local that is unbound until it is assigned (None). */
  function LenOf(fileList: Option<seq<FileTuple>>): (r: Result<nat>)
    ensures r.Err? <==> fileList.None?
    ensures r.Err? ==> r.error == UnboundLocal("file_list")
    ensures r.Ok? ==> r.value == |fileList.value|
  {
    if fileList.Some? then Ok(|fileList.value|) else Err(UnboundLocal("file_list"))
  }

  /** The hashing phase of `run` as written: the first progress report reads `file_list`,
      which is assigned only on the following statement. */
  function HashPhaseAsWritten(allFiles: seq<FileTuple>, hashResults: seq<(string, string)>): Result<seq<HashedFile>>
  {
    var fileList: Option<seq<FileTuple>> := None;
    match LenOf(fileList)
    case Err(e) => Err(e)
    case Ok(_) => Ok(Commits(hashResults, allFiles))
  }

  /** Whatever was scanned and hashed, the phase as written raises `UnboundLocalError`
      before any result is committed, and the handler of `run` ends the scan. */
  lemma HashPhaseAsWrittenFails(allFiles: seq<FileTuple>, hashResults: seq<(string, string)>)
    ensures HashPhaseAsWritten(allFiles, hashResults) == Err(UnboundLocal("file_list"))
  {
  }

  // ---------------------------------------------------------------------------------
  // The thread

  class ScanThread {
    var directories: seq<string>
    var skipHashed: bool
    var cancelled: bool
    var threadConn: Option<Workspace>
    var globalFileCount: int

    /** The connection object, when there is one. */
    ghost function Conn(): set<object>
      reads this
    {
      if threadConn.Some? then {threadConn.value} else {}
    }

    ghost predicate Valid()
      reads this, Conn()
    {
      threadConn.Some? ==> threadConn.value.Valid()
    }

    constructor(directories: seq<string>, skipHashed: bool)
      ensures this.directories == directories && this.skipHashed == skipHashed
      ensures !cancelled && threadConn == None && globalFileCount == 0
      ensures Valid()
    {
      this.directories := directories;
      this.skipHashed := skipHashed;
      cancelled := false;
      threadConn := None;
      globalFileCount := 0;
    }

    /** The thread opens its own connection to the workspace file. */
    method OpenConnection(w: Workspace)
      requires w.Valid()
      modifies this
      ensures threadConn == Some(w) && Valid()
      ensures directories == old(directories) && skipHashed == old(skipHashed)
      ensures cancelled == old(cancelled) && globalFileCount == old(globalFileCount)
    {
      threadConn := Some(w);
    }

    /** `cancel`. */
    method Cancel()
      modifies this
      ensures cancelled
      ensures directories == old(directories) && skipHashed == old(skipHashed)
      ensures threadConn == old(threadConn) && globalFileCount == old(globalFileCount)
    {
      cancelled := true;
    }

    /** `update_global_file_count`: advances the counter and returns the value reported. */
    method UpdateGlobalFileCount(increment: int) returns (reported: int)
      modifies this
      ensures globalFileCount == old(globalFileCount) + increment && reported == globalFileCount
      ensures directories == old(directories) && skipHashed == old(skipHashed)
      ensures cancelled == old(cancelled) && threadConn == old(threadConn)
    {
      globalFileCount := globalFileCount + increment;
      reported := globalFileCount;
    }

    /** `_filter_unhashed_files`. */
    method FilterUnhashedFiles(allFiles: seq<FileTuple>) returns (toHash: seq<FileTuple>)
      requires Valid()
      ensures threadConn.None? ==> toHash == allFiles
      ensures threadConn.Some? ==> toHash == Unhashed(threadConn.value.files, allFiles)
    {
      if threadConn.None? {
        return allFiles;
      }
      var t := threadConn.value.files;
      toHash := [];
      for i := 0 to |allFiles|
        invariant toHash == Unhashed(t, allFiles[..i])
      {
        assert allFiles[..i + 1][..i] == allFiles[..i];
        var f := allFiles[i];
        var stored := StoredFingerprint(t, f.path, f.size);
        if stored.None? {
          toHash := toHash + [f];
        } else if stored.value.1 != f.modified {
          toHash := toHash + [f];
        }
      }
      assert allFiles[..|allFiles|] == allFiles;
    }

    /** The skip option of `run`: returns the files to hash and how many were skipped. */
    method FilesToHash(allFiles: seq<FileTuple>) returns (toHash: seq<FileTuple>, skipped: int)
      requires Valid()
      ensures skipped == |allFiles| - |toHash|
      ensures !skipHashed || threadConn.None? ==> toHash == allFiles
      ensures skipHashed && threadConn.Some? ==> toHash == Unhashed(threadConn.value.files, allFiles)
      ensures Subsequence(toHash, allFiles)
    {
      if skipHashed {
        toHash := FilterUnhashedFiles(allFiles);
      } else {
        toHash := allFiles;
      }
      if skipHashed && threadConn.Some? {
        UnhashedSubsequence(threadConn.value.files, allFiles);
      } else {
        SubsequenceSelf(allFiles);
      }
      skipped := |allFiles| - |toHash|;
    }

    /** `scan_single_directory_with_updates`: the tuples of one directory, and the
        increments it adds to the shared counter. */
    method ScanSingleDirectoryWithUpdates(fs: FileSystem, directory: string)
      returns (files: seq<FileTuple>, increments: seq<nat>)
      modifies this
      ensures cancelled ==> files == [] && increments == []
      ensures !cancelled ==> files == DirectoryFiles(fs, directory)
      ensures Sum(increments) == |files| && Batched(increments)
      ensures globalFileCount == old(globalFileCount) + |files|
      ensures directories == old(directories) && skipHashed == old(skipHashed)
      ensures cancelled == old(cancelled) && threadConn == old(threadConn)
    {
      var steps := WalkOf(fs, directory);
      var localCount, lastCountUpdate;
      files, localCount, lastCountUpdate, increments := ScanSteps(steps);
      if localCount > lastCountUpdate {
        var increment := localCount - lastCountUpdate;
        var _ := UpdateGlobalFileCount(increment);
        SumSnoc(increments, increment);
        BatchedSnoc(increments, increment);
        increments := increments + [increment];
      } else {
        FullBatched(increments);
      }
    }

    /** The walk loop of `scan_single_directory_with_updates`, up to the handler: the
        tuples found, `local_count`, `last_count_update` and the full batches reported. */
    method ScanSteps(steps: seq<Step>)
      returns (files: seq<FileTuple>, localCount: nat, lastCountUpdate: nat, increments: seq<nat>)
      modifies this
      ensures cancelled ==> files == [] && increments == []
      ensures !cancelled ==> files == VisitedFiles(steps[..FirstRaise(steps)])
      ensures localCount == |files|
      ensures Sum(increments) == lastCountUpdate <= localCount < lastCountUpdate + CountBatch
      ensures forall k :: 0 <= k < |increments| ==> increments[k] == CountBatch
      ensures globalFileCount == old(globalFileCount) + lastCountUpdate
      ensures directories == old(directories) && skipHashed == old(skipHashed)
      ensures cancelled == old(cancelled) && threadConn == old(threadConn)
    {
      files, increments := [], [];
      localCount, lastCountUpdate := 0, 0;
      var i := 0;
      while i < |steps|
        invariant 0 <= i <= |steps| && i <= FirstRaise(steps)
        invariant cancelled ==> i == 0
        invariant files == VisitedFiles(steps[..i]) && localCount == |files|
        invariant Sum(increments) == lastCountUpdate <= localCount < lastCountUpdate + CountBatch
        invariant forall k :: 0 <= k < |increments| ==> increments[k] == CountBatch
        invariant globalFileCount == old(globalFileCount) + lastCountUpdate
        invariant directories == old(directories) && skipHashed == old(skipHashed)
        invariant cancelled == old(cancelled) && threadConn == old(threadConn)
      {
        if steps[i].Raise? {
          break;  // caught by the handler around the walk
        }
        if cancelled {
          return;
        }
        files, localCount, lastCountUpdate, increments :=
          CountFolder(steps[i].root, steps[i].filenames, files, localCount, lastCountUpdate, increments);
        assert steps[..i + 1][..i] == steps[..i];
        i := i + 1;
      }
    }

    /** The loop over the names of one folder in `scan_single_directory_with_updates`:
        one `os.stat` per name, and a counter report each time a batch is complete. */
    method CountFolder(root: string, filenames: seq<Entry>, files0: seq<FileTuple>, localCount0: nat,
                       lastCountUpdate0: nat, increments0: seq<nat>)
      returns (files: seq<FileTuple>, localCount: nat, lastCountUpdate: nat, increments: seq<nat>)
      requires localCount0 == |files0|
      requires Sum(increments0) == lastCountUpdate0 <= localCount0 < lastCountUpdate0 + CountBatch
      requires forall k :: 0 <= k < |increments0| ==> increments0[k] == CountBatch
      modifies this
      ensures files == files0 + FolderFiles(root, filenames) && localCount == |files|
      ensures Sum(increments) == lastCountUpdate <= localCount < lastCountUpdate + CountBatch
      ensures forall k :: 0 <= k < |increments| ==> increments[k] == CountBatch
      ensures globalFileCount == old(globalFileCount) + (lastCountUpdate - lastCountUpdate0)
      ensures directories == old(directories) && skipHashed == old(skipHashed)
      ensures cancelled == old(cancelled) && threadConn == old(threadConn)
    {
      files, localCount, lastCountUpdate, increments := files0, localCount0, lastCountUpdate0, increments0;
      var j := 0;
      while j < |filenames|
        invariant 0 <= j <= |filenames|
        invariant files == files0 + FolderFiles(root, filenames[..j]) && localCount == |files|
        invariant Sum(increments) == lastCountUpdate <= localCount < lastCountUpdate + CountBatch
        invariant forall k :: 0 <= k < |increments| ==> increments[k] == CountBatch
        invariant globalFileCount == old(globalFileCount) + (lastCountUpdate - lastCountUpdate0)
        invariant directories == old(directories) && skipHashed == old(skipHashed)
        invariant cancelled == old(cancelled) && threadConn == old(threadConn)
      {
        FolderFilesStep(root, filenames, j);
        ghost var done := FolderFiles(root, filenames[..j]);
        var e := filenames[j];
        if e.stat.Some? {
          var t := FileTuple(Join(root, e.name), e.stat.value.size, TruncToInt(e.stat.value.mtime));
          assert files0 + (done + [t]) == files + [t];
          files := files + [t];
          localCount := localCount + 1;
          if localCount - lastCountUpdate >= CountBatch {
            var increment := localCount - lastCountUpdate;
            var _ := UpdateGlobalFileCount(increment);
            SumSnoc(increments, increment);
            increments := increments + [increment];
            lastCountUpdate := localCount;
          }
        }
        j := j + 1;
      }
      assert filenames[..j] == filenames;
    }

    /** The folder discovery loop of `run`. */
    method DiscoverFolders(fs: FileSystem) returns (allFolders: seq<string>)
      ensures cancelled ==> allFolders == []
      ensures !cancelled ==> allFolders == DiscoveredFolders(fs, directories)
    {
      allFolders := [];
      var i := 0;
      while i < |directories|
        invariant 0 <= i <= |directories|
        invariant cancelled ==> i == 0 && allFolders == []
        invariant allFolders == DiscoveredFolders(fs, directories[..i])
      {
        if cancelled {
          break;
        }
        var found := WalkFolders(WalkOf(fs, directories[i]));
        allFolders := allFolders + found;
        assert directories[..i + 1][..i] == directories[..i];
        i := i + 1;
      }
      if !cancelled {
        assert directories[..i] == directories;
      }
    }

    /** The inner loop of folder discovery: the folders of one walk that list a name, up
        to the exception that ends the walk. */
    static method WalkFolders(steps: seq<Step>) returns (folders: seq<string>)
      ensures folders == FoldersOf(steps[..FirstRaise(steps)])
    {
      folders := [];
      var j := 0;
      while j < |steps|
        invariant 0 <= j <= |steps| && j <= FirstRaise(steps)
        invariant folders == FoldersOf(steps[..j])
      {
        if steps[j].Raise? {
          break;  // the handler reports the error and moves on to the next directory
        }
        assert steps[..j + 1][..j] == steps[..j];
        if steps[j].filenames != [] {
          folders := folders + [steps[j].root];
        }
        j := j + 1;
      }
    }

    /** The submission and collection loops of the hashing phase: the results with a
        truthy fingerprint, the `completed` values, and the order the tasks finished in. */
    method CollectHashResults(fileList: seq<FileTuple>, h: HashFunction, cpuCount: nat)
      returns (hashResults: seq<(string, string)>, progress: seq<nat>, ghost order: seq<nat>)
      ensures !PoolStarts(cpuCount) ==> hashResults == [] && progress == [] && order == []
      ensures cancelled ==> hashResults == [] && progress == [] && order == []
      ensures PoolStarts(cpuCount) && !cancelled ==> IsPermutation(order, |fileList|) && InBounds(order, |fileList|)
      ensures PoolStarts(cpuCount) && !cancelled ==> hashResults == Completed(fileList, order, h)
      ensures PoolStarts(cpuCount) && !cancelled ==> multiset(hashResults) == multiset(HashResults(fileList, h))
      ensures PoolStarts(cpuCount) && !cancelled ==> progress == Reported(|fileList|)
    {
      if !PoolStarts(cpuCount) {
        // `ProcessPoolExecutor` raises ValueError; the handler resets `hash_results`.
        return [], [], [];
      }
      if cancelled {
        return [], [], [];
      }
      var completions;
      hashResults, completions, order := AsCompleted(fileList, HashTask(h), 0);
      HashTaskAgrees(fileList, h, order);
      progress := ReportProgress(completions, |fileList|);
    }

    /** `_add_file_to_db`. */
    method AddFileToDb(path: string, size: int, modified: int, xxhash: string)
      requires Valid()
      modifies Conn()
      ensures Valid()
      ensures threadConn.Some? ==>
        threadConn.value.files == Upsert(old(threadConn.value.files), FileRow(path, size, modified, Some(xxhash), None, None, Present))
      ensures threadConn.Some? ==>
        (threadConn.value.directories == old(threadConn.value.directories)
         && threadConn.value.legacy == old(threadConn.value.legacy)
         && threadConn.value.metadata == old(threadConn.value.metadata))
    {
      if threadConn.Some? {
        threadConn.value.AddFile(path, size, modified, Some(xxhash), None, None, Present);
      }
    }

    /** One iteration of the commit loop: the entry for one result, written to the store
        when the result's path was scanned. */
    method CommitResult(e: (string, string), allFiles: seq<FileTuple>) returns (added: seq<HashedFile>)
      requires Valid()
      modifies Conn()
      ensures Valid()
      ensures added == CommitOf(e, allFiles)
      ensures threadConn.Some? ==> threadConn.value.files == UpsertAll(old(threadConn.value.files), Rows(added))
      ensures threadConn.Some? ==>
        (threadConn.value.directories == old(threadConn.value.directories)
         && threadConn.value.legacy == old(threadConn.value.legacy)
         && threadConn.value.metadata == old(threadConn.value.metadata))
    {
      var fileInfo := FirstMatch(allFiles, e.0);
      if fileInfo.Some? {
        var c := HashedFile(e.0, fileInfo.value.size, fileInfo.value.modified, e.1);
        AddFileToDb(c.path, c.size, c.modified, c.xxhash);
        added := [c];
        assert Rows(added) == [RowOf(c)] by {
          assert added[..0] == [];
        }
        assert [RowOf(c)][..0] == [];
      } else {
        added := [];
      }
    }

    /** The commit loop of `run`. */
    method CommitHashResults(hashResults: seq<(string, string)>, allFiles: seq<FileTuple>)
      returns (hashedFiles: seq<HashedFile>)
      requires Valid()
      modifies Conn()
      ensures Valid()
      ensures cancelled ==> hashedFiles == []
      ensures !cancelled ==> hashedFiles == Commits(hashResults, allFiles)
      ensures threadConn.Some? ==> threadConn.value.files == UpsertAll(old(threadConn.value.files), Rows(hashedFiles))
      ensures threadConn.Some? ==>
        (threadConn.value.directories == old(threadConn.value.directories)
         && threadConn.value.legacy == old(threadConn.value.legacy)
         && threadConn.value.metadata == old(threadConn.value.metadata))
    {
      hashedFiles := [];
      if cancelled {
        return;  // the test at the head of the first iteration
      }
      // The same loop in both branches; they differ only in what the proof tracks.
      if threadConn.None? {
        for i := 0 to |hashResults|
          invariant hashedFiles == Commits(hashResults[..i], allFiles)
        {
          CommitsSnoc(hashResults, i, allFiles);
          var added := CommitResult(hashResults[i], allFiles);
          hashedFiles := hashedFiles + added;
        }
      } else {
        var w := threadConn.value;
        ghost var t0 := w.files;
        for i := 0 to |hashResults|
          invariant w.Valid()
          invariant hashedFiles == Commits(hashResults[..i], allFiles)
          invariant w.files == UpsertAll(t0, Rows(Commits(hashResults[..i], allFiles)))
          invariant w.directories == old(w.directories) && w.legacy == old(w.legacy) && w.metadata == old(w.metadata)
        {
          var added := CommitResult(hashResults[i], allFiles);
          CommitStep(t0, hashResults, i, allFiles);
          hashedFiles := hashedFiles + added;
        }
      }
      assert hashResults[..|hashResults|] == hashResults;
    }

    /** The hashing phase of `run` with `file_list` assigned before the first progress
        report reads it: returns the total of that report, the list `scan_completed`
        carries (None when the scan was cancelled) and the completion order. */
    method RunHashPhase(allFiles: seq<FileTuple>, h: HashFunction, cpuCount: nat)
      returns (total: nat, completed: Option<seq<HashedFile>>, ghost order: seq<nat>)
      requires Valid()
      modifies Conn()
      ensures Valid() && total == |allFiles|
      ensures cancelled ==> completed == None
      ensures !PoolStarts(cpuCount) && !cancelled ==> completed == Some([])
      ensures PoolStarts(cpuCount) && !cancelled ==> IsPermutation(order, |allFiles|) && InBounds(order, |allFiles|)
      ensures PoolStarts(cpuCount) && !cancelled ==> completed == Some(Commits(Completed(allFiles, order, h), allFiles))
      ensures threadConn.Some? && (cancelled || !PoolStarts(cpuCount)) ==>
        threadConn.value.files == old(threadConn.value.files)
      ensures threadConn.Some? && !cancelled ==>
        threadConn.value.files == UpsertAll(old(threadConn.value.files), Rows(completed.value))
    {
      var fileList := allFiles;
      total := |fileList|;
      var hashResults, progress;
      hashResults, progress, order := CollectHashResults(fileList, h, cpuCount);
      var hashedFiles := CommitHashResults(hashResults, allFiles);
      if cancelled {
        completed := None;
      } else {
        completed := Some(hashedFiles);
      }
    }
  }
}
