/** `DedupEngine`: the list of directories to scan, the scan-and-fingerprint pipeline
    that fills the workspace, and the two-phase duplicate search over what it stored. The
    filesystem is a `FileSystem` value, `compute_xxhash` and `compute_md5` are `HashFunction`
    parameters, and `os.path.exists` of a directory is a boolean the caller passes in. */
module Engine {
  import opened Common
  import opened Completion
  import opened Grouping
  import opened WorkspaceStore
  import opened Scanner
  import opened Parallel
  import D = Deduper

  /** `list.remove(x)`: the list without its first occurrence of `x`. */
  function RemoveFirst<T(==)>(s: seq<T>, x: T): seq<T>
  {
    if s == [] then []
    else if s[0] == x then s[1..]
    else [s[0]] + RemoveFirst(s[1..], x)
  }

  /** Removing a value that is not there changes nothing. */
  lemma {:induction false} RemoveFirstAbsent<T>(s: seq<T>, x: T)
    requires x !in s
    ensures RemoveFirst(s, x) == s
  {
    if s != [] {
      assert s == [s[0]] + s[1..];
      RemoveFirstAbsent(s[1..], x);
    }
  }

  /** Removing takes out the occurrence at `i` when no earlier element is `x`. */
  lemma {:induction false} RemoveFirstAt<T>(s: seq<T>, x: T, i: nat)
    requires i < |s| && s[i] == x && x !in s[..i]
    ensures RemoveFirst(s, x) == s[..i] + s[i + 1..]
  {
    if i == 0 {
      assert s[..0] == [];
    } else {
      assert s[0] in s[..i];
      var s' := s[1..];
      assert s'[..i - 1] == s[1..i];
      assert x !in s'[..i - 1];
      RemoveFirstAt(s', x, i - 1);
      assert s[..i] == [s[0]] + s'[..i - 1];
      assert s[i + 1..] == s'[i..];
    }
  }

  /** The position of the first occurrence of `x`. */
  lemma {:induction false} FirstOccurrence<T>(s: seq<T>, x: T) returns (i: nat)
    requires x in s
    ensures i < |s| && s[i] == x && x !in s[..i]
  {
    if s[0] == x {
      i := 0;
      assert s[..0] == [];
    } else {
      assert s == [s[0]] + s[1..];
      var i' := FirstOccurrence(s[1..], x);
      i := i' + 1;
      assert s[..i] == [s[0]] + s[1..][..i'];
    }
  }

  /** Removing takes out exactly the first occurrence, and nothing when there is none: one
      element fewer, and one copy of `x` fewer, exactly when `x` was present. */
  lemma RemoveFirstSpec<T>(s: seq<T>, x: T)
    ensures x !in s ==> RemoveFirst(s, x) == s
    ensures x in s ==> exists i :: 0 <= i < |s| && s[i] == x && x !in s[..i]
                              && RemoveFirst(s, x) == s[..i] + s[i + 1..]
    ensures multiset(RemoveFirst(s, x)) == multiset(s) - multiset{x}
    ensures |RemoveFirst(s, x)| == |s| - (if x in s then 1 else 0)
  {
    if x in s {
      var i := FirstOccurrence(s, x);
      RemoveFirstAt(s, x, i);
      SplitAt(s, i);
    } else {
      RemoveFirstAbsent(s, x);
      assert x !in multiset(s);
    }
  }

  /** `{f[0]: (f[1], f[2]) for f in files}`: each scanned path with a size and
      modification time; a later tuple for the same path replaces an earlier one. */
  function FileDict(files: seq<FileTuple>): (d: map<string, (int, int)>)
    ensures forall p :: p in d <==> exists i :: 0 <= i < |files| && files[i].path == p
  {
    if files == [] then map[]
    else
      var f := files[|files| - 1];
      FileDict(files[..|files| - 1])[f.path := (f.size, f.modified)]
  }

  /** The dictionary holds the values of the last tuple with each path. */
  lemma {:induction false} FileDictLast(files: seq<FileTuple>, i: nat)
    requires i < |files|
    requires forall j :: i < j < |files| ==> files[j].path != files[i].path
    ensures FileDict(files)[files[i].path] == (files[i].size, files[i].modified)
  {
    if i < |files| - 1 {
      var files' := files[..|files| - 1];
      assert files'[i] == files[i];
      FileDictLast(files', i);
    }
  }

  /** The `add_file` call the storing loop makes for one result, if its path was scanned. */
  function StoreRowOf(e: (string, string), dict: map<string, (int, int)>): seq<FileRow>
  {
    if e.0 in dict then [FileRow(e.0, dict[e.0].0, dict[e.0].1, Some(e.1), None, None, Present)]
    else []
  }

  /** The `add_file` calls of the storing loop, in the order of the results. */
  function StoreRows(hashResults: seq<(string, string)>, dict: map<string, (int, int)>): seq<FileRow>
  {
    if hashResults == [] then []
    else StoreRows(hashResults[..|hashResults| - 1], dict) + StoreRowOf(hashResults[|hashResults| - 1], dict)
  }

  lemma StoreStep(t: seq<FileRow>, hashResults: seq<(string, string)>, i: nat, dict: map<string, (int, int)>)
    requires i < |hashResults|
    ensures UpsertAll(t, StoreRows(hashResults[..i + 1], dict)) ==
      UpsertAll(UpsertAll(t, StoreRows(hashResults[..i], dict)), StoreRowOf(hashResults[i], dict))
  {
    assert hashResults[..i + 1][..i] == hashResults[..i];
    UpsertAllAppend(t, StoreRows(hashResults[..i], dict), StoreRowOf(hashResults[i], dict));
  }

  /** When every result for `p` carries `x`, the storing loop writes `p` exactly when it is
      among the results and was scanned, with its dictionary values. */
  lemma {:induction false} StoreRowsLookup(hashResults: seq<(string, string)>, dict: map<string, (int, int)>,
                                           p: string, x: string)
    requires forall e :: e in hashResults && e.0 == p ==> e.1 == x
    ensures Lookup(StoreRows(hashResults, dict), p) ==
      if (p, x) in hashResults && p in dict then
        Some(FileRow(p, dict[p].0, dict[p].1, Some(x), None, None, Present))
      else None
  {
    if hashResults != [] {
      var hr', e := hashResults[..|hashResults| - 1], hashResults[|hashResults| - 1];
      assert hashResults == hr' + [e];
      assert (p, x) in hashResults <==> (p, x) in hr' || e == (p, x);
      StoreRowsLookup(hr', dict, p, x);
      var rs' := StoreRows(hr', dict);
      if e.0 in dict {
        LookupSnoc(rs', StoreRowOf(e, dict)[0], p);
      } else {
        assert StoreRows(hashResults, dict) == rs' + [];
        assert rs' + [] == rs';
      }
    }
  }

  /** What `scan_and_hash` leaves in the store: every scanned path whose fingerprint could
      be computed holds it, with the size and modification time of its last scanned tuple;
      every other path, including each scanned file whose fingerprint failed, keeps its old
      row. */
  lemma ScanAndHashStores(t: seq<FileRow>, files: seq<FileTuple>, results: seq<(string, string)>,
                          h: HashFunction, p: string)
    requires multiset(results) == multiset(HashResults(files, h))
    ensures Lookup(UpsertAll(t, StoreRows(results, FileDict(files))), p) ==
      if (exists i :: 0 <= i < |files| && files[i].path == p) && Truthy(h(p)) then
        Some(FileRow(p, FileDict(files)[p].0, FileDict(files)[p].1, h(p), None, None, Present))
      else Lookup(t, p)
  {
    var x := if h(p).Some? then h(p).value else "";
    forall e | e in results && e.0 == p
      ensures e.1 == x
    {
      assert e in multiset(results);
      assert e in multiset(HashResults(files, h));
      HashResultsMembers(files, h, e.0, e.1);
    }
    StoreRowsLookup(results, FileDict(files), p, x);
    HashResultsMembers(files, h, p, x);
    assert (p, x) in results <==> (p, x) in HashResults(files, h) by {
      assert (p, x) in results <==> (p, x) in multiset(results);
      assert (p, x) in HashResults(files, h) <==> (p, x) in multiset(HashResults(files, h));
    }
    UpsertAllLookup(t, StoreRows(results, FileDict(files)), p);
  }

  /** Rows drawn from a group with digests filled in keep the group's common fingerprint. */
  lemma DrawnFromGroup(g: seq<FileRow>, md5: HashFunction, c: seq<FileRow>, v: Option<string>)
    requires forall x :: x in g ==> x.xxhash == v
    requires multiset(c) <= multiset(D.EnsureAllMd5(g, md5))
    ensures forall a :: a in c ==> a.xxhash == v
  {
    forall a | a in c ensures a.xxhash == v {
      var e := D.EnsureAllMd5(g, md5);
      assert a in multiset(e);
      var k :| 0 <= k < |e| && e[k] == a;
      assert e[k] == D.EnsureMd5(g[k], md5);
      assert g[k] in g;
    }
  }

  /** A confirmed group of `find_duplicates` has more than one row; its rows share both the
      fingerprint and the digest, and each is the stored row of some path. */
  lemma ConfirmedGroupShape(t: seq<FileRow>, xxh: HashFunction, md5: HashFunction, c: seq<FileRow>)
    requires c in D.Confirmed(DuplicateGroups(D.EnsureAllXxhash(t, xxh), XxKey), md5)
    ensures |c| > 1
    ensures forall i, j :: 0 <= i < |c| && 0 <= j < |c| ==> c[i].md5 == c[j].md5
    ensures forall i, j :: 0 <= i < |c| && 0 <= j < |c| ==> c[i].xxhash == c[j].xxhash
    ensures forall x :: x in c ==> Lookup(t, x.path).Some?
  {
    D.ConfirmedShape(DuplicateGroups(D.EnsureAllXxhash(t, xxh), XxKey), md5, c);
    ConfirmedFromStoredGroup(t, xxh, md5, c);
  }

  /** Every confirmed group of `find_duplicates` over a store with one row per path is drawn
      from exactly one potential group: its paths lie in that group and in no other. */
  lemma FindDuplicatesFromOneGroup(t: seq<FileRow>, xxh: HashFunction, md5: HashFunction, c: seq<FileRow>)
    requires UniquePaths(t)
    requires c in D.Confirmed(DuplicateGroups(D.EnsureAllXxhash(t, xxh), XxKey), md5)
    ensures var gs := DuplicateGroups(D.EnsureAllXxhash(t, xxh), XxKey);
      exists j :: 0 <= j < |gs| && D.PathsOf(c) <= D.PathsOf(gs[j])
        && forall j' :: 0 <= j' < |gs| && j' != j ==> D.PathsOf(c) !! D.PathsOf(gs[j'])
  {
    D.PotentialGroupsDisjoint(t, xxh);
    D.ConfirmedFromExactlyOne(DuplicateGroups(D.EnsureAllXxhash(t, xxh), XxKey), md5, c);
  }

  /** A row whose digest is unique within its potential group is in no confirmed group of
      `find_duplicates` over a store with one row per path. */
  lemma FindDuplicatesUniqueDigestExcluded(t: seq<FileRow>, xxh: HashFunction, md5: HashFunction, j: nat, x: FileRow)
    requires UniquePaths(t)
    requires j < |DuplicateGroups(D.EnsureAllXxhash(t, xxh), XxKey)|
    requires x in D.EnsureAllMd5(DuplicateGroups(D.EnsureAllXxhash(t, xxh), XxKey)[j], md5)
    requires |Bucket(D.EnsureAllMd5(DuplicateGroups(D.EnsureAllXxhash(t, xxh), XxKey)[j], md5), Md5Key, x.md5)| == 1
    ensures forall c :: c in D.Confirmed(DuplicateGroups(D.EnsureAllXxhash(t, xxh), XxKey), md5) ==> x !in c
  {
    D.PotentialGroupsDisjoint(t, xxh);
    D.UniqueDigestExcluded(DuplicateGroups(D.EnsureAllXxhash(t, xxh), XxKey), md5, j, x);
  }

  lemma ConfirmedFromStoredGroup(t: seq<FileRow>, xxh: HashFunction, md5: HashFunction, c: seq<FileRow>)
    requires c in D.Confirmed(DuplicateGroups(D.EnsureAllXxhash(t, xxh), XxKey), md5)
    ensures forall i, j :: 0 <= i < |c| && 0 <= j < |c| ==> c[i].xxhash == c[j].xxhash
    ensures forall x :: x in c ==> Lookup(t, x.path).Some?
  {
    var gs := DuplicateGroups(D.EnsureAllXxhash(t, xxh), XxKey);
    var j := D.ConfirmedOrigin(gs, md5, c);
    var g := gs[j];
    D.SplitGroupShape(g, md5, c);
    D.PotentialGroupShape(t, xxh, g);
    DrawnFromPotentialGroup(t, xxh, md5, g, c);
  }

  /** Rows drawn from a group of filled-in stored rows with one fingerprint share that
      fingerprint and have stored paths. */
  lemma DrawnFromPotentialGroup(t: seq<FileRow>, xxh: HashFunction, md5: HashFunction, g: seq<FileRow>, c: seq<FileRow>)
    requires g != [] && forall i, j :: 0 <= i < |g| && 0 <= j < |g| ==> g[i].xxhash == g[j].xxhash
    requires forall x :: x in g ==> x in D.EnsureAllXxhash(t, xxh)
    requires multiset(c) <= multiset(D.EnsureAllMd5(g, md5)) && D.PathsOf(c) <= D.PathsOf(g)
    ensures forall i, j :: 0 <= i < |c| && 0 <= j < |c| ==> c[i].xxhash == c[j].xxhash
    ensures forall x :: x in c ==> Lookup(t, x.path).Some?
  {
    forall x | x in g ensures x.xxhash == g[0].xxhash {
      var k :| 0 <= k < |g| && g[k] == x;
    }
    DrawnFromGroup(g, md5, c, g[0].xxhash);
    forall i, i' | 0 <= i < |c| && 0 <= i' < |c| ensures c[i].xxhash == c[i'].xxhash {
      assert c[i] in c && c[i'] in c;
    }
    StoredPaths(t, xxh, g, c);
  }

  /** Rows whose paths are those of filled-in stored rows have stored paths. */
  lemma StoredPaths(t: seq<FileRow>, xxh: HashFunction, g: seq<FileRow>, c: seq<FileRow>)
    requires forall x :: x in g ==> x in D.EnsureAllXxhash(t, xxh)
    requires D.PathsOf(c) <= D.PathsOf(g)
    ensures forall x :: x in c ==> Lookup(t, x.path).Some?
  {
    forall a | a in c ensures Lookup(t, a.path).Some? {
      assert a.path in D.PathsOf(c);
      var y :| y in g && y.path == a.path;
      D.FilledRowSource(t, xxh, y);
    }
  }

  class DedupEngine {
    const workspace: Workspace
    const processor: ParallelProcessor
    const deduper: D.Deduper
    var directories: seq<string>

    ghost predicate Valid()
      reads this, workspace
    {
      workspace.Valid() && deduper.workspace == workspace
      && processor.maxWorkers == 8 && processor.largeFileThreshold == LargeFileThreshold
    }

    /** `DedupEngine(workspace_path)` once the workspace is open; `OpenEngine` opens it. */
    constructor(workspace: Workspace)
      requires workspace.Valid()
      ensures Valid() && this.workspace == workspace && directories == []
      ensures fresh(processor) && fresh(deduper)
    {
      this.workspace := workspace;
      processor := new ParallelProcessor(8);
      deduper := new D.Deduper(workspace);
      directories := [];
    }

    /** `add_directory`: appends an existing directory, duplicates included. */
    method AddDirectory(directory: string, pathExists: bool) returns (added: bool)
      modifies this
      ensures added == pathExists
      ensures directories == if pathExists then old(directories) + [directory] else old(directories)
    {
      if pathExists {
        directories := directories + [directory];
        added := true;
      } else {
        added := false;
      }
    }

    /** `remove_directory`: removes the first occurrence, reporting whether there was one. */
    method RemoveDirectory(directory: string) returns (removed: bool)
      modifies this
      ensures removed <==> directory in old(directories)
      ensures directories == RemoveFirst(old(directories), directory)
    {
      RemoveFirstSpec(directories, directory);
      if directory in directories {
        directories := RemoveFirst(directories, directory);
        removed := true;
      } else {
        removed := false;
      }
    }

    /** `scan_and_hash`: scans every directory, fingerprints the files in parallel and
        stores each fingerprint with the size and modification time of its scanned path.
        Returns the `(path, xxhash)` results, the `processed` values reported and the two
        completion orders. */
    method ScanAndHash(fs: FileSystem, xxh: HashFunction)
      returns (r: Result<seq<(string, string)>>, progress: seq<nat>,
               ghost largeOrder: seq<nat>, ghost smallOrder: seq<nat>)
      requires Valid()
      modifies workspace
      ensures Valid()
      ensures directories == [] ==> r == Err(NoDirectories)
      ensures directories != [] && ScanResult(fs, directories).Err? ==>
        r == Err(ScanResult(fs, directories).error)
      ensures r.Err? ==> workspace.files == old(workspace.files) && progress == []
      ensures directories != [] && ScanResult(fs, directories).Ok? ==>
        var files := ScanResult(fs, directories).value;
        && r.Ok?
        && IsPermutation(largeOrder, |LargeFiles(files, LargeFileThreshold)|)
        && IsPermutation(smallOrder, |SmallFiles(files, LargeFileThreshold)|)
        && InBounds(largeOrder, |LargeFiles(files, LargeFileThreshold)|)
        && InBounds(smallOrder, |SmallFiles(files, LargeFileThreshold)|)
        && r.value == Completed(LargeFiles(files, LargeFileThreshold), largeOrder, xxh)
                    + Completed(SmallFiles(files, LargeFileThreshold), smallOrder, xxh)
        && multiset(r.value) == multiset(HashResults(files, xxh))
        && progress == Ticks(0, |files|)
        && workspace.files == UpsertAll(old(workspace.files), StoreRows(r.value, FileDict(files)))
      ensures workspace.directories == old(workspace.directories)
      ensures workspace.legacy == old(workspace.legacy) && workspace.metadata == old(workspace.metadata)
    {
      largeOrder, smallOrder := [], [];
      if directories == [] {
        return Err(NoDirectories), [], largeOrder, smallOrder;
      }
      var scanned := ScanDirectories(fs, directories);
      if scanned.Err? {
        return Err(scanned.error), [], largeOrder, smallOrder;
      }
      var files := scanned.value;
      var hashResults;
      hashResults, progress, largeOrder, smallOrder := processor.ProcessFilesParallel(files, xxh);
      var fileDict := FileDict(files);
      ghost var t0 := workspace.files;
      var i := 0;
      while i < |hashResults|
        invariant 0 <= i <= |hashResults| && workspace.Valid()
        invariant workspace.files == UpsertAll(t0, StoreRows(hashResults[..i], fileDict))
        invariant workspace.directories == old(workspace.directories)
        invariant workspace.legacy == old(workspace.legacy) && workspace.metadata == old(workspace.metadata)
      {
        var (filepath, xxhash) := hashResults[i];
        StoreStep(t0, hashResults, i, fileDict);
        if filepath in fileDict {
          var (size, modified) := fileDict[filepath];
          workspace.AddFile(filepath, size, modified, Some(xxhash), None, None, Present);
          assert [FileRow(filepath, size, modified, Some(xxhash), None, None, Present)][..0] == [];
        }
        i := i + 1;
      }
      assert hashResults[..i] == hashResults;
      r := Ok(hashResults);
    }

    /** `find_duplicates`: the potential groups, each confirmed by digest. */
    method FindDuplicates(xxh: HashFunction, md5: HashFunction) returns (confirmed: seq<seq<FileRow>>)
      requires Valid()
      modifies workspace
      ensures Valid()
      ensures confirmed == D.Confirmed(DuplicateGroups(D.EnsureAllXxhash(old(workspace.files), xxh), XxKey), md5)
      ensures workspace.files ==
        UpsertAll(UpsertAll(old(workspace.files), D.XxhashWrites(old(workspace.files), xxh)),
                  D.Md5Writes(DuplicateGroups(D.EnsureAllXxhash(old(workspace.files), xxh), XxKey), md5))
      ensures workspace.directories == old(workspace.directories)
      ensures workspace.legacy == old(workspace.legacy) && workspace.metadata == old(workspace.metadata)
      ensures D.PathDisjoint(DuplicateGroups(D.EnsureAllXxhash(old(workspace.files), xxh), XxKey))
    {
      D.PotentialGroupsDisjoint(workspace.files, xxh);
      var potentialGroups := deduper.FindPotentialDuplicates(xxh);
      confirmed := deduper.ConfirmDuplicates(potentialGroups, md5);
    }

    /** `get_all_files`: the stored rows, one per path. */
    function GetAllFiles(): (rows: seq<FileRow>)
      reads this, workspace
      requires Valid()
      ensures UniquePaths(rows)
      ensures forall p :: Lookup(rows, p) == Lookup(workspace.files, p)
    {
      workspace.GetFiles()
    }
  }

  /** `DedupEngine(workspace_path)`: opening the workspace fails on a file that is not a
      database; otherwise the engine starts with no directories. */
  method OpenEngine(workspacePath: string, disk: OnDisk) returns (r: Result<DedupEngine>)
    requires WellFormed(disk)
    ensures r.Err? <==> disk.Foreign?
    ensures r.Err? ==> r.error == NotADatabase(workspacePath)
    ensures r.Ok? ==> fresh(r.value) && r.value.Valid() && r.value.directories == []
                      && r.value.workspace.dbPath == workspacePath
  {
    var conn := Connect(workspacePath, disk);
    if conn.Err? {
      return Err(conn.error);
    }
    var engine := new DedupEngine(conn.value);
    return Ok(engine);
  }
}
