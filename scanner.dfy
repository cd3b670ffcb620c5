/** File discovery: `scan_directories` and `scan_directories_parallel`. The filesystem is
    a tree value and `os.walk` a function that lists the folders of a tree top-down. */
module Scanner {
  import opened Common
  import opened Completion

  /** What `os.stat` reports: `st_size` and `st_mtime`. */
  datatype StatInfo = StatInfo(size: int, mtime: real)

  /** A non-directory name in a folder listing; `stat` is None when `os.stat` on its path
      raises (the file vanished, permissions, a dangling link). */
  datatype Entry = Entry(name: string, stat: Option<StatInfo>)

  /** A directory as `os.walk` sees it. */
  datatype Dir =
    | Folder(files: seq<Entry>, subdirs: seq<SubDir>)
      // Listing the directory fails; `os.walk` with its default `onerror=None` skips it.
    | Unreadable
      // An exception escapes the walk when it reaches this directory.
    | Broken

  datatype SubDir = SubDir(name: string, dir: Dir)

  /** The trees below the directory paths handed to the scanner; a path with no tree does
      not exist, and `os.walk` on it yields nothing. */
  type FileSystem = map<string, Dir>

  function Tree(fs: FileSystem, path: string): Dir
  {
    if path in fs then fs[path] else Unreadable
  }

  /** One step of `os.walk`: a `(root, dirs, filenames)` triple, or the exception. */
  datatype Step = Visit(root: string, filenames: seq<Entry>) | Raise

  /** `os.walk(root)` top-down: the folder itself, then each sub-directory in listing
      order, its path joined onto `root`. */
  function Walk(d: Dir, root: string): seq<Step>
    decreases d, 1
  {
    match d
    case Unreadable => []
    case Broken => [Raise]
    case Folder(files, subdirs) => [Visit(root, files)] + WalkSubdirs(d, root, |subdirs|)
  }

  /** The walks of the first `n` sub-directories of `d`. */
  function WalkSubdirs(d: Dir, root: string, n: nat): seq<Step>
    requires d.Folder? && n <= |d.subdirs|
    decreases d, 0, n
  {
    if n == 0 then []
    else
      var sub := d.subdirs[n - 1];
      WalkSubdirs(d, root, n - 1) + Walk(sub.dir, Join(root, sub.name))
  }

  function WalkOf(fs: FileSystem, directory: string): seq<Step>
  {
    Walk(Tree(fs, directory), directory)
  }

  /** The tuple one listed name contributes: none when its `os.stat` fails. */
  function EntryFile(root: string, e: Entry): seq<FileTuple>
  {
    if e.stat.Some? then [FileTuple(Join(root, e.name), e.stat.value.size, TruncToInt(e.stat.value.mtime))]
    else []
  }

  /** The tuples of one folder, in listing order. */
  function FolderFiles(root: string, es: seq<Entry>): seq<FileTuple>
  {
    if es == [] then [] else FolderFiles(root, es[..|es| - 1]) + EntryFile(root, es[|es| - 1])
  }

  /** The position of the first `Raise`, or the length when the walk does not raise. */
  function FirstRaise(steps: seq<Step>): (r: nat)
    ensures r <= |steps|
    ensures forall k :: 0 <= k < r ==> steps[k].Visit?
    ensures r < |steps| ==> steps[r].Raise?
  {
    if steps == [] then 0
    else if steps[0].Raise? then 0
    else 1 + FirstRaise(steps[1..])
  }

  /** The tuples of a run of visits. */
  function VisitedFiles(steps: seq<Step>): seq<FileTuple>
  {
    if steps == [] then []
    else
      var s := steps[|steps| - 1];
      VisitedFiles(steps[..|steps| - 1]) + (if s.Visit? then FolderFiles(s.root, s.filenames) else [])
  }

  /** The tuples a walk delivers before it raises (all of them when it does not). */
  function DirectoryFiles(fs: FileSystem, directory: string): seq<FileTuple>
  {
    var steps := WalkOf(fs, directory);
    VisitedFiles(steps[..FirstRaise(steps)])
  }

  predicate WalkRaises(fs: FileSystem, directory: string)
  {
    FirstRaise(WalkOf(fs, directory)) < |WalkOf(fs, directory)|
  }

  function PerDirectory(fs: FileSystem): string -> seq<FileTuple>
  {
    d => DirectoryFiles(fs, d)
  }

  /** `scan_directories`: the directories one after the other; an exception from a walk
      is not caught and ends the scan. */
  function ScanResult(fs: FileSystem, dirs: seq<string>): Result<seq<FileTuple>>
  {
    if dirs == [] then Ok([])
    else
      var last := dirs[|dirs| - 1];
      match ScanResult(fs, dirs[..|dirs| - 1])
      case Err(e) => Err(e)
      case Ok(files) => if WalkRaises(fs, last) then Err(WalkFailed(last)) else Ok(files + DirectoryFiles(fs, last))
  }

  // ---------------------------------------------------------------------------------
  // Facts about a folder listing

  /** Every tuple comes from a listed name whose stat succeeded, and every such name gives
      its tuple. */
  lemma {:induction false} FolderFilesMembers(root: string, es: seq<Entry>, t: FileTuple)
    ensures t in FolderFiles(root, es) <==>
      exists k :: 0 <= k < |es| && es[k].stat.Some? && t == EntryFile(root, es[k])[0]
  {
    if es != [] {
      var es', e := es[..|es| - 1], es[|es| - 1];
      FolderFilesMembers(root, es', t);
      assert t in FolderFiles(root, es) <==> t in FolderFiles(root, es') || t in EntryFile(root, e);
      if t in FolderFiles(root, es') {
        var k :| 0 <= k < |es'| && es'[k].stat.Some? && t == EntryFile(root, es'[k])[0];
        assert es[k] == es'[k];
      } else if t in EntryFile(root, e) {
        assert es[|es| - 1] == e;
      } else {
        forall k | 0 <= k < |es| && es[k].stat.Some?
          ensures t != EntryFile(root, es[k])[0]
        {
          if k < |es'| {
            assert es'[k] == es[k];
          }
        }
      }
    }
  }

  /** A stat failure drops just that name; the ones before and after it are still listed,
      in order. */
  lemma {:induction false} StatFailureSkipped(root: string, es: seq<Entry>, k: nat)
    requires k < |es| && es[k].stat.None?
    ensures FolderFiles(root, es) == FolderFiles(root, es[..k]) + FolderFiles(root, es[k + 1..])
  {
    var a, e, b := es[..k], es[k], es[k + 1..];
    assert es == (a + [e]) + b;
    FolderFilesAppend(root, a, [e]);
    FolderFilesAppend(root, a + [e], b);
    assert FolderFiles(root, [e]) == [] by {
      assert [e][..0] == [];
    }
    assert FolderFiles(root, a + [e]) == FolderFiles(root, a);
  }

  /** One more name of a folder listing. */
  lemma FolderFilesStep(root: string, es: seq<Entry>, j: nat)
    requires j < |es|
    ensures FolderFiles(root, es[..j + 1]) == FolderFiles(root, es[..j]) + EntryFile(root, es[j])
  {
    assert es[..j + 1][..j] == es[..j];
  }

  lemma {:induction false} FolderFilesAppend(root: string, a: seq<Entry>, b: seq<Entry>)
    ensures FolderFiles(root, a + b) == FolderFiles(root, a) + FolderFiles(root, b)
    decreases |b|
  {
    if b == [] {
      assert a + b == a;
    } else {
      assert (a + b)[..|a + b| - 1] == a + b[..|b| - 1];
      FolderFilesAppend(root, a, b[..|b| - 1]);
    }
  }

  /** A folder yields no more tuples than it lists names. */
  lemma {:induction false} FolderFilesCount(root: string, es: seq<Entry>)
    ensures |FolderFiles(root, es)| <= |es|
    ensures (forall k :: 0 <= k < |es| ==> es[k].stat.Some?) ==> |FolderFiles(root, es)| == |es|
  {
    if es != [] {
      FolderFilesCount(root, es[..|es| - 1]);
    }
  }

  /** The sequential scan succeeds exactly when no walk raises, and then returns the
      tuples of the walks, directory by directory. */
  lemma {:induction false} ScanResultOk(fs: FileSystem, dirs: seq<string>)
    ensures ScanResult(fs, dirs).Ok? <==> forall i :: 0 <= i < |dirs| ==> !WalkRaises(fs, dirs[i])
    ensures ScanResult(fs, dirs).Ok? ==> ScanResult(fs, dirs).value == Concat(dirs, PerDirectory(fs))
  {
    if dirs != [] {
      var dirs' := dirs[..|dirs| - 1];
      ScanResultOk(fs, dirs');
      assert forall i :: 0 <= i < |dirs'| ==> dirs'[i] == dirs[i];
    }
  }

  /** The first directory whose walk raises names the error. */
  lemma {:induction false} ScanResultErr(fs: FileSystem, dirs: seq<string>, i: nat)
    requires i < |dirs| && WalkRaises(fs, dirs[i])
    requires forall j :: 0 <= j < i ==> !WalkRaises(fs, dirs[j])
    ensures ScanResult(fs, dirs) == Err(WalkFailed(dirs[i]))
  {
    var dirs' := dirs[..|dirs| - 1];
    if i < |dirs| - 1 {
      ScanResultErr(fs, dirs', i);
    } else {
      ScanResultOk(fs, dirs');
      assert forall j :: 0 <= j < |dirs'| ==> dirs'[j] == dirs[j];
    }
  }

  // ---------------------------------------------------------------------------------
  // The loops

  /** The innermost loop: one `os.stat` per listed name. */
  method StatFolder(root: string, filenames: seq<Entry>) returns (found: seq<FileTuple>)
    ensures found == FolderFiles(root, filenames)
  {
    found := [];
    var i := 0;
    while i < |filenames|
      invariant 0 <= i <= |filenames|
      invariant found == FolderFiles(root, filenames[..i])
    {
      FolderFilesStep(root, filenames, i);
      var e := filenames[i];
      if e.stat.Some? {
        found := found + [FileTuple(Join(root, e.name), e.stat.value.size, TruncToInt(e.stat.value.mtime))];
      }
      i := i + 1;
    }
    assert filenames[..i] == filenames;
  }

  /** The walk of one directory: the tuples found, and whether the walk raised. */
  method WalkDirectory(fs: FileSystem, directory: string) returns (files: seq<FileTuple>, raised: bool)
    ensures files == DirectoryFiles(fs, directory)
    ensures raised <==> WalkRaises(fs, directory)
  {
    var steps := WalkOf(fs, directory);
    files := [];
    var i := 0;
    while i < |steps| && steps[i].Visit?
      invariant 0 <= i <= FirstRaise(steps)
      invariant files == VisitedFiles(steps[..i])
    {
      var found := StatFolder(steps[i].root, steps[i].filenames);
      VisitedStep(steps, i);
      files := files + found;
      i := i + 1;
    }
    FirstRaiseAt(steps, i);
    raised := i < |steps|;
  }

  /** The first raise is where a walk that stops at raises stops. */
  lemma FirstRaiseAt(steps: seq<Step>, i: nat)
    requires i <= FirstRaise(steps)
    requires i == |steps| || steps[i].Raise?
    ensures i == FirstRaise(steps)
  {
  }

  lemma VisitedStep(steps: seq<Step>, i: nat)
    requires i < |steps| && steps[i].Visit?
    ensures VisitedFiles(steps[..i + 1]) == VisitedFiles(steps[..i]) + FolderFiles(steps[i].root, steps[i].filenames)
  {
    assert steps[..i + 1][..i] == steps[..i];
  }

  /** `scan_directories`. */
  method ScanDirectories(fs: FileSystem, directories: seq<string>) returns (r: Result<seq<FileTuple>>)
    ensures r == ScanResult(fs, directories)
  {
    var files: seq<FileTuple> := [];
    var i := 0;
    while i < |directories|
      invariant 0 <= i <= |directories|
      invariant ScanResult(fs, directories[..i]) == Ok(files)
    {
      assert directories[..i + 1][..i] == directories[..i];
      var found, raised := WalkDirectory(fs, directories[i]);
      if raised {
        r := Err(WalkFailed(directories[i]));
        assert ScanResult(fs, directories[..i + 1]) == r;
        ScanFailurePersists(fs, directories, i + 1);
        return;
      }
      files := files + found;
      i := i + 1;
    }
    assert directories[..i] == directories;
    r := Ok(files);
  }

  /** Once a prefix of the directories fails, the whole scan fails the same way. */
  lemma {:induction false} ScanFailurePersists(fs: FileSystem, dirs: seq<string>, n: nat)
    requires n <= |dirs| && ScanResult(fs, dirs[..n]).Err?
    ensures ScanResult(fs, dirs) == ScanResult(fs, dirs[..n])
    decreases |dirs| - n
  {
    if n == |dirs| {
      assert dirs[..n] == dirs;
    } else {
      assert dirs[..n + 1][..n] == dirs[..n];
      ScanFailurePersists(fs, dirs, n + 1);
    }
  }

  /** `scan_single_directory` inside `scan_directories_parallel`: an exception from the
      walk is caught and the tuples found so far are returned. */
  method ScanSingleDirectory(fs: FileSystem, directory: string) returns (files: seq<FileTuple>)
    ensures files == DirectoryFiles(fs, directory)
  {
    var raised;
    files, raised := WalkDirectory(fs, directory);
  }

  /** The core id each directory is assigned, round robin over the workers. */
  function Assignments(directories: seq<string>, workers: nat): (a: seq<(string, nat)>)
    requires workers >= 1
    ensures |a| == |directories|
    ensures forall i :: 0 <= i < |a| ==> a[i].0 == directories[i] && a[i].1 < workers
    ensures forall i :: 0 <= i < |a| && i < workers ==> a[i].1 == i
  {
    seq(|directories|, i requires 0 <= i < |directories| => (directories[i], CoreOf(i, workers)))
  }

  /** `i % max_workers`: the core a directory index is assigned to. */
  function CoreOf(i: nat, workers: nat): (c: nat)
    requires workers >= 1
    ensures c < workers
    ensures i < workers ==> c == i
  {
    i % workers
  }

  /** The size of the pool of `scan_directories_parallel`. */
  function ScanWorkers(cpuCount: nat, n: nat): (w: nat)
    ensures w <= 8 && w <= cpuCount && w <= n
    ensures w == 8 || w == cpuCount || w == n
  {
    if 8 <= cpuCount && 8 <= n then 8 else if cpuCount <= n then cpuCount else n
  }

  /** `scan_directories_parallel`: one task per directory, results appended as tasks
      finish. Returns the tuples, the `completed_dirs` values reported, the core id of
      each directory and the order the tasks finished in. */
  method ScanDirectoriesParallel(fs: FileSystem, directories: seq<string>, cpuCount: nat)
    returns (allFiles: seq<FileTuple>, progress: seq<nat>, assignments: seq<(string, nat)>,
             ghost order: seq<nat>)
    requires cpuCount >= 1
    ensures directories == [] ==> allFiles == [] && assignments == []
    ensures IsPermutation(order, |directories|) && InBounds(order, |directories|)
    ensures allFiles == Gather(directories, order, PerDirectory(fs))
    ensures multiset(allFiles) == multiset(Concat(directories, PerDirectory(fs)))
    ensures progress == Ticks(0, |directories|)
    ensures |assignments| == |directories|
    ensures forall i :: 0 <= i < |assignments| ==>
      assignments[i].0 == directories[i] && assignments[i].1 < ScanWorkers(cpuCount, |directories|)
  {
    if directories == [] {
      allFiles, progress, assignments, order := [], [], [], [];
      RangeMultiset(0);
      return;
    }
    var maxWorkers := ScanWorkers(cpuCount, |directories|);
    assignments := Assignments(directories, maxWorkers);
    allFiles, progress, order := AsCompleted(directories, PerDirectory(fs), 0);
  }

  /** When no walk raises, the parallel scan finds the same tuples as the sequential one,
      each as often, possibly in another order. */
  lemma ParallelMatchesSequential(fs: FileSystem, directories: seq<string>, order: seq<nat>)
    requires IsPermutation(order, |directories|)
    requires forall i :: 0 <= i < |directories| ==> !WalkRaises(fs, directories[i])
    ensures InBounds(order, |directories|)
    ensures ScanResult(fs, directories).Ok?
    ensures multiset(Gather(directories, order, PerDirectory(fs)))
         == multiset(ScanResult(fs, directories).value)
  {
    ScanResultOk(fs, directories);
    GatherIsConcat(directories, order, PerDirectory(fs));
  }
}
