/** The workspace store: one SQLite file holding the table of discovered files, the list
    of directories to scan (in its own table, and as a JSON blob kept for older readers)
    and one row of summary metadata. The tables are modelled as values held in the fields
    of a `Workspace` object; SQL statements become updates of those fields. */
module WorkspaceStore {
  import opened Common
  import opened Grouping

  /** SQLite's `CURRENT_TIMESTAMP` text. The clock is a parameter of the operations that
      read it. */
  type Timestamp = string

  /** One row of the `files` table (the `id` and `created_at` columns are not modelled). */
  datatype FileRow = FileRow(
    path: string,
    size: int,
    modified: int,
    xxhash: Option<string>,
    md5: Option<string>,
    sha1: Option<string>,
    status: string)

  /** The default `status` of `add_file`. */
  const Present: string := "present"

  /** The `value` stored under the key `directories` in `workspace_config`: a JSON text
      that either decodes to a list of paths or does not decode at all. */
  datatype LegacyValue = DirList(dirs: seq<string>) | Malformed

  /** The row of `workspace_metadata` with id 1. */
  datatype Metadata = Metadata(
    workspaceName: string,
    createdAt: Timestamp,
    lastScan: Timestamp,
    totalFiles: nat,
    totalSize: int,
    duplicateGroups: nat)

  /** The dictionary `get_workspace_stats` returns; `id` is absent from the default one. */
  datatype Stats = Stats(
    id: Option<int>,
    workspaceName: string,
    createdAt: Option<Timestamp>,
    lastScan: Option<Timestamp>,
    totalFiles: int,
    totalSize: int,
    duplicateGroups: int)

  /** The contents of a workspace database. */
  datatype DbState = DbState(
    files: seq<FileRow>,
    directories: seq<string>,
    legacy: Option<LegacyValue>,
    metadata: Option<Metadata>)

  /** What lies at a workspace path before it is opened. */
  datatype OnDisk = Absent | Database(db: DbState) | Foreign

  /** The database `_init_db` leaves in a new file: four empty tables. */
  const EmptyDb: DbState := DbState([], [], None, None)

  // ---------------------------------------------------------------------------------
  // The files table

  /** The `UNIQUE` constraint on `files.path`. */
  predicate UniquePaths(t: seq<FileRow>)
  {
    forall i, j :: 0 <= i < j < |t| ==> t[i].path != t[j].path
  }

  /** The row stored for `p` (the last one, which under `UniquePaths` is the only one). */
  function Lookup(t: seq<FileRow>, p: string): (o: Option<FileRow>)
    ensures o.Some? ==> o.value in t && o.value.path == p
    ensures o.None? ==> forall i :: 0 <= i < |t| ==> t[i].path != p
  {
    if t == [] then None
    else if t[|t| - 1].path == p then Some(t[|t| - 1])
    else Lookup(t[..|t| - 1], p)
  }

  /** The table without its row for `p`, the other rows in their order. */
  function RemovePath(t: seq<FileRow>, p: string): (r: seq<FileRow>)
    ensures |r| <= |t|
    ensures forall i :: 0 <= i < |r| ==> r[i].path != p && r[i] in t
    ensures Subsequence(r, t)
  {
    if t == [] then []
    else if t[|t| - 1].path == p then
      var r := RemovePath(t[..|t| - 1], p);
      SubsequenceWeaken(r, t[..|t| - 1], t[|t| - 1]);
      assert t[..|t| - 1] + [t[|t| - 1]] == t;
      r
    else
      var r' := RemovePath(t[..|t| - 1], p);
      var r := r' + [t[|t| - 1]];
      assert r[..|r| - 1] == r';
      assert t[..|t| - 1] + [t[|t| - 1]] == t;
      r
  }

  /** `INSERT OR REPLACE`: a row with the same path is deleted and the new row is given the
      next rowid, so it comes last in `SELECT *` order. */
  function Upsert(t: seq<FileRow>, row: FileRow): (r: seq<FileRow>)
    ensures r != [] && r[|r| - 1] == row
    ensures Lookup(r, row.path) == Some(row)
    ensures forall p :: p != row.path ==> Lookup(r, p) == Lookup(t, p)
    ensures UniquePaths(t) ==> UniquePaths(r)
    ensures UniquePaths(t) ==> |r| == |t| + (if Lookup(t, row.path).None? then 1 else 0)
  {
    var r := RemovePath(t, row.path) + [row];
    assert r[..|r| - 1] == RemovePath(t, row.path);
    LookupRemovePath(t, row.path);
    if UniquePaths(t) then
      RemovePathUnique(t, row.path);
      RemovePathLength(t, row.path);
      r
    else
      r
  }

  /** One `add_file` per element of `rows`, in order. */
  function UpsertAll(t: seq<FileRow>, rows: seq<FileRow>): seq<FileRow>
  {
    if rows == [] then t else Upsert(UpsertAll(t, rows[..|rows| - 1]), rows[|rows| - 1])
  }

  /** `SUM(size)`, with the empty sum (SQL `NULL`) read as 0 as `total_size or 0` does. */
  function TotalSize(t: seq<FileRow>): int
  {
    if t == [] then 0 else TotalSize(t[..|t| - 1]) + t[|t| - 1].size
  }

  /** The rows `WHERE xxhash IS NOT NULL`. */
  function WithXxhash(t: seq<FileRow>): (r: seq<FileRow>)
    ensures forall i :: 0 <= i < |r| ==> r[i].xxhash.Some?
    ensures forall x | x in t && x.xxhash.Some? :: x in r
    ensures forall x | x in r :: x in t
  {
    if t == [] then []
    else
      var r := WithXxhash(t[..|t| - 1]);
      assert forall x | x in t :: x in t[..|t| - 1] || x == t[|t| - 1];
      if t[|t| - 1].xxhash.Some? then r + [t[|t| - 1]] else r
  }

  /** The fingerprint column, the key both grouping queries use. */
  function XxKey(r: FileRow): Option<string>
  {
    r.xxhash
  }

  /** The digest column the confirmation phase groups by. */
  function Md5Key(r: FileRow): Option<string>
  {
    r.md5
  }

  /** `SELECT COUNT(*) FROM (SELECT xxhash ... GROUP BY xxhash HAVING COUNT(*) > 1)`: the
      number of non-null fingerprints carried by more than one row. */
  function DuplicateGroupsCount(t: seq<FileRow>): nat
  {
    |RepeatedKeys(WithXxhash(t), XxKey)|
  }

  /** The metadata row `update_workspace_metadata` writes. `INSERT OR REPLACE` deletes the
      previous row, so `created_at` takes its default, the current time, again. */
  function MetadataFor(t: seq<FileRow>, dbPath: string, name: Option<string>, now: Timestamp): (m: Metadata)
    ensures m.totalFiles == |t|
    ensures m.totalSize == TotalSize(t)
    ensures m.duplicateGroups == |DuplicateGroups(WithXxhash(t), XxKey)|
    ensures m.createdAt == now && m.lastScan == now
    ensures Truthy(name) ==> m.workspaceName == name.value
    ensures !Truthy(name) ==> m.workspaceName == Basename(dbPath)
  {
    DuplicateGroupCount(WithXxhash(t), XxKey);
    Metadata(if Truthy(name) then name.value else Basename(dbPath), now, now,
             |t|, TotalSize(t), DuplicateGroupsCount(t))
  }

  /** `get_workspace_stats`: the metadata row as a dictionary, or the defaults when no
      metadata has been written yet. */
  function StatsOf(metadata: Option<Metadata>, dbPath: string): (s: Stats)
    ensures metadata.Some? ==> s.id == Some(1) && s.createdAt.Some? && s.lastScan.Some?
    ensures metadata.Some? ==>
      (s.workspaceName == metadata.value.workspaceName
       && s.totalFiles == metadata.value.totalFiles && s.totalSize == metadata.value.totalSize
       && s.duplicateGroups == metadata.value.duplicateGroups)
    ensures metadata.Some? ==>
      s.createdAt == Some(metadata.value.createdAt) && s.lastScan == Some(metadata.value.lastScan)
    ensures metadata.None? ==> s == Stats(None, Basename(dbPath), None, None, 0, 0, 0)
  {
    match metadata
    case Some(m) =>
      Stats(Some(1), m.workspaceName, Some(m.createdAt), Some(m.lastScan),
            m.totalFiles, m.totalSize, m.duplicateGroups)
    case None => Stats(None, Basename(dbPath), None, None, 0, 0, 0)
  }

  /** `load_directories`: the directory table when it has rows, otherwise the legacy JSON
      blob when there is one, otherwise the empty list. */
  function LoadedDirectories(rows: seq<string>, legacy: Option<LegacyValue>): (r: Result<seq<string>>)
    ensures r.Err? <==> rows == [] && legacy == Some(Malformed)
    ensures r.Err? ==> r.error == JsonDecodeError
    ensures r.Ok? && rows != [] ==> r.value == rows
    ensures rows == [] && legacy == None ==> r == Ok([])
    ensures rows == [] && legacy.Some? && legacy.value.DirList? ==> r == Ok(legacy.value.dirs)
  {
    if rows != [] then Ok(rows)
    else match legacy
      case Some(DirList(ds)) => Ok(ds)
      case Some(Malformed) => Err(JsonDecodeError)
      case None => Ok([])
  }

  // ---------------------------------------------------------------------------------
  // Facts about the files table

  lemma {:induction false} LookupRemovePath(t: seq<FileRow>, p: string)
    ensures Lookup(RemovePath(t, p), p) == None
    ensures forall q :: q != p ==> Lookup(RemovePath(t, p), q) == Lookup(t, q)
  {
    if t != [] {
      LookupRemovePath(t[..|t| - 1], p);
      var r' := RemovePath(t[..|t| - 1], p);
      if t[|t| - 1].path != p {
        var r := r' + [t[|t| - 1]];
        assert RemovePath(t, p) == r;
        assert r[..|r| - 1] == r';
      }
    }
  }

  lemma {:induction false} RemovePathUnique(t: seq<FileRow>, p: string)
    requires UniquePaths(t)
    ensures UniquePaths(RemovePath(t, p))
  {
    if t != [] {
      var t' := t[..|t| - 1];
      assert UniquePaths(t');
      RemovePathUnique(t', p);
      var r' := RemovePath(t', p);
      if t[|t| - 1].path != p {
        var r := r' + [t[|t| - 1]];
        assert RemovePath(t, p) == r;
        forall i | 0 <= i < |r'| ensures r'[i].path != t[|t| - 1].path {
          assert r'[i] in t';
          var k :| 0 <= k < |t'| && t'[k] == r'[i];
          assert t[k] == r'[i];
        }
      }
    }
  }

  lemma {:induction false} RemovePathLength(t: seq<FileRow>, p: string)
    requires UniquePaths(t)
    ensures |RemovePath(t, p)| == |t| - (if Lookup(t, p).Some? then 1 else 0)
  {
    if t != [] {
      var t' := t[..|t| - 1];
      assert UniquePaths(t');
      RemovePathLength(t', p);
      if t[|t| - 1].path == p {
        assert Lookup(t', p) == None by {
          forall i | 0 <= i < |t'| ensures t'[i].path != p {
            assert t[i] == t'[i];
          }
        }
      }
    }
  }

  /** After a series of `add_file` calls, each path holds what was written for it last, and
      a path nobody wrote keeps its old row. */
  lemma {:induction false} UpsertAllLookup(t: seq<FileRow>, rows: seq<FileRow>, p: string)
    ensures Lookup(UpsertAll(t, rows), p) == if Lookup(rows, p).Some? then Lookup(rows, p) else Lookup(t, p)
  {
    if rows != [] {
      UpsertAllLookup(t, rows[..|rows| - 1], p);
    }
  }

  /** Looking up a path in a table with one more row at the end. */
  lemma LookupSnoc(t: seq<FileRow>, row: FileRow, p: string)
    ensures Lookup(t + [row], p) == if row.path == p then Some(row) else Lookup(t, p)
  {
    assert (t + [row])[..|t|] == t;
  }

  lemma UpsertAllSnoc(t: seq<FileRow>, w: seq<FileRow>, x: FileRow)
    ensures UpsertAll(t, w + [x]) == Upsert(UpsertAll(t, w), x)
  {
    assert (w + [x])[..|w|] == w;
  }

  /** Writing `a` and then `b` is writing `a + b`. */
  lemma {:induction false} UpsertAllAppend(t: seq<FileRow>, a: seq<FileRow>, b: seq<FileRow>)
    ensures UpsertAll(t, a + b) == UpsertAll(UpsertAll(t, a), b)
  {
    if b == [] {
      assert a + b == a;
    } else {
      assert (a + b)[..|a + b| - 1] == a + b[..|b| - 1];
      UpsertAllAppend(t, a, b[..|b| - 1]);
    }
  }

  lemma {:induction false} UpsertAllUnique(t: seq<FileRow>, rows: seq<FileRow>)
    requires UniquePaths(t)
    ensures UniquePaths(UpsertAll(t, rows))
  {
    if rows != [] {
      UpsertAllUnique(t, rows[..|rows| - 1]);
    }
  }

  /** Saving a directory list and loading it back gives the same list, the empty list
      included (it is then read back from the legacy blob). */
  lemma SaveLoadRoundTrip(ds: seq<string>)
    ensures LoadedDirectories(ds, Some(DirList(ds))) == Ok(ds)
  {
  }

  /** A workspace written before the directory table existed still loads its directories
      from the blob. */
  lemma {:induction false} LegacyFallback(ds: seq<string>, legacy: Option<LegacyValue>)
    requires legacy == Some(DirList(ds))
    ensures LoadedDirectories([], legacy) == Ok(ds)
    ensures forall rows :: rows != [] ==> LoadedDirectories(rows, legacy) == Ok(rows)
  {
  }

  // ---------------------------------------------------------------------------------
  // The connection

  /** A database the schema accepts: the `UNIQUE` constraint holds. */
  predicate WellFormed(disk: OnDisk)
  {
    disk.Database? ==> UniquePaths(disk.db.files)
  }

  class Workspace {
    const dbPath: string
    var files: seq<FileRow>
    var directories: seq<string>
    var legacy: Option<LegacyValue>
    var metadata: Option<Metadata>

    ghost predicate Valid()
      reads this
    {
      UniquePaths(files)
    }

    /** Connects to a database (`sqlite3.connect` followed by `_init_db`). */
    constructor Open(path: string, db: DbState)
      requires UniquePaths(db.files)
      ensures Valid() && dbPath == path
      ensures files == db.files && directories == db.directories
      ensures legacy == db.legacy && metadata == db.metadata
    {
      dbPath := path;
      files := db.files;
      directories := db.directories;
      legacy := db.legacy;
      metadata := db.metadata;
    }

    /** `add_file` (INSERT OR REPLACE on the unique path). */
    method AddFile(path: string, size: int, modified: int, xxhash: Option<string>,
                   md5: Option<string>, sha1: Option<string>, status: string)
      requires Valid()
      modifies this
      ensures Valid()
      ensures files == Upsert(old(files), FileRow(path, size, modified, xxhash, md5, sha1, status))
      ensures Lookup(files, path) == Some(FileRow(path, size, modified, xxhash, md5, sha1, status))
      ensures directories == old(directories) && legacy == old(legacy) && metadata == old(metadata)
    {
      files := Upsert(files, FileRow(path, size, modified, xxhash, md5, sha1, status));
    }

    /** `get_files`: every row, in rowid order. */
    function GetFiles(): (rows: seq<FileRow>)
      reads this
      requires Valid()
      ensures UniquePaths(rows)
      ensures forall p :: Lookup(rows, p) == Lookup(files, p)
      ensures rows == files
    {
      files
    }

    /** `save_directories`: replaces the directory table with `ds`, one INSERT per entry,
        and rewrites the legacy blob. */
    method SaveDirectories(ds: seq<string>)
      requires Valid()
      modifies this
      ensures Valid()
      ensures directories == ds && legacy == Some(DirList(ds))
      ensures files == old(files) && metadata == old(metadata)
      ensures LoadDirectories() == Ok(ds)
    {
      directories := [];
      var i := 0;
      while i < |ds|
        invariant 0 <= i <= |ds|
        invariant directories == ds[..i]
        invariant files == old(files) && metadata == old(metadata)
      {
        directories := directories + [ds[i]];
        i := i + 1;
      }
      assert ds[..i] == ds;
      legacy := Some(DirList(ds));
      SaveLoadRoundTrip(ds);
    }

    /** `load_directories`. */
    function LoadDirectories(): (r: Result<seq<string>>)
      reads this
      ensures directories != [] ==> r == Ok(directories)
      ensures r.Err? ==> directories == [] && legacy == Some(Malformed)
      ensures r == LoadedDirectories(directories, legacy)
    {
      LoadedDirectories(directories, legacy)
    }

    /** `update_workspace_metadata`: recomputes the counts from the files table and writes
        the metadata row; `now` is the database clock. */
    method UpdateWorkspaceMetadata(name: Option<string>, now: Timestamp)
      requires Valid()
      modifies this
      ensures Valid()
      ensures metadata == Some(MetadataFor(files, dbPath, name, now))
      ensures files == old(files) && directories == old(directories) && legacy == old(legacy)
      ensures GetWorkspaceStats().totalFiles == |files|
      ensures GetWorkspaceStats().duplicateGroups == |DuplicateGroups(WithXxhash(files), XxKey)|
    {
      metadata := Some(MetadataFor(files, dbPath, name, now));
    }

    /** `get_workspace_stats`. */
    function GetWorkspaceStats(): (s: Stats)
      reads this
      ensures metadata.None? ==> s.workspaceName == Basename(dbPath) && s.totalFiles == 0
      ensures metadata.Some? ==> s.totalFiles == metadata.value.totalFiles
      ensures s == StatsOf(metadata, dbPath)
    {
      StatsOf(metadata, dbPath)
    }

    /** `clear_files`: empties the files table and leaves the rest. */
    method ClearFiles()
      requires Valid()
      modifies this
      ensures Valid()
      ensures files == [] && GetFiles() == []
      ensures directories == old(directories) && legacy == old(legacy) && metadata == old(metadata)
    {
      files := [];
    }
  }

  /** `Workspace(path)`: connecting creates a missing file as an empty database; a file that
      is not a database makes the first statement of `_init_db` fail. */
  method Connect(path: string, disk: OnDisk) returns (r: Result<Workspace>)
    requires WellFormed(disk)
    ensures r.Err? <==> disk.Foreign?
    ensures r.Err? ==> r.error == NotADatabase(path)
    ensures r.Ok? ==> fresh(r.value) && r.value.Valid() && r.value.dbPath == path
    ensures r.Ok? && disk.Absent? ==>
      (r.value.files == [] && r.value.directories == []
       && r.value.legacy == None && r.value.metadata == None)
    ensures r.Ok? && disk.Database? ==>
      (r.value.files == disk.db.files && r.value.directories == disk.db.directories
       && r.value.legacy == disk.db.legacy && r.value.metadata == disk.db.metadata)
  {
    if disk.Foreign? {
      r := Err(NotADatabase(path));
    } else {
      var db := if disk.Absent? then EmptyDb else disk.db;
      var w := new Workspace.Open(path, db);
      r := Ok(w);
    }
  }

  /** `create_workspace`: the same as connecting. */
  method CreateWorkspace(path: string, disk: OnDisk) returns (r: Result<Workspace>)
    requires WellFormed(disk)
    ensures r.Err? <==> disk.Foreign?
    ensures r.Err? ==> r.error == NotADatabase(path)
    ensures r.Ok? ==> fresh(r.value) && r.value.Valid() && r.value.dbPath == path
    ensures r.Ok? && disk.Absent? ==>
      (r.value.files == [] && r.value.directories == []
       && r.value.legacy == None && r.value.metadata == None)
    ensures r.Ok? && disk.Database? ==>
      (r.value.files == disk.db.files && r.value.directories == disk.db.directories
       && r.value.legacy == disk.db.legacy && r.value.metadata == disk.db.metadata)
  {
    r := Connect(path, disk);
  }

  /** `load_workspace`: refuses a path where nothing exists, instead of creating it. */
  method LoadWorkspace(path: string, disk: OnDisk) returns (r: Result<Workspace>)
    requires WellFormed(disk)
    ensures disk.Absent? ==> r == Err(FileNotFound(path))
    ensures disk.Foreign? ==> r == Err(NotADatabase(path))
    ensures disk.Database? ==>
      (r.Ok? && fresh(r.value) && r.value.Valid()
       && r.value.dbPath == path && r.value.files == disk.db.files
       && r.value.directories == disk.db.directories && r.value.legacy == disk.db.legacy
       && r.value.metadata == disk.db.metadata)
  {
    if disk.Absent? {
      r := Err(FileNotFound(path));
    } else {
      r := Connect(path, disk);
    }
  }
}
