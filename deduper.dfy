/** The duplicate resolver. Phase one groups every stored row by its fast fingerprint
    (`xxhash`), computing and storing the missing ones; phase two splits every group of more
    than one row by its strong digest (`md5`), again computed and stored on demand. Only
    groups of more than one row survive either phase. */
module Deduper {
  import opened Common
  import opened Grouping
  import opened WorkspaceStore

  /** The row after `if not file['xxhash']: file['xxhash'] = compute_xxhash(file['path'])`. */
  function EnsureXxhash(f: FileRow, xxh: HashFunction): FileRow
  {
    if Truthy(f.xxhash) then f else f.(xxhash := xxh(f.path))
  }

  /** The row after `if not file['md5']: file['md5'] = compute_md5(file['path'])`. */
  function EnsureMd5(f: FileRow, md5: HashFunction): FileRow
  {
    if Truthy(f.md5) then f else f.(md5 := md5(f.path))
  }

  /** Every row of `t` with its fingerprint filled in, in order. */
  function EnsureAllXxhash(t: seq<FileRow>, xxh: HashFunction): (r: seq<FileRow>)
    ensures |r| == |t|
    ensures forall i {:trigger r[i]} :: 0 <= i < |t| ==> r[i] == EnsureXxhash(t[i], xxh)
  {
    if t == [] then [] else EnsureAllXxhash(t[..|t| - 1], xxh) + [EnsureXxhash(t[|t| - 1], xxh)]
  }

  /** Every row of `g` with its digest filled in, in order. */
  function EnsureAllMd5(g: seq<FileRow>, md5: HashFunction): (r: seq<FileRow>)
    ensures |r| == |g|
    ensures forall i {:trigger r[i]} :: 0 <= i < |g| ==> r[i] == EnsureMd5(g[i], md5)
  {
    if g == [] then [] else EnsureAllMd5(g[..|g| - 1], md5) + [EnsureMd5(g[|g| - 1], md5)]
  }

  /** The `add_file` calls of phase one: one per row whose fingerprint was missing. */
  function XxhashWrites(t: seq<FileRow>, xxh: HashFunction): seq<FileRow>
  {
    if t == [] then []
    else
      var f := t[|t| - 1];
      XxhashWrites(t[..|t| - 1], xxh) + (if Truthy(f.xxhash) then [] else [EnsureXxhash(f, xxh)])
  }

  /** The `add_file` calls phase two makes for one group. */
  function GroupMd5Writes(g: seq<FileRow>, md5: HashFunction): seq<FileRow>
  {
    if g == [] then []
    else
      var f := g[|g| - 1];
      GroupMd5Writes(g[..|g| - 1], md5) + (if Truthy(f.md5) then [] else [EnsureMd5(f, md5)])
  }

  /** The `add_file` calls of phase two, group after group. */
  function Md5Writes(gs: seq<seq<FileRow>>, md5: HashFunction): seq<FileRow>
  {
    if gs == [] then [] else Md5Writes(gs[..|gs| - 1], md5) + GroupMd5Writes(gs[|gs| - 1], md5)
  }

  /** The confirmed groups: for each potential group in turn, its sub-groups of one digest
      with more than one member. */
  function Confirmed(gs: seq<seq<FileRow>>, md5: HashFunction): seq<seq<FileRow>>
  {
    if gs == [] then []
    else Confirmed(gs[..|gs| - 1], md5) + DuplicateGroups(EnsureAllMd5(gs[|gs| - 1], md5), Md5Key)
  }

  /** The paths of a group. */
  function PathsOf(g: seq<FileRow>): set<string>
  {
    set x | x in g :: x.path
  }

  /** No path belongs to two of the groups. */
  predicate PathDisjoint(gs: seq<seq<FileRow>>)
  {
    forall i, j :: 0 <= i < j < |gs| ==> PathsOf(gs[i]) !! PathsOf(gs[j])
  }

  // ---------------------------------------------------------------------------------
  // One row further

  lemma XxhashStep(t: seq<FileRow>, i: nat, xxh: HashFunction)
    requires i < |t|
    ensures EnsureAllXxhash(t[..i + 1], xxh) == EnsureAllXxhash(t[..i], xxh) + [EnsureXxhash(t[i], xxh)]
    ensures XxhashWrites(t[..i + 1], xxh)
         == XxhashWrites(t[..i], xxh) + (if Truthy(t[i].xxhash) then [] else [EnsureXxhash(t[i], xxh)])
  {
    assert t[..i + 1][..i] == t[..i];
  }

  lemma Md5Step(g: seq<FileRow>, i: nat, md5: HashFunction)
    requires i < |g|
    ensures EnsureAllMd5(g[..i + 1], md5) == EnsureAllMd5(g[..i], md5) + [EnsureMd5(g[i], md5)]
    ensures GroupMd5Writes(g[..i + 1], md5)
         == GroupMd5Writes(g[..i], md5) + (if Truthy(g[i].md5) then [] else [EnsureMd5(g[i], md5)])
  {
    assert g[..i + 1][..i] == g[..i];
  }

  lemma GroupStep(gs: seq<seq<FileRow>>, i: nat, md5: HashFunction)
    requires i < |gs|
    ensures Confirmed(gs[..i + 1], md5)
         == Confirmed(gs[..i], md5) + DuplicateGroups(EnsureAllMd5(gs[i], md5), Md5Key)
    ensures Md5Writes(gs[..i + 1], md5) == Md5Writes(gs[..i], md5) + GroupMd5Writes(gs[i], md5)
  {
    assert gs[..i + 1][..i] == gs[..i];
  }

  class Deduper {
    const workspace: Workspace

    constructor(workspace: Workspace)
      ensures this.workspace == workspace
    {
      this.workspace := workspace;
    }

    /** `find_potential_duplicates`: groups of more than one row sharing a fingerprint. */
    method FindPotentialDuplicates(xxh: HashFunction) returns (groups: seq<seq<FileRow>>)
      requires workspace.Valid()
      modifies workspace
      ensures workspace.Valid()
      ensures groups == DuplicateGroups(EnsureAllXxhash(old(workspace.files), xxh), XxKey)
      ensures workspace.files == UpsertAll(old(workspace.files), XxhashWrites(old(workspace.files), xxh))
      ensures workspace.directories == old(workspace.directories)
      ensures workspace.legacy == old(workspace.legacy) && workspace.metadata == old(workspace.metadata)
    {
      var files := workspace.GetFiles();
      var hashMap: map<Option<string>, seq<FileRow>> := map[];
      var order: seq<Option<string>> := [];
      var i := 0;
      while i < |files|
        invariant 0 <= i <= |files| && files == old(workspace.files)
        invariant workspace.Valid()
        invariant workspace.files == UpsertAll(files, XxhashWrites(files[..i], xxh))
        invariant GroupedBy(hashMap, order, EnsureAllXxhash(files[..i], xxh), XxKey)
        invariant workspace.directories == old(workspace.directories)
        invariant workspace.legacy == old(workspace.legacy) && workspace.metadata == old(workspace.metadata)
      {
        XxhashStep(files, i, xxh);
        var file := FillXxhash(files, i, xxh);
        GroupedByAppend(hashMap, order, EnsureAllXxhash(files[..i], xxh), XxKey, file);
        var appended := DictAppend(hashMap, order, file.xxhash, file);
        hashMap, order := appended.0, appended.1;
        i := i + 1;
      }
      assert files[..i] == files;
      groups := LargeValues(hashMap, order, EnsureAllXxhash(files, xxh), XxKey);
    }

    /** `confirm_duplicates`: each potential group split by digest, sub-groups of more than
        one row kept. */
    method ConfirmDuplicates(potentialGroups: seq<seq<FileRow>>, md5: HashFunction)
      returns (confirmed: seq<seq<FileRow>>)
      requires workspace.Valid()
      modifies workspace
      ensures workspace.Valid()
      ensures confirmed == Confirmed(potentialGroups, md5)
      ensures workspace.files == UpsertAll(old(workspace.files), Md5Writes(potentialGroups, md5))
      ensures workspace.directories == old(workspace.directories)
      ensures workspace.legacy == old(workspace.legacy) && workspace.metadata == old(workspace.metadata)
    {
      ghost var t0 := workspace.files;
      confirmed := [];
      var gi := 0;
      while gi < |potentialGroups|
        invariant 0 <= gi <= |potentialGroups|
        invariant workspace.Valid()
        invariant confirmed == Confirmed(potentialGroups[..gi], md5)
        invariant workspace.files == UpsertAll(t0, Md5Writes(potentialGroups[..gi], md5))
        invariant workspace.directories == old(workspace.directories)
        invariant workspace.legacy == old(workspace.legacy) && workspace.metadata == old(workspace.metadata)
      {
        GroupStep(potentialGroups, gi, md5);
        var md5Groups := SplitByMd5(potentialGroups[gi], md5);
        confirmed := confirmed + md5Groups;
        UpsertAllAppend(t0, Md5Writes(potentialGroups[..gi], md5), GroupMd5Writes(potentialGroups[gi], md5));
        gi := gi + 1;
      }
      assert potentialGroups[..gi] == potentialGroups;
    }

    /** The body of the loop over potential groups in `confirm_duplicates`: fill `md5_map`
        from one group, storing the digests it computes, and return its buckets of more than
        one row. */
    method SplitByMd5(group: seq<FileRow>, md5: HashFunction) returns (md5Groups: seq<seq<FileRow>>)
      requires workspace.Valid()
      modifies workspace
      ensures workspace.Valid()
      ensures md5Groups == DuplicateGroups(EnsureAllMd5(group, md5), Md5Key)
      ensures workspace.files == UpsertAll(old(workspace.files), GroupMd5Writes(group, md5))
      ensures workspace.directories == old(workspace.directories)
      ensures workspace.legacy == old(workspace.legacy) && workspace.metadata == old(workspace.metadata)
    {
      ghost var before := workspace.files;
      var md5Map: map<Option<string>, seq<FileRow>> := map[];
      var order: seq<Option<string>> := [];
      var i := 0;
      while i < |group|
        invariant 0 <= i <= |group|
        invariant workspace.Valid()
        invariant workspace.files == UpsertAll(before, GroupMd5Writes(group[..i], md5))
        invariant GroupedBy(md5Map, order, EnsureAllMd5(group[..i], md5), Md5Key)
        invariant workspace.directories == old(workspace.directories)
        invariant workspace.legacy == old(workspace.legacy) && workspace.metadata == old(workspace.metadata)
      {
        Md5Step(group, i, md5);
        var file := FillMd5(before, group, i, md5);
        GroupedByAppend(md5Map, order, EnsureAllMd5(group[..i], md5), Md5Key, file);
        var appended := DictAppend(md5Map, order, file.md5, file);
        md5Map, order := appended.0, appended.1;
        i := i + 1;
      }
      assert group[..i] == group;
      md5Groups := LargeValues(md5Map, order, EnsureAllMd5(group, md5), Md5Key);
    }

    /** The first statement of the loop body of `find_potential_duplicates`: the row
        `files[i]` with its fingerprint, computed and stored when it was missing. */
    method FillXxhash(files: seq<FileRow>, i: nat, xxh: HashFunction) returns (file: FileRow)
      requires i < |files|
      requires workspace.Valid() && workspace.files == UpsertAll(files, XxhashWrites(files[..i], xxh))
      modifies workspace
      ensures file == EnsureXxhash(files[i], xxh) && XxKey(file) == file.xxhash
      ensures workspace.Valid() && workspace.files == UpsertAll(files, XxhashWrites(files[..i + 1], xxh))
      ensures workspace.directories == old(workspace.directories)
      ensures workspace.legacy == old(workspace.legacy) && workspace.metadata == old(workspace.metadata)
    {
      XxhashStep(files, i, xxh);
      file := files[i];
      if !Truthy(file.xxhash) {
        file := file.(xxhash := xxh(file.path));
        workspace.AddFile(file.path, file.size, file.modified, file.xxhash, file.md5, file.sha1, file.status);
        UpsertAllSnoc(files, XxhashWrites(files[..i], xxh), file);
      } else {
        assert XxhashWrites(files[..i + 1], xxh) == XxhashWrites(files[..i], xxh);
      }
    }

    /** The first statement of the loop body of `confirm_duplicates`: the row `group[i]`
        with its digest, computed and stored when it was missing. */
    method FillMd5(ghost before: seq<FileRow>, group: seq<FileRow>, i: nat, md5: HashFunction)
      returns (file: FileRow)
      requires i < |group|
      requires workspace.Valid() && workspace.files == UpsertAll(before, GroupMd5Writes(group[..i], md5))
      modifies workspace
      ensures file == EnsureMd5(group[i], md5) && Md5Key(file) == file.md5
      ensures workspace.Valid() && workspace.files == UpsertAll(before, GroupMd5Writes(group[..i + 1], md5))
      ensures workspace.directories == old(workspace.directories)
      ensures workspace.legacy == old(workspace.legacy) && workspace.metadata == old(workspace.metadata)
    {
      Md5Step(group, i, md5);
      file := group[i];
      if !Truthy(file.md5) {
        file := file.(md5 := md5(file.path));
        workspace.AddFile(file.path, file.size, file.modified, file.xxhash, file.md5, file.sha1, file.status);
        UpsertAllSnoc(before, GroupMd5Writes(group[..i], md5), file);
      } else {
        assert GroupMd5Writes(group[..i + 1], md5) == GroupMd5Writes(group[..i], md5);
      }
    }
  }

  // ---------------------------------------------------------------------------------
  // Phase one: potential groups

  /** A potential group has more than one member, all with one fingerprint, and each
      member is a stored row with its fingerprint filled in. */
  lemma PotentialGroupShape(t: seq<FileRow>, xxh: HashFunction, g: seq<FileRow>)
    requires g in DuplicateGroups(EnsureAllXxhash(t, xxh), XxKey)
    ensures |g| > 1
    ensures forall i, j :: 0 <= i < |g| && 0 <= j < |g| ==> g[i].xxhash == g[j].xxhash
    ensures forall x :: x in g ==> x in EnsureAllXxhash(t, xxh)
  {
    GroupSharesXxhash(EnsureAllXxhash(t, xxh), g);
  }

  lemma GroupSharesXxhash(s: seq<FileRow>, g: seq<FileRow>)
    requires g in DuplicateGroups(s, XxKey)
    ensures |g| > 1 && forall x :: x in g ==> x in s
    ensures forall i, j :: 0 <= i < |g| && 0 <= j < |g| ==> g[i].xxhash == g[j].xxhash
  {
    GroupMembersShareKey(s, XxKey, g);
  }

  lemma GroupSharesMd5(s: seq<FileRow>, g: seq<FileRow>)
    requires g in DuplicateGroups(s, Md5Key)
    ensures |g| > 1 && forall x :: x in g ==> x in s
    ensures forall i, j :: 0 <= i < |g| && 0 <= j < |g| ==> g[i].md5 == g[j].md5
  {
    GroupMembersShareKey(s, Md5Key, g);
  }

  /** A row of the filled-in table is a stored row with its fingerprint filled in. */
  lemma FilledRowSource(t: seq<FileRow>, xxh: HashFunction, x: FileRow)
    requires x in EnsureAllXxhash(t, xxh)
    ensures exists i :: 0 <= i < |t| && x == EnsureXxhash(t[i], xxh)
  {
    var s := EnsureAllXxhash(t, xxh);
    var i :| 0 <= i < |s| && s[i] == x;
    assert x == EnsureXxhash(t[i], xxh);
  }

  /** Each stored row, fingerprint filled in, lies in exactly one bucket; the potential
      groups take no row twice, and two of them with a common row are the same group. */
  lemma PotentialGroupsPartition(t: seq<FileRow>, xxh: HashFunction)
    ensures multiset(Flatten(Buckets(EnsureAllXxhash(t, xxh), XxKey))) == multiset(EnsureAllXxhash(t, xxh))
    ensures multiset(Flatten(DuplicateGroups(EnsureAllXxhash(t, xxh), XxKey))) <= multiset(EnsureAllXxhash(t, xxh))
    ensures forall g1, g2, x ::
      (g1 in DuplicateGroups(EnsureAllXxhash(t, xxh), XxKey)
       && g2 in DuplicateGroups(EnsureAllXxhash(t, xxh), XxKey) && x in g1 && x in g2) ==> g1 == g2
  {
    var s := EnsureAllXxhash(t, xxh);
    BucketsPartition(s, XxKey);
    DuplicateGroupsWithin(s, XxKey);
    forall g1, g2, x | g1 in DuplicateGroups(s, XxKey) && g2 in DuplicateGroups(s, XxKey) && x in g1 && x in g2
      ensures g1 == g2
    {
      GroupsSharingMemberEqual(s, XxKey, g1, g2, x);
    }
  }

  /** Two stored rows that end up with the same fingerprint are in one potential group. That
      includes a fingerprint that stays absent: rows whose file cannot be read still group
      together under `None`. */
  lemma SameFingerprintGrouped(t: seq<FileRow>, xxh: HashFunction, i: nat, j: nat)
    requires UniquePaths(t) && i < |t| && j < |t| && i != j
    requires EnsureXxhash(t[i], xxh).xxhash == EnsureXxhash(t[j], xxh).xxhash
    ensures exists g ::
      (g in DuplicateGroups(EnsureAllXxhash(t, xxh), XxKey)
       && EnsureXxhash(t[i], xxh) in g && EnsureXxhash(t[j], xxh) in g)
  {
    var s := EnsureAllXxhash(t, xxh);
    assert s[i] in s && s[j] in s;
    assert s[i].path != s[j].path;
    SameKeyGroupedTogether(s, XxKey, s[i], s[j]);
  }

  /** A row whose fingerprint no other row shares is in no potential group. */
  lemma UniqueFingerprintExcluded(t: seq<FileRow>, xxh: HashFunction, x: FileRow)
    requires |Bucket(EnsureAllXxhash(t, xxh), XxKey, x.xxhash)| == 1
    ensures forall g :: g in DuplicateGroups(EnsureAllXxhash(t, xxh), XxKey) ==> x !in g
  {
    LoneKeyExcluded(EnsureAllXxhash(t, xxh), XxKey, x);
  }

  /** Phase one writes exactly the rows whose fingerprint was missing, with the new
      fingerprint and every other column copied; rows that had one are not written. */
  lemma {:induction false} XxhashWritesLookup(t: seq<FileRow>, xxh: HashFunction, p: string)
    requires UniquePaths(t)
    ensures Lookup(t, p).None? ==> Lookup(XxhashWrites(t, xxh), p).None?
    ensures Lookup(t, p).Some? && Truthy(Lookup(t, p).value.xxhash) ==> Lookup(XxhashWrites(t, xxh), p).None?
    ensures Lookup(t, p).Some? && !Truthy(Lookup(t, p).value.xxhash) ==>
      Lookup(XxhashWrites(t, xxh), p) == Some(Lookup(t, p).value.(xxhash := xxh(p)))
  {
    if t != [] {
      var t', f := t[..|t| - 1], t[|t| - 1];
      assert UniquePaths(t');
      XxhashWritesLookup(t', xxh, p);
      var w' := XxhashWrites(t', xxh);
      if !Truthy(f.xxhash) {
        assert XxhashWrites(t, xxh) == w' + [EnsureXxhash(f, xxh)];
      } else {
        assert XxhashWrites(t, xxh) == w';
      }
      if f.path == p {
        assert Lookup(t', p).None? by {
          forall i | 0 <= i < |t'| ensures t'[i].path != p {
            assert t[i] == t'[i];
          }
        }
      }
    }
  }

  /** After phase one every stored row holds its filled-in fingerprint, and nothing else
      about the table changes. */
  lemma FingerprintsStored(t: seq<FileRow>, xxh: HashFunction, p: string)
    requires UniquePaths(t)
    ensures Lookup(UpsertAll(t, XxhashWrites(t, xxh)), p)
         == if Lookup(t, p).Some? then Some(EnsureXxhash(Lookup(t, p).value, xxh)) else None
  {
    XxhashWritesLookup(t, xxh, p);
    UpsertAllLookup(t, XxhashWrites(t, xxh), p);
  }

  // ---------------------------------------------------------------------------------
  // Phase two: confirmed groups

  /** The rows of the confirmed groups are the rows of the potential groups with their
      digest filled in. */
  lemma EnsureMd5Paths(g: seq<FileRow>, md5: HashFunction)
    ensures PathsOf(EnsureAllMd5(g, md5)) == PathsOf(g)
  {
    var e := EnsureAllMd5(g, md5);
    forall p | p in PathsOf(e) ensures p in PathsOf(g) {
      var x :| x in e && x.path == p;
      var i :| 0 <= i < |e| && e[i] == x;
      assert g[i] in g;
    }
    forall p | p in PathsOf(g) ensures p in PathsOf(e) {
      var x :| x in g && x.path == p;
      var i :| 0 <= i < |g| && g[i] == x;
      assert e[i] in e;
    }
  }

  /** A sub-group of one digest with more than one member, within one potential group: all
      its members share the digest, and it is a sub-multiset of the group's rows (digests
      filled in), so it is no larger and holds only the group's paths. */
  lemma SplitGroupShape(g: seq<FileRow>, md5: HashFunction, c: seq<FileRow>)
    requires c in DuplicateGroups(EnsureAllMd5(g, md5), Md5Key)
    ensures |c| > 1
    ensures forall i, j :: 0 <= i < |c| && 0 <= j < |c| ==> c[i].md5 == c[j].md5
    ensures multiset(c) <= multiset(EnsureAllMd5(g, md5)) && |c| <= |g|
    ensures PathsOf(c) <= PathsOf(g)
  {
    var e := EnsureAllMd5(g, md5);
    GroupSharesMd5(e, c);
    Md5GroupWithin(e, c);
    EnsureMd5Paths(g, md5);
  }

  /** A digest group holds rows of the table it was drawn from, no more often than there. */
  lemma Md5GroupWithin(e: seq<FileRow>, c: seq<FileRow>)
    requires c in DuplicateGroups(e, Md5Key)
    ensures multiset(c) <= multiset(e) && |c| <= |e|
    ensures PathsOf(c) <= PathsOf(e)
  {
    assert multiset(c) <= multiset(e) by {
      DuplicateGroupsWithin(e, Md5Key);
      MemberFlatten(DuplicateGroups(e, Md5Key), c);
    }
    SubMultisetSize(multiset(c), multiset(e));
    forall x | x in c ensures x in e {
      assert x in multiset(c);
    }
    PathsMonotone(c, e);
  }

  lemma PathsMonotone(a: seq<FileRow>, b: seq<FileRow>)
    requires forall x :: x in a ==> x in b
    ensures PathsOf(a) <= PathsOf(b)
  {
    forall p | p in PathsOf(a) ensures p in PathsOf(b) {
      var x :| x in a && x.path == p;
      assert x in b;
    }
  }

  /** The potential group a confirmed group comes from. */
  lemma {:induction false} ConfirmedOrigin(gs: seq<seq<FileRow>>, md5: HashFunction, c: seq<FileRow>)
    returns (j: nat)
    requires c in Confirmed(gs, md5)
    ensures j < |gs| && c in DuplicateGroups(EnsureAllMd5(gs[j], md5), Md5Key)
  {
    assert gs != [];
    var gs', g := gs[..|gs| - 1], gs[|gs| - 1];
    var here := DuplicateGroups(EnsureAllMd5(g, md5), Md5Key);
    assert Confirmed(gs, md5) == Confirmed(gs', md5) + here;
    if c in here {
      j := |gs| - 1;
    } else {
      assert c in Confirmed(gs', md5);
      j := ConfirmedOrigin(gs', md5, c);
      assert gs[j] == gs'[j];
    }
  }

  /** A confirmed group has more than one member, all with one digest, and is drawn from
      one potential group: a sub-multiset of its rows (digests filled in), so no larger. */
  lemma ConfirmedShape(gs: seq<seq<FileRow>>, md5: HashFunction, c: seq<FileRow>)
    requires c in Confirmed(gs, md5)
    ensures |c| > 1
    ensures forall i, j :: 0 <= i < |c| && 0 <= j < |c| ==> c[i].md5 == c[j].md5
    ensures exists j ::
      (0 <= j < |gs| && multiset(c) <= multiset(EnsureAllMd5(gs[j], md5)) && |c| <= |gs[j]|
       && PathsOf(c) <= PathsOf(gs[j]))
  {
    var j := ConfirmedOrigin(gs, md5, c);
    SplitGroupShape(gs[j], md5, c);
  }

  /** Filling in fingerprints keeps the paths, so it keeps them unique. */
  lemma EnsureAllXxhashUnique(t: seq<FileRow>, xxh: HashFunction)
    requires UniquePaths(t)
    ensures UniquePaths(EnsureAllXxhash(t, xxh))
  {
    var s := EnsureAllXxhash(t, xxh);
    forall i, j | 0 <= i < j < |s| ensures s[i].path != s[j].path {
      assert s[i].path == t[i].path && s[j].path == t[j].path;
    }
  }

  /** Under the `UNIQUE` path constraint no path belongs to two potential groups. */
  lemma PotentialGroupsDisjoint(t: seq<FileRow>, xxh: HashFunction)
    requires UniquePaths(t)
    ensures PathDisjoint(DuplicateGroups(EnsureAllXxhash(t, xxh), XxKey))
  {
    var s := EnsureAllXxhash(t, xxh);
    var gs := DuplicateGroups(s, XxKey);
    EnsureAllXxhashUnique(t, xxh);
    forall i, j | 0 <= i < j < |gs| ensures PathsOf(gs[i]) !! PathsOf(gs[j]) {
      forall p | p in PathsOf(gs[i]) ensures p !in PathsOf(gs[j]) {
        var x: FileRow :| x in gs[i] && x.path == p;
        if y: FileRow :| y in gs[j] && y.path == p {
          GroupMembersShareKey(s, XxKey, gs[i]);
          GroupMembersShareKey(s, XxKey, gs[j]);
          SamePathSameRow(s, x, y);
          DuplicateGroupsDisjoint(s, XxKey, i, j, x);
          assert false;
        }
      }
    }
  }

  /** Under unique paths a row is determined by its path. */
  lemma SamePathSameRow(s: seq<FileRow>, x: FileRow, y: FileRow)
    requires UniquePaths(s) && x in s && y in s && x.path == y.path
    ensures x == y
  {
    var a :| 0 <= a < |s| && s[a] == x;
    var b :| 0 <= b < |s| && s[b] == y;
  }

  /** When the potential groups share no path, every confirmed group is drawn from exactly
      one of them. */
  lemma ConfirmedFromExactlyOne(gs: seq<seq<FileRow>>, md5: HashFunction, c: seq<FileRow>)
    requires PathDisjoint(gs) && c in Confirmed(gs, md5)
    ensures exists j ::
      (0 <= j < |gs| && PathsOf(c) <= PathsOf(gs[j])
       && forall j' :: 0 <= j' < |gs| && j' != j ==> PathsOf(c) !! PathsOf(gs[j']))
  {
    var j := ConfirmedOrigin(gs, md5, c);
    SplitGroupShape(gs[j], md5, c);
    forall j' | 0 <= j' < |gs| && j' != j ensures PathsOf(c) !! PathsOf(gs[j']) {
      assert PathsOf(gs[j]) !! PathsOf(gs[j']) by {
        if j < j' { } else { }
      }
    }
  }

  /** A row whose digest is unique within its potential group is in no confirmed group. */
  lemma UniqueDigestExcluded(gs: seq<seq<FileRow>>, md5: HashFunction, j: nat, x: FileRow)
    requires PathDisjoint(gs) && j < |gs|
    requires x in EnsureAllMd5(gs[j], md5)
    requires |Bucket(EnsureAllMd5(gs[j], md5), Md5Key, x.md5)| == 1
    ensures forall c :: c in Confirmed(gs, md5) ==> x !in c
  {
    forall c | c in Confirmed(gs, md5) ensures x !in c {
      var j' := ConfirmedOrigin(gs, md5, c);
      SplitGroupShape(gs[j'], md5, c);
      if j' == j {
        LoneKeyExcluded(EnsureAllMd5(gs[j], md5), Md5Key, x);
      } else {
        EnsureMd5Paths(gs[j], md5);
        assert x.path in PathsOf(gs[j]);
        assert PathsOf(gs[j]) !! PathsOf(gs[j']) by {
          if j < j' { } else { }
        }
        assert x.path !in PathsOf(c);
      }
    }
  }

  /** Every row phase two writes is a member of a potential group whose digest was
      missing, with the new digest and every other column copied. */
  lemma {:induction false} Md5WritesCopyFields(gs: seq<seq<FileRow>>, md5: HashFunction, w: FileRow)
    requires w in Md5Writes(gs, md5)
    ensures exists j, i ::
      (0 <= j < |gs| && 0 <= i < |gs[j]| && !Truthy(gs[j][i].md5)
       && w == gs[j][i].(md5 := md5(gs[j][i].path)))
  {
    var gs', g := gs[..|gs| - 1], gs[|gs| - 1];
    if w in GroupMd5Writes(g, md5) {
      var i := GroupWriteSource(g, md5, w);
      assert gs[|gs| - 1] == g;
    } else {
      Md5WritesCopyFields(gs', md5, w);
      var j, i :| 0 <= j < |gs'| && 0 <= i < |gs'[j]| && !Truthy(gs'[j][i].md5)
        && w == gs'[j][i].(md5 := md5(gs'[j][i].path));
      assert gs[j] == gs'[j];
    }
  }

  lemma {:induction false} GroupWriteSource(g: seq<FileRow>, md5: HashFunction, w: FileRow) returns (i: nat)
    requires w in GroupMd5Writes(g, md5)
    ensures i < |g| && !Truthy(g[i].md5) && w == g[i].(md5 := md5(g[i].path))
  {
    var g', f := g[..|g| - 1], g[|g| - 1];
    if !Truthy(f.md5) && w == EnsureMd5(f, md5) {
      i := |g| - 1;
    } else {
      assert w in GroupMd5Writes(g', md5);
      i := GroupWriteSource(g', md5, w);
      assert g[i] == g'[i];
    }
  }
}
