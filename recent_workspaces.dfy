/** `RecentWorkspaces`: the most-recently-used list of workspaces kept in the settings
    store under the key "recent_workspaces". The stored JSON text is modelled already
    decoded: a list of items, each either a dictionary of text values or something else,
    or text that does not parse. `os.path.exists`, `os.path.abspath` and the current time
    are parameters. */
module RecentWorkspaceList {
  import opened Common

  /** `self.max_recent`. */
  const MaxRecent: nat := 10

  /** One element of the stored JSON list. */
  datatype Item = Entry(fields: map<string, string>) | NonDict

  /** The settings value: a decoded list, or text `json.loads` refuses. A missing value reads
      as the default "[]", the empty list. */
  datatype Stored = Items(items: seq<Item>) | Unparsable

  type PathExists = string -> bool

  /** `recent_list` after the `try`: the decoded list, or `[]` when decoding fails. */
  function ItemsOf(s: Stored): seq<Item>
  {
    if s.Items? then s.items else []
  }

  /** `workspace["path"]`, for an item that is a dictionary holding that key. */
  function PathOf(w: Item): Option<string>
  {
    if w.Entry? && "path" in w.fields then Some(w.fields["path"]) else None
  }

  /** The filter of `get_recent_workspaces`: a dictionary with a "path" that exists. */
  predicate Keep(w: Item, pathExists: PathExists)
  {
    PathOf(w).Some? && pathExists(PathOf(w).value)
  }

  /** `valid_workspaces`: the kept items, in order. */
  function Kept(items: seq<Item>, pathExists: PathExists): seq<Item>
  {
    if items == [] then []
    else
      var w := items[|items| - 1];
      Kept(items[..|items| - 1], pathExists) + (if Keep(w, pathExists) then [w] else [])
  }

  /** `[w for w in recent_list if w["path"] != path]`. Every list it is applied to holds
      only items with a "path" (it comes from `get_recent_workspaces`), so the lookup never
      fails there. */
  function WithoutPath(items: seq<Item>, path: string): seq<Item>
  {
    if items == [] then []
    else
      var w := items[|items| - 1];
      WithoutPath(items[..|items| - 1], path) + (if PathOf(w) != Some(path) then [w] else [])
  }

  /** `workspace_name or os.path.basename(workspace_path)`. */
  function NameFor(workspaceName: Option<string>, workspacePath: string): string
  {
    if Truthy(workspaceName) then workspaceName.value else Basename(workspacePath)
  }

  /** The entry `add_workspace` creates. */
  function NewEntry(absPath: string, name: string, now: string): (e: Item)
    ensures PathOf(e) == Some(absPath)
  {
    Entry(map["path" := absPath, "name" := name, "last_opened" := now])
  }

  /** The list `add_workspace` stores: the entry in front of the others with a different
      path, cut to `maxRecent` items. */
  function AddedList(recent: seq<Item>, entry: Item, maxRecent: nat): seq<Item>
    requires PathOf(entry).Some?
  {
    var r := [entry] + WithoutPath(recent, PathOf(entry).value);
    r[..Min(maxRecent, |r|)]
  }

  /** `get_last_workspace` on a filtered list: the first entry's path, or None. */
  function FirstPath(recent: seq<Item>): Option<string>
  {
    if recent == [] then None else PathOf(recent[0])
  }

  // ---------------------------------------------------------------------------------
  // Properties of the list transforms

  /** An item is kept exactly when it is in the list, is a dictionary with a "path", and
      that path exists. */
  lemma {:induction false} KeptMembers(items: seq<Item>, pathExists: PathExists, w: Item)
    ensures w in Kept(items, pathExists) <==> w in items && Keep(w, pathExists)
  {
    if items != [] {
      var items' := items[..|items| - 1];
      assert items == items' + [items[|items| - 1]];
      KeptMembers(items', pathExists, w);
    }
  }

  /** The kept items keep their relative order. */
  lemma {:induction false} KeptSubsequence(items: seq<Item>, pathExists: PathExists)
    ensures Subsequence(Kept(items, pathExists), items)
  {
    if items != [] {
      var items', w := items[..|items| - 1], items[|items| - 1];
      var k' := Kept(items', pathExists);
      KeptSubsequence(items', pathExists);
      if Keep(w, pathExists) {
        assert (k' + [w])[..|k'|] == k';
      } else {
        assert Kept(items, pathExists) == k' + [];
        assert k' + [] == k';
        SubsequenceWeaken(k', items', w);
        assert items' + [w] == items;
      }
    }
  }

  /** Filtering never lengthens the list, and leaves it as it was exactly when its length
      is unchanged: the write-back happens exactly when an item was dropped. */
  lemma {:induction false} KeptLength(items: seq<Item>, pathExists: PathExists)
    ensures |Kept(items, pathExists)| <= |items|
    ensures |Kept(items, pathExists)| == |items| <==> Kept(items, pathExists) == items
  {
    if items != [] {
      var items', w := items[..|items| - 1], items[|items| - 1];
      KeptLength(items', pathExists);
      if Keep(w, pathExists) {
        if |Kept(items, pathExists)| == |items| {
          assert Kept(items', pathExists) == items';
          assert items' + [w] == items;
        }
      } else {
        assert Kept(items, pathExists) == Kept(items', pathExists) + [];
      }
    }
  }

  /** Filtering a filtered list changes nothing: a second `get_recent_workspaces` with the
      same paths existing writes nothing back. */
  lemma {:induction false} KeptIdempotent(items: seq<Item>, pathExists: PathExists)
    ensures Kept(Kept(items, pathExists), pathExists) == Kept(items, pathExists)
  {
    if items != [] {
      var items', w := items[..|items| - 1], items[|items| - 1];
      var k' := Kept(items', pathExists);
      KeptIdempotent(items', pathExists);
      if Keep(w, pathExists) {
        assert (k' + [w])[..|k'|] == k';
      } else {
        assert Kept(items, pathExists) == k' + [];
        assert k' + [] == k';
      }
    }
  }

  /** After removal no item has the path; the others stay, in order. */
  lemma {:induction false} WithoutPathSpec(items: seq<Item>, path: string)
    ensures forall k :: 0 <= k < |WithoutPath(items, path)| ==> PathOf(WithoutPath(items, path)[k]) != Some(path)
    ensures forall w :: w in WithoutPath(items, path) <==> w in items && PathOf(w) != Some(path)
    ensures Subsequence(WithoutPath(items, path), items)
  {
    if items != [] {
      var items', w := items[..|items| - 1], items[|items| - 1];
      var r' := WithoutPath(items', path);
      WithoutPathSpec(items', path);
      assert items == items' + [w];
      if PathOf(w) != Some(path) {
        assert (r' + [w])[..|r'|] == r';
      } else {
        assert WithoutPath(items, path) == r' + [];
        assert r' + [] == r';
        SubsequenceWeaken(r', items', w);
      }
    }
  }

  /** The list `add_workspace` stores starts with the new entry, holds no other item with its
      path, keeps the others in their order, and has at most `maxRecent` items: exactly
      `maxRecent` when there were enough others to fill it. */
  lemma AddedListSpec(recent: seq<Item>, entry: Item, maxRecent: nat)
    requires PathOf(entry).Some? && maxRecent >= 1
    ensures var r := AddedList(recent, entry, maxRecent);
      && r != [] && r[0] == entry
      && (forall k :: 1 <= k < |r| ==> PathOf(r[k]) != PathOf(entry))
      && Subsequence(r[1..], recent)
      && |r| == Min(maxRecent, 1 + |WithoutPath(recent, PathOf(entry).value)|)
  {
    var p := PathOf(entry).value;
    var others := WithoutPath(recent, p);
    WithoutPathSpec(recent, p);
    var r := AddedList(recent, entry, maxRecent);
    var n := Min(maxRecent, 1 + |others|);
    assert r == ([entry] + others)[..n];
    assert r[1..] == others[..n - 1];
    forall k | 1 <= k < |r| ensures PathOf(r[k]) != PathOf(entry) {
      assert r[k] == others[k - 1];
    }
    PrefixSubsequence(others, n - 1);
    SubsequenceTrans(others[..n - 1], others, recent);
  }

  /** A workspace just added is the last workspace, as long as its absolute path exists. */
  lemma AddedIsLast(recent: seq<Item>, entry: Item, maxRecent: nat, pathExists: PathExists)
    requires PathOf(entry).Some? && maxRecent >= 1 && pathExists(PathOf(entry).value)
    ensures FirstPath(Kept(AddedList(recent, entry, maxRecent), pathExists)) == PathOf(entry)
  {
    var r := AddedList(recent, entry, maxRecent);
    AddedListSpec(recent, entry, maxRecent);
    KeptFront(r, pathExists);
  }

  /** A list whose first item is kept has it first after filtering. */
  lemma {:induction false} KeptFront(items: seq<Item>, pathExists: PathExists)
    requires items != [] && Keep(items[0], pathExists)
    ensures Kept(items, pathExists) != [] && Kept(items, pathExists)[0] == items[0]
  {
    if |items| > 1 {
      var items' := items[..|items| - 1];
      assert items'[0] == items[0];
      KeptFront(items', pathExists);
    }
  }

  // ---------------------------------------------------------------------------------
  // The settings-backed list

  class RecentWorkspaces {
    const maxRecent: nat
    var stored: Stored

    /** `RecentWorkspaces()`, over the value the settings store holds. */
    constructor(stored: Stored)
      ensures maxRecent == MaxRecent && this.stored == stored
    {
      maxRecent := MaxRecent;
      this.stored := stored;
    }

    /** `get_recent_workspaces`: the stored dictionaries whose "path" exists, in order; the
        cleaned list is written back exactly when an item was dropped. */
    method GetRecentWorkspaces(pathExists: PathExists) returns (valid: seq<Item>)
      modifies this
      ensures valid == Kept(ItemsOf(old(stored)), pathExists)
      ensures stored == if |valid| != |ItemsOf(old(stored))| then Items(valid) else old(stored)
    {
      var recentList := ItemsOf(stored);
      valid := [];
      for i := 0 to |recentList|
        invariant valid == Kept(recentList[..i], pathExists)
      {
        assert recentList[..i + 1][..i] == recentList[..i];
        var workspace := recentList[i];
        if workspace.Entry? && "path" in workspace.fields {
          if pathExists(workspace.fields["path"]) {
            valid := valid + [workspace];
          }
        }
      }
      assert recentList[..|recentList|] == recentList;
      if |valid| != |recentList| {
        stored := Items(valid);
      }
    }

    /** `add_workspace`: nothing when the path does not exist; otherwise the filtered list
        with the new entry in front and any older entry for its absolute path removed, cut
        to `max_recent` items. */
    method AddWorkspace(workspacePath: string, workspaceName: Option<string>, pathExists: PathExists,
                        abspath: string -> string, now: string)
      modifies this
      ensures !pathExists(workspacePath) ==> stored == old(stored)
      ensures pathExists(workspacePath) ==>
        stored == Items(AddedList(Kept(ItemsOf(old(stored)), pathExists),
                                  NewEntry(abspath(workspacePath), NameFor(workspaceName, workspacePath), now),
                                  maxRecent))
    {
      if !pathExists(workspacePath) {
        return;
      }
      var recentList := GetRecentWorkspaces(pathExists);
      var workspaceEntry := NewEntry(abspath(workspacePath), NameFor(workspaceName, workspacePath), now);
      recentList := WithoutPath(recentList, abspath(workspacePath));
      recentList := [workspaceEntry] + recentList;
      recentList := recentList[..Min(maxRecent, |recentList|)];
      stored := Items(recentList);
    }

    /** `get_last_workspace`: the first remaining entry's path, or None. */
    method GetLastWorkspace(pathExists: PathExists) returns (r: Option<string>)
      modifies this
      ensures r == FirstPath(Kept(ItemsOf(old(stored)), pathExists))
      ensures stored == if |Kept(ItemsOf(old(stored)), pathExists)| != |ItemsOf(old(stored))|
                        then Items(Kept(ItemsOf(old(stored)), pathExists)) else old(stored)
    {
      var recent := GetRecentWorkspaces(pathExists);
      if |recent| > 0 {
        r := PathOf(recent[0]);
      } else {
        r := None;
      }
    }

    /** `remove_workspace`: the filtered list without any entry for exactly that path. */
    method RemoveWorkspace(workspacePath: string, pathExists: PathExists)
      modifies this
      ensures stored == Items(WithoutPath(Kept(ItemsOf(old(stored)), pathExists), workspacePath))
    {
      var recentList := GetRecentWorkspaces(pathExists);
      recentList := WithoutPath(recentList, workspacePath);
      stored := Items(recentList);
    }

    /** `clear_recent_workspaces`: the stored list becomes empty. */
    method ClearRecentWorkspaces()
      modifies this
      ensures stored == Items([])
    {
      stored := Items([]);
    }
  }
}
