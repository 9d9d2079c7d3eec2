/** The folder requests, statement by statement, on the path column. */
module FoldersService {
  import opened Base
  import opened Tables
  import opened Paths
  import opened Tree
  import opened Integrity
  import opened Graft
  import opened Steps
  import opened Preservation
  import Like
  import NameConflict

  // ---- PathService ----

  function SubtreeRows(fs: FolderTable, room: Id, path: string): set<Id> {
    set i | i in fs && InSubtreeQuery(fs[i], room, path)
  }

  /** What MAX over the slash counts of the subtree query returns, NULL read as 0. */
  ghost predicate IsMaxDepth(fs: FolderTable, room: Id, path: string, max: int) {
    var rows := SubtreeRows(fs, room, path);
    && (rows == {} ==> max == 0)
    && (rows != {} ==> exists i :: i in rows && SlashDepth(fs[i].path) == max)
    && (forall i :: i in rows ==> SlashDepth(fs[i].path) <= max)
  }

  method MaxSubtreeDepth(db: Database, room: Id, path: string) returns (max: int)
    ensures IsMaxDepth(db.folders, room, path, max)
  {
    var fs := db.folders;
    var rest := SubtreeRows(fs, room, path);
    ghost var all := rest;
    var found := false;
    max := 0;
    while rest != {}
      invariant rest <= all
      invariant if found then exists i :: i in all && SlashDepth(fs[i].path) == max
                else rest == all && max == 0
      invariant forall i :: i in all && i !in rest ==> SlashDepth(fs[i].path) <= max
      decreases rest
    {
      var i: Id :| i in rest;
      var depth := SlashDepth(fs[i].path);
      max := if !found || depth > max then depth else max;
      found, rest := true, rest - {i};
    }
  }

  /**
   The single prefix-replacing UPDATE. For a path without LIKE characters it moves exactly
   the live rows of the room under the old path below the new one, tails kept.
   */
  method RewriteSubtreePaths(db: Database, room: Id, oldPath: string, newPath: string)
    modifies db`folders
    ensures PlainText(oldPath) ==> RowsRewritten(old(db.folders), db.folders, room, oldPath, newPath)
  {
    ghost var fs := db.folders;
    db.folders := Rewritten(db.folders, room, oldPath, newPath);
    if PlainText(oldPath) {
      RewrittenRows(fs, room, oldPath, newPath);
    }
  }

  // ---- FoldersService ----

  method GetFolderOrFail(db: Database, f: Id, room: Option<Id>) returns (r: Result<Folder>)
    ensures r == if LiveFolder(db.folders, f) && (room.Some? ==> db.folders[f].room == room.value)
                 then Ok(db.folders[f]) else Err(NotFound)
  {
    if !LiveFolder(db.folders, f) || (room.Some? && db.folders[f].room != room.value) {
      return Err(NotFound);
    }
    r := Ok(db.folders[f]);
  }

  /** Asks only for the siblings whose name passes the LIKE pattern. */
  method ResolveSiblingName(
    db: Database, room: Id, parent: Option<Id>, desiredName: string, exclude: Option<Id>)
    returns (name: string)
    ensures name == NameConflict.ResolvedName(
                      desiredName, FolderSiblings(db.folders, room, parent, exclude), false)
  {
    var pattern := NameConflict.BuildLikePattern(desiredName, false);
    var fs := db.folders;
    var rows := set i | i in fs && fs[i].live && fs[i].room == room && fs[i].parent == parent
                        && Some(i) != exclude && Like.Matches(fs[i].name, pattern) :: fs[i].name;
    var names := AnyOrder(rows);
    name := NameConflict.Resolve(desiredName, names, false);
    ghost var siblings := FolderSiblings(fs, room, parent, exclude);
    assert (set n | n in names) == rows == NameConflict.PreFiltered(desiredName, siblings, false);
    NameConflict.PreFilterHarmless(desiredName, siblings, false);
  }

  method Create(db: Database, room: Id, parentId: Option<Id>, desiredName: string, id: Id)
    returns (r: Result<Id>)
    requires Inv(db.Rows()) && Unused(db.Rows(), id)
    modifies db`folders
    ensures Outcome(db.Rows(), r) == CreateFolder(old(db.Rows()), room, parentId, desiredName, id)
    ensures Inv(db.Rows())
  {
    ghost var before := db.Rows();
    CreateFolderKeepsInv(before, room, parentId, desiredName, id);
    if !LiveRoom(db.rooms, room) {
      return Err(NotFound);
    }
    var parentPath: Option<string> := None;
    if parentId.Some? {
      var parent := GetFolderOrFail(db, parentId.value, Some(room));
      if parent.Err? {
        return Err(parent.error);
      }
      parentPath := Some(parent.value.path);
    }
    ParentPathDepth(db.folders, parentId);
    if Depth(parentPath) + 1 > MAX_FOLDER_DEPTH {
      return Err(TooDeep);
    }
    var name := ResolveSiblingName(db, room, parentId, desiredName, None);
    var path := BuildChildPath(parentPath, id);
    ChildPathIsChain(db.folders, parentId, id);
    var inserted := db.folders[id := Folder(room, parentId, name, path, true)];
    FolderInsertCheck(db.folders, inserted, id);
    if !UniqueFolderNames(inserted) {
      return Err(Conflict);
    }
    db.folders := inserted;
    r := Ok(id);
  }

  lemma ParentPathDepth(fs: FolderTable, parent: Option<Id>)
    requires TreeOk(fs) && (parent.Some? ==> LiveFolder(fs, parent.value))
    ensures Depth(ParentPath(fs, parent)) == |ParentChain(fs, parent)|
  {
    if parent.Some? {
      PathTestsAreReachability(fs, parent.value, parent.value);
    }
  }

  lemma ChildPathIsChain(fs: FolderTable, parent: Option<Id>, id: Id)
    requires TreeOk(fs) && (parent.Some? ==> LiveFolder(fs, parent.value))
    ensures BuildChildPath(ParentPath(fs, parent), id) == Render(ParentChain(fs, parent) + [id])
  {
    var c := ParentChain(fs, parent);
    assert (c + [id])[..|c|] == c;
    if parent.Some? {
      PathIsChain(fs, parent.value);
    }
  }

  method Rename(db: Database, f: Id, desiredName: string) returns (r: Result<Id>)
    requires Inv(db.Rows())
    modifies db`folders
    ensures Outcome(db.Rows(), r) == RenameFolder(old(db.Rows()), f, desiredName)
    ensures Inv(db.Rows())
  {
    RenameFolderKeepsInv(db.Rows(), f, desiredName);
    var folder := GetFolderOrFail(db, f, None);
    if folder.Err? {
      return Err(folder.error);
    }
    var name := ResolveSiblingName(db, folder.value.room, folder.value.parent, desiredName, Some(f));
    var renamed := db.folders[f := db.folders[f].(name := name)];
    assert Anchored(db.folders, f);
    FolderIndexIsSiblingQuery(db.folders, renamed, f);
    if !UniqueFolderNames(renamed) {
      return Err(Conflict);
    }
    db.folders := renamed;
    r := Ok(f);
  }

  /** Cycle test, depth test, name search, prefix rewrite, relink; a unique violation rolls back. */
  method Move(db: Database, f: Id, parentId: Option<Id>) returns (r: Result<Id>)
    requires Inv(db.Rows())
    modifies db`folders
    ensures Outcome(db.Rows(), r) == MoveFolder(old(db.Rows()), f, parentId)
    ensures Inv(db.Rows())
  {
    ghost var fs := db.folders;
    MoveFolderKeepsInv(db.Rows(), f, parentId);
    var folder := GetFolderOrFail(db, f, None);
    if folder.Err? {
      return Err(folder.error);
    }
    var room, path := folder.value.room, folder.value.path;
    var parentPath: Option<string> := None;
    if parentId.Some? {
      var parent := GetFolderOrFail(db, parentId.value, Some(room));
      if parent.Err? {
        return Err(parent.error);
      }
      parentPath := Some(parent.value.path);
      PathTestsAreReachability(fs, parentId.value, f);
      if IsDescendantOrSelf(parent.value.path, path) {
        return Err(Cycle);
      }
    }
    var subtreeDepth := MaxSubtreeDepth(db, room, path);
    var relativeDepth := subtreeDepth - Depth(Some(path));
    DepthTestIsExact(fs, f, parentId, subtreeDepth);
    if Depth(parentPath) + 1 + relativeDepth > MAX_FOLDER_DEPTH {
      return Err(TooDeep);
    }
    var name := ResolveSiblingName(db, room, parentId, folder.value.name, Some(f));
    var newPath := BuildChildPath(parentPath, f);
    var rollback := db.folders;
    PathIsPlain(fs, f);
    if newPath != path {
      RewriteSubtreePaths(db, room, path, newPath);
    }
    MoveStatements(fs, db.folders, f, parentId, name);
    db.folders := db.folders[f := db.folders[f].(parent := parentId, name := name)];
    if !UniqueFolderNames(db.folders) {
      db.folders := rollback;
      return Err(Conflict);
    }
    r := Ok(f);
  }

  /** The MAX query answers whether some folder of the branch would end too deep. */
  lemma DepthTestIsExact(fs: FolderTable, f: Id, target: Option<Id>, max: int)
    requires CanGraft(fs, f, target) && IsMaxDepth(fs, fs[f].room, fs[f].path, max)
    ensures Depth(ParentPath(fs, target)) + 1 + (max - Depth(Some(fs[f].path))) > MAX_FOLDER_DEPTH
            <==> SomeoneTooDeep(fs, f, target)
  {
    ParentPathDepth(fs, target);
    PathTestsAreReachability(fs, f, f);
    ReachesSelf(fs, f);
    SubtreeQueryIsBranch(fs, f, f);
    assert f in SubtreeRows(fs, fs[f].room, fs[f].path);
    var deepest :| deepest in SubtreeRows(fs, fs[f].room, fs[f].path) && SlashDepth(fs[deepest].path) == max;
    SubtreeQueryIsBranch(fs, f, deepest);
    PathTestsAreReachability(fs, deepest, f);
    forall i | InBranch(fs, i, f) ensures |Chain(fs, i)| <= max {
      SubtreeQueryIsBranch(fs, f, i);
      PathTestsAreReachability(fs, i, f);
      assert i in SubtreeRows(fs, fs[f].room, fs[f].path);
    }
  }

  /** The statements of move, with the rewrite skipped when the path stays, leave the grafted table. */
  lemma MoveStatements(fs: FolderTable, ms: FolderTable, f: Id, target: Option<Id>, name: string)
    requires CanGraft(fs, f, target) && UniqueFolderNames(fs)
    requires if NewPath(fs, f, target) == fs[f].path then ms == fs
             else RowsRewritten(fs, ms, fs[f].room, fs[f].path, NewPath(fs, f, target))
    ensures f in ms && Relinked(ms, f, target, name) == Grafted(fs, f, target, name)
    ensures UniqueFolderNames(Relinked(ms, f, target, name))
            <==> name !in FolderSiblings(fs, fs[f].room, target, Some(f))
  {
    RewriteToSamePath(fs, f);
    PathIsPlain(fs, f);
    RewrittenRows(fs, fs[f].room, fs[f].path, NewPath(fs, f, target));
    if NewPath(fs, f, target) != fs[f].path {
      RowsRewrittenUnique(fs, ms, fs[f].room, fs[f].path, NewPath(fs, f, target));
    }
    var gs := Relinked(ms, f, target, name);
    MovedRows(fs, f, target, name);
    MovedIsGrafted(fs, gs, f, target, name);
    BranchMovedRooms(fs, gs, f, target, name);
    FolderIndexIsSiblingQuery(fs, gs, f);
  }

  /** data_room_id = room AND deleted_at IS NULL AND folder_id IN (subtree query) */
  predicate FileInSubtreeQuery(t: Snapshot, x: Id, room: Id, path: string)
    requires x in t.files
  {
    && t.files[x].room == room && t.files[x].live && t.files[x].folder.Some?
    && t.files[x].folder.value in t.folders
    && InSubtreeQuery(t.folders[t.files[x].folder.value], room, path)
  }

  function StampFiles(t: Snapshot, room: Id, path: string): FileTable {
    map x | x in t.files ::
      if FileInSubtreeQuery(t, x, room, path) then t.files[x].(live := false) else t.files[x]
  }

  function StampFolders(fs: FolderTable, room: Id, path: string): FolderTable {
    map i | i in fs :: if InSubtreeQuery(fs[i], room, path) then fs[i].(live := false) else fs[i]
  }

  method SoftDelete(db: Database, f: Id) returns (r: Result<Id>)
    requires Inv(db.Rows())
    modifies db`folders, db`files
    ensures Outcome(db.Rows(), r) == DeleteFolder(old(db.Rows()), f)
    ensures Inv(db.Rows())
  {
    ghost var t := db.Rows();
    DeleteFolderKeepsInv(t, f);
    var folder := GetFolderOrFail(db, f, None);
    if folder.Err? {
      return Err(folder.error);
    }
    var room, path := folder.value.room, folder.value.path;
    db.files := StampFiles(db.Rows(), room, path);
    db.folders := StampFolders(db.folders, room, path);
    StampsAreBranch(t, f);
    r := Ok(f);
  }

  lemma FileQueryIsBranch(t: Snapshot, f: Id, x: Id)
    requires Inv(t) && LiveFolder(t.folders, f) && x in t.files
    ensures FileInSubtreeQuery(t, x, t.folders[f].room, t.folders[f].path) <==> FileInBranch(t, x, f)
  {
    if LiveFile(t.files, x) && t.files[x].folder.Some? {
      var p := t.files[x].folder.value;
      assert ValidParent(t.folders, t.files[x].room, t.files[x].folder);
      SubtreeQueryIsBranch(t.folders, f, p);
      PathTestsAreReachability(t.folders, p, f);
    }
  }

  /**
   The two statements stamp exactly the live folders that reach f by parent links and
   the live files in them.
   */
  lemma StampsAreBranch(t: Snapshot, f: Id)
    requires Inv(t) && LiveFolder(t.folders, f)
    ensures var room, path := t.folders[f].room, t.folders[f].path;
            DeleteFolder(t, f).rows
            == t.(files := StampFiles(t, room, path), folders := StampFolders(t.folders, room, path))
  {
    var room, path := t.folders[f].room, t.folders[f].path;
    var u := DeleteFolder(t, f).rows;
    forall x | x in t.files ensures u.files[x] == StampFiles(t, room, path)[x] {
      FileQueryIsBranch(t, f, x);
    }
    forall i | i in t.folders ensures u.folders[i] == StampFolders(t.folders, room, path)[i] {
      SubtreeQueryIsBranch(t.folders, f, i);
    }
    assert u.files == StampFiles(t, room, path);
    assert u.folders == StampFolders(t.folders, room, path);
  }

  /**
   Why files are stamped before folders: with the folders stamped first, the file
   statement finds no live folder and stamps nothing.
   */
  lemma StampFoldersFirst(t: Snapshot, room: Id, path: string)
    ensures StampFiles(t.(folders := StampFolders(t.folders, room, path)), room, path) == t.files
  {
  }
}
