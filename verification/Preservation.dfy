/** Every step keeps the state invariant. */
module Preservation {
  import opened Base
  import opened Tables
  import opened Paths
  import opened Tree
  import opened Integrity
  import opened NameConflict
  import opened Graft
  import opened Steps

  /** Replacing the folder table keeps the invariant if files and shares still find their folders. */
  lemma FoldersReplaced(t: Snapshot, gs: FolderTable)
    requires Inv(t) && t.folders.Keys <= gs.Keys
    requires gs.Keys !! t.rooms.Keys && gs.Keys !! t.files.Keys
    requires forall i :: LiveFolder(t.folders, i) ==> gs[i].live && gs[i].room == t.folders[i].room
    requires TreeOk(gs) && FoldersInLiveRooms(t.rooms, gs) && DepthLimited(gs) && UniqueFolderNames(gs)
    ensures Inv(t.(folders := gs))
  {
  }

  lemma CreateFolderKeepsInv(t: Snapshot, room: Id, parent: Option<Id>, desiredName: string, id: Id)
    requires Inv(t) && Unused(t, id)
    ensures Inv(CreateFolder(t, room, parent, desiredName, id).rows)
  {
    var out := CreateFolder(t, room, parent, desiredName, id);
    if out.result.Ok? {
      LeafKeepsInv(t, out.rows.folders[id], id);
    }
  }

  lemma LeafKeepsInv(t: Snapshot, row: Folder, id: Id)
    requires Inv(t) && Unused(t, id) && row.live
    requires LiveRoom(t.rooms, row.room) && ValidParent(t.folders, row.room, row.parent)
    requires row.path == Render(ParentChain(t.folders, row.parent) + [id])
    requires |ParentChain(t.folders, row.parent)| + 1 <= MAX_FOLDER_DEPTH
    requires row.name !in FolderSiblings(t.folders, row.room, row.parent, None)
    ensures Inv(t.(folders := t.folders[id := row]))
  {
    var gs := t.folders[id := row];
    CreatedTree(t.folders, gs, id);
    FolderInsertCheck(t.folders, gs, id);
    FoldersReplaced(t, gs);
  }

  /** A new leaf under a live parent leaves every other chain as it is. */
  lemma CreatedTree(fs: FolderTable, gs: FolderTable, id: Id)
    requires TreeOk(fs) && DepthLimited(fs) && id !in fs && id in gs && gs == fs[id := gs[id]]
    requires ValidParent(fs, gs[id].room, gs[id].parent)
    requires gs[id].path == Render(ParentChain(fs, gs[id].parent) + [id])
    requires |ParentChain(fs, gs[id].parent)| + 1 <= MAX_FOLDER_DEPTH
    ensures TreeOk(gs) && DepthLimited(gs)
  {
    CreatedRow(fs, gs[id], id);
    forall i | LiveFolder(gs, i)
      ensures Anchored(gs, i) && DepthOf(gs, i) <= MAX_FOLDER_DEPTH
    {
      if i != id {
        assert LiveFolder(fs, i) && DepthOf(fs, i) == DepthOf(gs, i);
        assert Anchored(fs, i);
      }
    }
  }

  lemma CreatedRow(fs: FolderTable, row: Folder, id: Id)
    requires TreeOk(fs) && ValidParent(fs, row.room, row.parent)
    requires row.path == Render(ParentChain(fs, row.parent) + [id])
    ensures row.path == BuildChildPath(ParentPath(fs, row.parent), id)
    ensures Depth(Some(row.path)) == |ParentChain(fs, row.parent)| + 1
  {
    var c := ParentChain(fs, row.parent);
    assert (c + [id])[..|c|] == c;
    PathCode(c + [id], c);
    if row.parent.Some? {
      PathIsChain(fs, row.parent.value);
    }
  }

  lemma RenameFolderKeepsInv(t: Snapshot, f: Id, desiredName: string)
    requires Inv(t)
    ensures Inv(RenameFolder(t, f, desiredName).rows)
  {
    var out := RenameFolder(t, f, desiredName);
    if out.result.Ok? {
      var fs, gs := t.folders, out.rows.folders;
      RenamedTree(fs, gs, f);
      FolderIndexIsSiblingQuery(fs, gs, f);
      FoldersReplaced(t, gs);
    }
  }

  /** A name is part of no path. */
  lemma RenamedTree(fs: FolderTable, gs: FolderTable, f: Id)
    requires TreeOk(fs) && DepthLimited(fs) && LiveFolder(fs, f)
    requires f in gs && gs == fs[f := fs[f].(name := gs[f].name)]
    ensures TreeOk(gs) && DepthLimited(gs) && ValidParent(fs, gs[f].room, gs[f].parent)
  {
    assert Anchored(fs, f);
    forall i | LiveFolder(gs, i) ensures Anchored(gs, i) {
      assert Anchored(fs, i);
    }
    forall i | LiveFolder(gs, i) ensures DepthOf(gs, i) <= MAX_FOLDER_DEPTH {
      assert DepthOf(fs, i) == DepthOf(gs, i);
    }
  }

  /** No folder of an accepted move ends deeper than the limit. */
  lemma MovedDepth(fs: FolderTable, gs: FolderTable, f: Id, target: Option<Id>, name: string)
    requires BranchMoved(fs, gs, f, target, name) && DepthLimited(fs)
    requires !SomeoneTooDeep(fs, f, target)
    ensures TreeOk(gs) && DepthLimited(gs)
  {
    MovedKeepsTree(fs, gs, f, target, name);
    forall i | LiveFolder(gs, i) ensures DepthOf(gs, i) <= MAX_FOLDER_DEPTH {
      assert RowMoved(fs, gs, f, target, name, i);
      PathTestsAreReachability(gs, i, i);
      ChainLimited(fs, i);
      if InBranch(fs, i, f) {
        ChainInside(fs, gs, f, target, name, i);
      } else {
        ChainOutside(fs, gs, f, target, name, i);
      }
    }
  }

  lemma BranchMovedRooms(fs: FolderTable, gs: FolderTable, f: Id, target: Option<Id>, name: string)
    requires BranchMoved(fs, gs, f, target, name)
    ensures forall i :: i in gs ==> gs[i].live == fs[i].live && gs[i].room == fs[i].room
    ensures SamePlacesExcept(fs, gs, f) && gs[f].parent == target && gs[f].name == name
  {
  }

  lemma MoveFolderKeepsInv(t: Snapshot, f: Id, target: Option<Id>)
    requires Inv(t)
    ensures Inv(MoveFolder(t, f, target).rows)
  {
    var out := MoveFolder(t, f, target);
    if out.result.Ok? {
      var fs := t.folders;
      var siblings := FolderSiblings(fs, fs[f].room, target, Some(f));
      var name := ResolvedName(fs[f].name, siblings, false);
      var gs := Moved(fs, f, target, name);
      MovedRows(fs, f, target, name);
      MovedIsGrafted(fs, gs, f, target, name);
      MovedDepth(fs, gs, f, target, name);
      BranchMovedRooms(fs, gs, f, target, name);
      FolderIndexIsSiblingQuery(fs, gs, f);
      FoldersReplaced(t, gs);
    }
  }

  /** Deleting rows keeps the invariant if no live row keeps a deleted parent or room. */
  lemma RowsDeleted(t: Snapshot, u: Snapshot)
    requires Inv(t) && u.rooms.Keys == t.rooms.Keys && u.shares == t.shares
    requires u.folders.Keys == t.folders.Keys && u.files.Keys == t.files.Keys
    requires forall i :: i in t.folders ==> u.folders[i] == t.folders[i].(live := u.folders[i].live)
    requires forall x :: x in t.files ==> u.files[x] == t.files[x].(live := u.files[x].live)
    requires forall i :: LiveFolder(u.folders, i) ==>
                           LiveFolder(t.folders, i) && LiveRoom(u.rooms, u.folders[i].room)
                           && ValidParent(u.folders, u.folders[i].room, u.folders[i].parent)
    requires forall x :: LiveFile(u.files, x) ==>
                           LiveFile(t.files, x) && LiveRoom(u.rooms, u.files[x].room)
                           && ValidParent(u.folders, u.files[x].room, u.files[x].folder)
    ensures Inv(u)
  {
    forall i | LiveFolder(u.folders, i)
      ensures Anchored(u.folders, i) && DepthOf(u.folders, i) <= MAX_FOLDER_DEPTH
    {
      assert Anchored(t.folders, i);
      assert DepthOf(t.folders, i) == DepthOf(u.folders, i);
    }
    forall i, j | i in u.folders && j in u.folders ensures !FolderClash(u.folders, i, j) {
      assert !FolderClash(t.folders, i, j);
    }
    forall i, j | i in u.files && j in u.files ensures !FileClash(u.files, i, j) {
      assert !FileClash(t.files, i, j);
    }
    forall s | s in u.shares ensures ShareTargetExists(u, u.shares[s]) {
      assert ShareTargetExists(t, t.shares[s]);
    }
  }

  lemma DeleteFolderKeepsInv(t: Snapshot, f: Id)
    requires Inv(t)
    ensures Inv(DeleteFolder(t, f).rows)
  {
    var u := DeleteFolder(t, f).rows;
    if LiveFolder(t.folders, f) {
      forall i | LiveFolder(u.folders, i)
        ensures LiveFolder(t.folders, i) && LiveRoom(u.rooms, u.folders[i].room)
                && ValidParent(u.folders, u.folders[i].room, u.folders[i].parent)
      {
        assert Anchored(t.folders, i);
        ReachesStep(t.folders, i, f);
      }
      RowsDeleted(t, u);
    }
  }

  lemma DeleteRoomKeepsInv(t: Snapshot, room: Id)
    requires Inv(t)
    ensures Inv(DeleteRoom(t, room).rows)
  {
    var u := DeleteRoom(t, room).rows;
    if LiveRoom(t.rooms, room) {
      forall i | LiveFolder(u.folders, i)
        ensures LiveFolder(t.folders, i) && LiveRoom(u.rooms, u.folders[i].room)
                && ValidParent(u.folders, u.folders[i].room, u.folders[i].parent)
      {
        assert Anchored(t.folders, i);
      }
      RowsDeleted(t, u);
    }
  }

  lemma CreateRoomKeepsInv(t: Snapshot, owner: Id, id: Id)
    requires Inv(t) && Unused(t, id)
    ensures Inv(CreateRoom(t, owner, id).rows)
  {
  }

  /** Changing or adding one file row keeps the invariant if its place, name and key are in order. */
  lemma FilePlaced(t: Snapshot, x: Id, row: File)
    requires Inv(t) && x !in t.rooms && x !in t.folders
    requires row.live ==>
               LiveRoom(t.rooms, row.room) && ValidParent(t.folders, row.room, row.folder)
               && row.name !in FileSiblings(t.files, row.room, row.folder, Some(x))
    requires forall y :: y in t.files && y != x ==> t.files[y].key != row.key
    ensures Inv(t.(files := t.files[x := row]))
  {
    var gs := t.files[x := row];
    if row.live {
      FileIndexIsSiblingQuery(t.rooms, t.folders, t.files, gs, x);
    } else {
      forall i, j | i in gs && j in gs ensures !FileClash(gs, i, j) {
        if i != x && j != x {
          assert !FileClash(t.files, i, j);
        }
      }
    }
    assert UniqueFileNames(gs);
    forall s | s in t.shares ensures ShareTargetExists(t.(files := gs), t.shares[s]) {
      assert ShareTargetExists(t, t.shares[s]);
    }
  }

  /** The route guard of confirm has seen the room live. */
  lemma ConfirmKeepsInv(t: Snapshot, u: Upload, stored: Head, id: Id)
    requires Inv(t) && Unused(t, id) && LiveRoom(t.rooms, u.room)
    ensures Inv(Confirm(t, u, stored, id).rows)
  {
    var out := Confirm(t, u, stored, id);
    if out.result.Ok? {
      FileInsertCheck(t, out.rows.files, id);
      FilePlaced(t, id, out.rows.files[id]);
    }
  }

  lemma PlaceFileKeepsInv(t: Snapshot, x: Id, folder: Option<Id>, desiredName: string)
    requires Inv(t) && LiveFile(t.files, x) && ValidParent(t.folders, t.files[x].room, folder)
    ensures Inv(PlaceFile(t, x, folder, desiredName).rows)
  {
    var out := PlaceFile(t, x, folder, desiredName);
    if out.result.Ok? {
      FilePlaced(t, x, out.rows.files[x]);
    }
  }

  lemma RenameFileKeepsInv(t: Snapshot, x: Id, desiredName: string)
    requires Inv(t)
    ensures Inv(RenameFile(t, x, desiredName).rows)
  {
    if LiveFile(t.files, x) {
      PlaceFileKeepsInv(t, x, t.files[x].folder, desiredName);
    }
  }

  lemma MoveFileKeepsInv(t: Snapshot, x: Id, folder: Option<Id>)
    requires Inv(t)
    ensures Inv(MoveFile(t, x, folder).rows)
  {
    if LiveFile(t.files, x) && ValidParent(t.folders, t.files[x].room, folder) {
      PlaceFileKeepsInv(t, x, folder, t.files[x].name);
    }
  }

  lemma DeleteFileKeepsInv(t: Snapshot, x: Id)
    requires Inv(t)
    ensures Inv(DeleteFile(t, x).rows)
  {
    if LiveFile(t.files, x) {
      FilePlaced(t, x, t.files[x].(live := false));
    }
  }
}
