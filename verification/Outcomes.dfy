/**
 What every request answers and leaves behind, written out on the rows: each error with its
 guard, in the order in which the guards are tested, and after an accepted request every
 column of every row.
 */
module Outcomes {
  import opened Base
  import opened Tables
  import opened Tree
  import opened Integrity
  import opened NameConflict
  import opened Graft
  import opened Steps
  import opened Access
  import opened AccessLaws
  import opened Conflicts
  import Moves
  import Preservation

  // ---- names ----

  lemma FolderNameTaken(name: string, taken: set<string>)
    ensures Unresolvable(name, taken, false) <==> name in taken && !OneLine(name) && name + " (1)" in taken
    ensures var chosen := ResolvedName(name, taken, false);
            && (name !in taken ==> chosen == name)
            && (!Unresolvable(name, taken, false) ==> chosen !in taken)
  {
    ResolvedTaken(name, taken, false);
    FirstCandidate(name, false);
  }

  lemma FileNameTaken(name: string, taken: set<string>)
    ensures var parts := SplitName(name, true);
            Unresolvable(name, taken, true)
            <==> name in taken && parts.base + " (1)" + parts.extension in taken
                 && (!OneLine(parts.base) || (|name| >= 2 && name[|name| - 1] == '.'))
    ensures var chosen := ResolvedName(name, taken, true);
            && (name !in taken ==> chosen == name)
            && (!Unresolvable(name, taken, true) ==> chosen !in taken)
  {
    ResolvedTaken(name, taken, true);
    FirstSuffix(SplitName(name, true));
  }

  // ---- folders ----

  /** Creating a folder: the answer. */
  lemma CreateFolderAnswers(t: Snapshot, room: Id, parent: Option<Id>, desiredName: string, id: Id)
    requires TreeOk(t.folders)
    ensures var out := CreateFolder(t, room, parent, desiredName, id);
            var taken := set i | i in t.folders && t.folders[i].live && t.folders[i].room == room
                                 && t.folders[i].parent == parent :: t.folders[i].name;
            && (out.result.Err? ==> out.rows == t)
            && out.result
               == if !(room in t.rooms && t.rooms[room].live) then Err(NotFound)
                  else if parent.Some? && !(parent.value in t.folders && t.folders[parent.value].live
                                            && t.folders[parent.value].room == room) then Err(NotFound)
                  else if |ParentChain(t.folders, parent)| + 1 > 20 then Err(TooDeep)
                  else if desiredName in taken && !OneLine(desiredName) && desiredName + " (1)" in taken
                  then Err(Conflict)
                  else Ok(id)
  {
    var siblings := FolderSiblings(t.folders, room, parent, None);
    FolderNameTaken(desiredName, siblings);
    ResolvedTaken(desiredName, siblings, false);
    assert siblings == set i | i in t.folders && t.folders[i].live && t.folders[i].room == room
                               && t.folders[i].parent == parent :: t.folders[i].name;
  }

  /** Creating a folder: the one new row, with the wanted name or a free one, and the path of its links. */
  lemma CreateFolderInserts(t: Snapshot, room: Id, parent: Option<Id>, desiredName: string, id: Id)
    requires Inv(t) && Unused(t, id) && CreateFolder(t, room, parent, desiredName, id).result.Ok?
    ensures var u := CreateFolder(t, room, parent, desiredName, id).rows;
            var taken := set i | i in t.folders && t.folders[i].live && t.folders[i].room == room
                                 && t.folders[i].parent == parent :: t.folders[i].name;
            && u.rooms == t.rooms && u.files == t.files && u.shares == t.shares
            && id !in t.folders && u.folders.Keys == t.folders.Keys + {id}
            && (forall i :: i in t.folders ==> u.folders[i] == t.folders[i])
            && var row := u.folders[id];
               && row.live && row.room == room && row.parent == parent && row.path == LinkPath(u.folders, id)
               && row.name == ResolvedName(desiredName, taken, false) && row.name !in taken
               && (desiredName !in taken ==> row.name == desiredName)
  {
    CreatedColumns(t, room, parent, desiredName, id);
    CreatedPath(t, room, parent, desiredName, id);
  }

  lemma CreatedColumns(t: Snapshot, room: Id, parent: Option<Id>, desiredName: string, id: Id)
    requires TreeOk(t.folders) && Unused(t, id) && CreateFolder(t, room, parent, desiredName, id).result.Ok?
    ensures var u := CreateFolder(t, room, parent, desiredName, id).rows;
            var taken := set i | i in t.folders && t.folders[i].live && t.folders[i].room == room
                                 && t.folders[i].parent == parent :: t.folders[i].name;
            && u.rooms == t.rooms && u.files == t.files && u.shares == t.shares
            && u.folders.Keys == t.folders.Keys + {id}
            && (forall i :: i in t.folders ==> u.folders[i] == t.folders[i])
            && var row := u.folders[id];
               && row.live && row.room == room && row.parent == parent
               && row.name == ResolvedName(desiredName, taken, false) && row.name !in taken
               && (desiredName !in taken ==> row.name == desiredName)
  {
    var siblings := FolderSiblings(t.folders, room, parent, None);
    FolderNameTaken(desiredName, siblings);
    assert siblings == set i | i in t.folders && t.folders[i].live && t.folders[i].room == room
                               && t.folders[i].parent == parent :: t.folders[i].name;
  }

  lemma CreatedPath(t: Snapshot, room: Id, parent: Option<Id>, desiredName: string, id: Id)
    requires Inv(t) && Unused(t, id) && CreateFolder(t, room, parent, desiredName, id).result.Ok?
    ensures var gs := CreateFolder(t, room, parent, desiredName, id).rows.folders;
            id in gs && gs[id].path == LinkPath(gs, id)
  {
    Preservation.CreateFolderKeepsInv(t, room, parent, desiredName, id);
    PathIsLinkPath(CreateFolder(t, room, parent, desiredName, id).rows.folders, id);
  }

  /** Renaming a folder gives it the wanted name, or a free one, and changes nothing else. */
  lemma RenameFolderOutcome(t: Snapshot, f: Id, desiredName: string)
    ensures var out := RenameFolder(t, f, desiredName);
            && (out.result.Err? ==> out.rows == t)
            && if !(f in t.folders && t.folders[f].live) then out.result == Err(NotFound)
               else
                 var row := t.folders[f];
                 var taken := set i | i in t.folders && t.folders[i].live && t.folders[i].room == row.room
                                      && t.folders[i].parent == row.parent && i != f :: t.folders[i].name;
                 if desiredName in taken && !OneLine(desiredName) && desiredName + " (1)" in taken
                 then out.result == Err(Conflict)
                 else
                   var name := ResolvedName(desiredName, taken, false);
                   && out == Accept(t.(folders := t.folders[f := row.(name := name)]), f)
                   && name !in taken && (desiredName !in taken ==> name == desiredName)
  {
    if LiveFolder(t.folders, f) {
      var siblings := FolderSiblings(t.folders, t.folders[f].room, t.folders[f].parent, Some(f));
      FolderNameTaken(desiredName, siblings);
      ResolvedTaken(desiredName, siblings, false);
      assert siblings == set i | i in t.folders && t.folders[i].live && t.folders[i].room == t.folders[f].room
                                 && t.folders[i].parent == t.folders[f].parent && i != f :: t.folders[i].name;
    }
  }

  /** Moving a folder: the answer. The target may not lie in the branch, nor the branch end too deep. */
  lemma MoveFolderAnswers(t: Snapshot, f: Id, target: Option<Id>)
    requires TreeOk(t.folders)
    ensures var out, fs := MoveFolder(t, f, target), t.folders;
            && (out.result.Err? ==> out.rows == t)
            && if !(f in fs && fs[f].live) then out.result == Err(NotFound)
               else
                 var name := fs[f].name;
                 var taken := set i | i in fs && fs[i].live && fs[i].room == fs[f].room
                                      && fs[i].parent == target && i != f :: fs[i].name;
                 out.result
                 == if target.Some? && !(target.value in fs && fs[target.value].live
                                         && fs[target.value].room == fs[f].room) then Err(NotFound)
                    else if target.Some? && Reaches(fs, target.value, f) then Err(Cycle)
                    else if exists i :: i in fs && fs[i].live && Reaches(fs, i, f)
                                        && |ParentChain(fs, target)| + 1 + (|Chain(fs, i)| - |Chain(fs, f)|) > 20
                    then Err(TooDeep)
                    else if name in taken && !OneLine(name) && name + " (1)" in taken then Err(Conflict)
                    else Ok(f)
  {
    if LiveFolder(t.folders, f) {
      MovedNameTaken(t.folders, f, target);
    }
  }

  lemma MovedNameTaken(fs: FolderTable, f: Id, target: Option<Id>)
    requires f in fs
    ensures var name := fs[f].name;
            var siblings := FolderSiblings(fs, fs[f].room, target, Some(f));
            var taken := set i | i in fs && fs[i].live && fs[i].room == fs[f].room
                                 && fs[i].parent == target && i != f :: fs[i].name;
            ResolvedName(name, siblings, false) in siblings
            <==> name in taken && !OneLine(name) && name + " (1)" in taken
  {
    var siblings := FolderSiblings(fs, fs[f].room, target, Some(f));
    FolderNameTaken(fs[f].name, siblings);
    ResolvedTaken(fs[f].name, siblings, false);
    assert siblings == set i | i in fs && fs[i].live && fs[i].room == fs[f].room
                               && fs[i].parent == target && i != f :: fs[i].name;
  }

  /**
   Moving a folder: only its parent and name change, and the paths; every live path is again
   the one that the links spell, and deleted rows stay as they are.
   */
  lemma MoveFolderRelinks(t: Snapshot, f: Id, target: Option<Id>)
    requires Inv(t) && MoveFolder(t, f, target).result.Ok?
    ensures f in t.folders
    ensures var u, fs := MoveFolder(t, f, target).rows, t.folders;
            var taken := set i | i in fs && fs[i].live && fs[i].room == fs[f].room
                                 && fs[i].parent == target && i != f :: fs[i].name;
            && u.rooms == t.rooms && u.files == t.files && u.shares == t.shares && u.folders.Keys == fs.Keys
            && u.folders[f].parent == target && u.folders[f].name == ResolvedName(fs[f].name, taken, false)
            && u.folders[f].name !in taken && (fs[f].name !in taken ==> u.folders[f].name == fs[f].name)
            && (forall i :: i in fs ==>
                  && u.folders[i].room == fs[i].room && u.folders[i].live == fs[i].live
                  && (i != f ==> u.folders[i].parent == fs[i].parent && u.folders[i].name == fs[i].name)
                  && (if fs[i].live then u.folders[i].path == LinkPath(u.folders, i) else u.folders[i] == fs[i]))
  {
    var fs := t.folders;
    var siblings := FolderSiblings(fs, fs[f].room, target, Some(f));
    FolderNameTaken(fs[f].name, siblings);
    assert siblings == set i | i in fs && fs[i].live && fs[i].room == fs[f].room
                               && fs[i].parent == target && i != f :: fs[i].name;
    var gs, name := Moves.AcceptedMove(t, f, target);
    MovedColumns(fs, gs, f, target, name);
  }

  lemma MovedColumns(fs: FolderTable, gs: FolderTable, f: Id, target: Option<Id>, name: string)
    requires BranchMoved(fs, gs, f, target, name) && TreeOk(gs)
    ensures gs[f].parent == target
    ensures forall i :: i in fs ==>
              && gs[i].room == fs[i].room && gs[i].live == fs[i].live
              && (i != f ==> gs[i].parent == fs[i].parent && gs[i].name == fs[i].name)
              && (if fs[i].live then gs[i].path == LinkPath(gs, i) else gs[i] == fs[i])
  {
    forall i | i in fs
      ensures gs[i].room == fs[i].room && gs[i].live == fs[i].live
      ensures i != f ==> gs[i].parent == fs[i].parent && gs[i].name == fs[i].name
      ensures if fs[i].live then gs[i].path == LinkPath(gs, i) else gs[i] == fs[i]
    {
      assert RowMoved(fs, gs, f, target, name, i);
      if fs[i].live {
        PathIsLinkPath(gs, i);
      }
    }
  }

  /** Deleting a folder ends the life of the folders that reach it and of the files in them, and of nothing else. */
  lemma DeleteFolderOutcome(t: Snapshot, f: Id)
    ensures var out, fs, files := DeleteFolder(t, f), t.folders, t.files;
            if !(f in fs && fs[f].live) then out == Reject(t, NotFound)
            else
              && out.result == Ok(f) && out.rows.rooms == t.rooms && out.rows.shares == t.shares
              && out.rows.folders.Keys == fs.Keys && out.rows.files.Keys == files.Keys
              && (forall i :: i in fs ==>
                    out.rows.folders[i] == fs[i].(live := fs[i].live && !Reaches(fs, i, f)))
              && (forall x :: x in files ==>
                    out.rows.files[x]
                    == files[x].(live := files[x].live
                                         && !(files[x].folder.Some? && files[x].folder.value in fs
                                              && fs[files[x].folder.value].live
                                              && Reaches(fs, files[x].folder.value, f))))
  {
  }

  // ---- rooms ----

  /** Creating a room adds one live room that belongs to its creator. */
  lemma CreateRoomOutcome(t: Snapshot, owner: Id, id: Id)
    requires Unused(t, id)
    ensures var out := CreateRoom(t, owner, id);
            && out.result == Ok(id) && id !in t.rooms && out.rows.rooms.Keys == t.rooms.Keys + {id}
            && out.rows.rooms[id].live && out.rows.rooms[id].owner == owner
            && (forall r :: r in t.rooms ==> out.rows.rooms[r] == t.rooms[r])
            && out.rows.folders == t.folders && out.rows.files == t.files && out.rows.shares == t.shares
  {
  }

  /** Creator and owner are one: after creating a room its creator may open it as Owner, and nobody else at all. */
  lemma CreatorOwnsRoom(t: Snapshot, owner: Id, id: Id, actor: Option<Actor>, token: Option<string>, now: int)
    requires Inv(t) && Unused(t, id)
    ensures Inv(CreateRoom(t, owner, id).rows)
    ensures DecisionFor(CreateRoom(t, owner, id).rows, Resource(DataRoomType, id), actor, token, now)
            == if actor.Some? && actor.value.id == owner then Some(Decision(Owner, None)) else None
  {
    var u, n := CreateRoom(t, owner, id).rows, Resource(DataRoomType, id);
    Preservation.CreateRoomKeepsInv(t, owner, id);
    assert NodeChain(u, n) == [id];
    forall s | s in t.shares ensures t.shares[s].resource != id {
      assert ShareTargetExists(t, t.shares[s]);
    }
    TopmostIs([id], GrantedIds(u, actor, token, now), None);
  }

  /** Deleting a room is answered with its id if it is live, and with 404 otherwise. */
  lemma DeleteRoomAnswers(t: Snapshot, room: Id)
    ensures DeleteRoom(t, room).result
            == if room in t.rooms && t.rooms[room].live then Ok(room) else Err(NotFound)
    ensures DeleteRoom(t, room).result.Err? ==> DeleteRoom(t, room).rows == t
  {
  }

  // ---- files ----

  /** Confirming an upload: the answer. */
  lemma ConfirmAnswers(t: Snapshot, u: Upload, stored: Head, id: Id)
    ensures var out, fs := Confirm(t, u, stored, id), t.folders;
            var taken := set x | x in t.files && t.files[x].live && t.files[x].room == u.room
                                 && t.files[x].folder == u.folder :: t.files[x].name;
            var parts := SplitName(u.name, true);
            && (out.result.Err? ==> out.rows == t)
            && out.result
               == if u.folder.Some? && !(u.folder.value in fs && fs[u.folder.value].live
                                         && fs[u.folder.value].room == u.room) then Err(NotFound)
                  else if u.size > u.maxSize then Err(TooLarge)
                  else if !u.typeAllowed then Err(UnsupportedType)
                  else if !(u.room + "/" <= u.key) then Err(ForeignKey)
                  else if stored == None then Err(NoObject)
                  else if stored.value != None && stored.value != Some(u.size) then Err(SizeMismatch)
                  else if exists x :: x in t.files && t.files[x].key == u.key then Err(Conflict)
                  else if u.name in taken && parts.base + " (1)" + parts.extension in taken
                          && (!OneLine(parts.base) || (|u.name| >= 2 && u.name[|u.name| - 1] == '.'))
                  then Err(Conflict)
                  else Ok(id)
  {
    var siblings := FileSiblings(t.files, u.room, u.folder, None);
    FileNameTaken(u.name, siblings);
    ResolvedTaken(u.name, siblings, true);
    assert siblings == set x | x in t.files && t.files[x].live && t.files[x].room == u.room
                               && t.files[x].folder == u.folder :: t.files[x].name;
  }

  /** Confirming an upload: the one new row, with the wanted name or a free one. */
  lemma ConfirmAdds(t: Snapshot, u: Upload, stored: Head, id: Id)
    requires Unused(t, id) && Confirm(t, u, stored, id).result.Ok?
    ensures var v := Confirm(t, u, stored, id).rows;
            var taken := set x | x in t.files && t.files[x].live && t.files[x].room == u.room
                                 && t.files[x].folder == u.folder :: t.files[x].name;
            && v.rooms == t.rooms && v.folders == t.folders && v.shares == t.shares
            && id !in t.files && v.files.Keys == t.files.Keys + {id}
            && (forall x :: x in t.files ==> v.files[x] == t.files[x])
            && var row := v.files[id];
               && row.live && row.room == u.room && row.folder == u.folder && row.size == u.size && row.key == u.key
               && row.name == ResolvedName(u.name, taken, true) && row.name !in taken
               && (u.name !in taken ==> row.name == u.name)
  {
    var siblings := FileSiblings(t.files, u.room, u.folder, None);
    FileNameTaken(u.name, siblings);
    assert siblings == set x | x in t.files && t.files[x].live && t.files[x].room == u.room
                               && t.files[x].folder == u.folder :: t.files[x].name;
  }

  /** Moving a file gives it the folder and its own name, or a free one, and changes nothing else. */
  lemma MoveFileOutcome(t: Snapshot, x: Id, folder: Option<Id>)
    ensures var out, files := MoveFile(t, x, folder), t.files;
            && (out.result.Err? ==> out.rows == t)
            && if !(x in files && files[x].live) then out.result == Err(NotFound)
               else if folder.Some? && !(folder.value in t.folders && t.folders[folder.value].live
                                         && t.folders[folder.value].room == files[x].room)
               then out.result == Err(NotFound)
               else
                 var parts := SplitName(files[x].name, true);
                 var taken := set y | y in files && files[y].live && files[y].room == files[x].room
                                      && files[y].folder == folder && y != x :: files[y].name;
                 FilePlaced(t, x, folder, files[x].name, parts, taken, out)
  {
    if LiveFile(t.files, x) {
      PlacedFile(t, x, folder, t.files[x].name);
    }
  }

  /** Renaming a file gives it the wanted name, or a free one, and changes nothing else. */
  lemma RenameFileOutcome(t: Snapshot, x: Id, desiredName: string)
    ensures var out, files := RenameFile(t, x, desiredName), t.files;
            && (out.result.Err? ==> out.rows == t)
            && if !(x in files && files[x].live) then out.result == Err(NotFound)
               else
                 var parts := SplitName(desiredName, true);
                 var taken := set y | y in files && files[y].live && files[y].room == files[x].room
                                      && files[y].folder == files[x].folder && y != x :: files[y].name;
                 FilePlaced(t, x, files[x].folder, desiredName, parts, taken, out)
  {
    if LiveFile(t.files, x) {
      PlacedFile(t, x, t.files[x].folder, desiredName);
    }
  }

  /** The conflict, or the row with the folder and a name that no sibling has. */
  ghost predicate FilePlaced(
    t: Snapshot, x: Id, folder: Option<Id>, desiredName: string, parts: Parts, taken: set<string>, out: Outcome)
    requires x in t.files
  {
    if desiredName in taken && parts.base + " (1)" + parts.extension in taken
       && (!OneLine(parts.base) || (|desiredName| >= 2 && desiredName[|desiredName| - 1] == '.'))
    then out.result == Err(Conflict)
    else
      var name := ResolvedName(desiredName, taken, true);
      && out == Accept(t.(files := t.files[x := t.files[x].(folder := folder, name := name)]), x)
      && name !in taken && (desiredName !in taken ==> name == desiredName)
  }

  lemma PlacedFile(t: Snapshot, x: Id, folder: Option<Id>, desiredName: string)
    requires LiveFile(t.files, x)
    ensures var taken := set y | y in t.files && t.files[y].live && t.files[y].room == t.files[x].room
                                 && t.files[y].folder == folder && y != x :: t.files[y].name;
            FilePlaced(t, x, folder, desiredName, SplitName(desiredName, true), taken,
                       PlaceFile(t, x, folder, desiredName))
  {
    var siblings := FileSiblings(t.files, t.files[x].room, folder, Some(x));
    FileNameTaken(desiredName, siblings);
    ResolvedTaken(desiredName, siblings, true);
    assert siblings == set y | y in t.files && t.files[y].live && t.files[y].room == t.files[x].room
                               && t.files[y].folder == folder && y != x :: t.files[y].name;
  }

  /** Deleting a file ends its life, and changes nothing else. */
  lemma DeleteFileOutcome(t: Snapshot, x: Id)
    ensures var out := DeleteFile(t, x);
            if !(x in t.files && t.files[x].live) then out == Reject(t, NotFound)
            else
              && out.result == Ok(x) && out.rows.files.Keys == t.files.Keys
              && !LiveFile(out.rows.files, x) && out.rows.files[x].(live := true) == t.files[x]
              && (forall y :: y in t.files && y != x ==> out.rows.files[y] == t.files[y])
              && out.rows.rooms == t.rooms && out.rows.folders == t.folders && out.rows.shares == t.shares
  {
  }

  // ---- shares ----

  /** Revoking: 404 if the share is gone or not the actor's to see, 403 for anyone but the owner of the room. */
  lemma RevokeOutcome(t: Snapshot, s: Id, actor: Actor, now: int)
    requires Inv(t) && s in t.shares
    ensures var n := Resource(t.shares[s].resourceType, t.shares[s].resource);
            var out := RevokeShare(t, s, RevokeDecision(t, s, actor, now));
            if t.shares[s].revoked || DecisionFor(t, n, Some(actor), None, now).None? then out == Reject(t, NotFound)
            else
              && LiveResource(t, n) && RoomOf(t, n) in t.rooms
              && if t.rooms[RoomOf(t, n)].owner != actor.id then out == Reject(t, Forbidden)
                 else
                   && out.result == Ok(s) && out.rows.shares.Keys == t.shares.Keys
                   && out.rows.shares[s].revoked && out.rows.shares[s].(revoked := false) == t.shares[s]
                   && (forall r :: r in t.shares && r != s ==> out.rows.shares[r] == t.shares[r])
                   && out.rows.rooms == t.rooms && out.rows.folders == t.folders && out.rows.files == t.files
  {
    var n := Resource(t.shares[s].resourceType, t.shares[s].resource);
    if LiveResource(t, n) {
      OwnerIsRoomOwner(t, n, Some(actor), None, now);
    }
  }
}
