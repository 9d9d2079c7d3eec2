/**
 When does a request end in a name conflict? The services promise to resolve every conflict
 with a suffix; these lemmas say exactly when that promise fails.
 */
module Conflicts {
  import opened Base
  import opened Tables
  import opened Tree
  import opened Integrity
  import opened NameConflict
  import opened Steps

  /** Creating a folder conflicts only for a name with a line terminator. */
  lemma CreateFolderConflict(t: Snapshot, room: Id, parent: Option<Id>, desiredName: string, id: Id)
    requires TreeOk(t.folders)
    ensures var siblings := FolderSiblings(t.folders, room, parent, None);
            CreateFolder(t, room, parent, desiredName, id).result == Err(Conflict)
            <==> LiveRoom(t.rooms, room) && ValidParent(t.folders, room, parent)
                 && |ParentChain(t.folders, parent)| + 1 <= 20
                 && Unresolvable(desiredName, siblings, false)
    ensures CreateFolder(t, room, parent, desiredName, id).result == Err(Conflict) ==> !OneLine(desiredName)
  {
    ResolvedTaken(desiredName, FolderSiblings(t.folders, room, parent, None), false);
  }

  lemma RenameFolderConflict(t: Snapshot, f: Id, desiredName: string)
    requires LiveFolder(t.folders, f)
    ensures RenameFolder(t, f, desiredName).result == Err(Conflict)
            <==> Unresolvable(
                   desiredName, FolderSiblings(t.folders, t.folders[f].room, t.folders[f].parent, Some(f)), false)
  {
    ResolvedTaken(desiredName, FolderSiblings(t.folders, t.folders[f].room, t.folders[f].parent, Some(f)), false);
  }

  lemma MoveFolderConflict(t: Snapshot, f: Id, target: Option<Id>)
    requires TreeOk(t.folders) && LiveFolder(t.folders, f) && ValidParent(t.folders, t.folders[f].room, target)
    ensures var name := t.folders[f].name;
            MoveFolder(t, f, target).result == Err(Conflict)
            <==> (target.Some? ==> !Reaches(t.folders, target.value, f))
                 && !SomeoneTooDeep(t.folders, f, target)
                 && Unresolvable(name, FolderSiblings(t.folders, t.folders[f].room, target, Some(f)), false)
  {
    ResolvedTaken(t.folders[f].name, FolderSiblings(t.folders, t.folders[f].room, target, Some(f)), false);
  }

  /** Renaming or moving a file conflicts for a line terminator in the base or a dot at the end. */
  lemma PlaceFileConflict(t: Snapshot, x: Id, folder: Option<Id>, desiredName: string)
    requires LiveFile(t.files, x)
    ensures PlaceFile(t, x, folder, desiredName).result == Err(Conflict)
            <==> Unresolvable(desiredName, FileSiblings(t.files, t.files[x].room, folder, Some(x)), true)
    ensures PlaceFile(t, x, folder, desiredName).result == Err(Conflict) ==>
              !OneLine(SplitName(desiredName, true).base) || TrailingDot(desiredName)
  {
    ResolvedTaken(desiredName, FileSiblings(t.files, t.files[x].room, folder, Some(x)), true);
  }

  /** Confirm conflicts for such a name, or for a storage key that some row, even a deleted one, has. */
  lemma ConfirmConflict(t: Snapshot, u: Upload, stored: Head, id: Id)
    requires ValidParent(t.folders, u.room, u.folder) && UploadError(u, stored).None?
    ensures Confirm(t, u, stored, id).result == Err(Conflict)
            <==> (exists x :: x in t.files && t.files[x].key == u.key)
                 || Unresolvable(u.name, FileSiblings(t.files, u.room, u.folder, None), true)
  {
    ResolvedTaken(u.name, FileSiblings(t.files, u.room, u.folder, None), true);
  }
}
