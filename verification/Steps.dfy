/**
 What each request does to the rows, said with parent links only. The services do the
 same with path strings and LIKE, and are proved against these functions.
 */
module Steps {
  import opened Base
  import opened Tables
  import opened Paths
  import opened Tree
  import opened Integrity
  import opened NameConflict
  import opened Graft

  datatype Outcome = Outcome(rows: Snapshot, result: Result<Id>)

  /** A rejected request rolls back. */
  function Reject(t: Snapshot, error: Error): Outcome {
    Outcome(t, Err(error))
  }

  function Accept(t: Snapshot, id: Id): Outcome {
    Outcome(t, Ok(id))
  }

  // ---- folders ----

  ghost function CreateFolder(t: Snapshot, room: Id, parent: Option<Id>, desiredName: string, id: Id): (o: Outcome)
    requires TreeOk(t.folders)
    ensures o.rows == t.(folders := o.rows.folders)
  {
    var fs := t.folders;
    var siblings := FolderSiblings(fs, room, parent, None);
    var name := ResolvedName(desiredName, siblings, false);
    if !LiveRoom(t.rooms, room) || !ValidParent(fs, room, parent) then Reject(t, NotFound)
    else if |ParentChain(fs, parent)| + 1 > MAX_FOLDER_DEPTH then Reject(t, TooDeep)
    else if name in siblings then Reject(t, Conflict)
    else
      var row := Folder(room, parent, name, Render(ParentChain(fs, parent) + [id]), true);
      Accept(t.(folders := fs[id := row]), id)
  }

  ghost function RenameFolder(t: Snapshot, f: Id, desiredName: string): (o: Outcome)
    ensures o.rows == t.(folders := o.rows.folders)
  {
    var fs := t.folders;
    if !LiveFolder(fs, f) then Reject(t, NotFound)
    else
      var siblings := FolderSiblings(fs, fs[f].room, fs[f].parent, Some(f));
      var name := ResolvedName(desiredName, siblings, false);
      if name in siblings then Reject(t, Conflict)
      else Accept(t.(folders := fs[f := fs[f].(name := name)]), f)
  }

  /** Some live folder of the branch would sit deeper than the limit under the target. */
  ghost predicate SomeoneTooDeep(fs: FolderTable, f: Id, target: Option<Id>)
    requires TreeOk(fs) && LiveFolder(fs, f) && (target.Some? ==> LiveFolder(fs, target.value))
  {
    exists i :: InBranch(fs, i, f)
      && |ParentChain(fs, target)| + 1 + (|Chain(fs, i)| - |Chain(fs, f)|) > MAX_FOLDER_DEPTH
  }

  ghost function MoveFolder(t: Snapshot, f: Id, target: Option<Id>): (o: Outcome)
    requires TreeOk(t.folders)
    ensures o.rows == t.(folders := o.rows.folders)
  {
    var fs := t.folders;
    if !LiveFolder(fs, f) || !ValidParent(fs, fs[f].room, target) then Reject(t, NotFound)
    else if target.Some? && Reaches(fs, target.value, f) then Reject(t, Cycle)
    else if SomeoneTooDeep(fs, f, target) then Reject(t, TooDeep)
    else
      var siblings := FolderSiblings(fs, fs[f].room, target, Some(f));
      var name := ResolvedName(fs[f].name, siblings, false);
      if name in siblings then Reject(t, Conflict)
      else Accept(t.(folders := Grafted(fs, f, target, name)), f)
  }

  /** The live files that sit in a live folder of the branch. */
  ghost predicate FileInBranch(t: Snapshot, x: Id, f: Id) {
    LiveFile(t.files, x) && t.files[x].folder.Some? && InBranch(t.folders, t.files[x].folder.value, f)
  }

  ghost function DeleteFolder(t: Snapshot, f: Id): (o: Outcome)
    ensures o.rows == t.(folders := o.rows.folders, files := o.rows.files)
  {
    if !LiveFolder(t.folders, f) then Reject(t, NotFound)
    else
      var files := map x | x in t.files ::
          if FileInBranch(t, x, f) then t.files[x].(live := false) else t.files[x];
      var folders := map i | i in t.folders ::
          if InBranch(t.folders, i, f) then t.folders[i].(live := false) else t.folders[i];
      Accept(t.(folders := folders, files := files), f)
  }

  // ---- rooms ----

  function CreateRoom(t: Snapshot, owner: Id, id: Id): Outcome {
    Accept(t.(rooms := t.rooms[id := Room(owner, true)]), id)
  }

  /** UPDATE ... SET deleted_at WHERE data_room_id = room AND deleted_at IS NULL */
  function CloseFiles(files: FileTable, room: Id): FileTable {
    map x | x in files ::
      if files[x].room == room && files[x].live then files[x].(live := false) else files[x]
  }

  function CloseFolders(fs: FolderTable, room: Id): FolderTable {
    map i | i in fs :: if fs[i].room == room && fs[i].live then fs[i].(live := false) else fs[i]
  }

  function DeleteRoom(t: Snapshot, room: Id): Outcome {
    if !LiveRoom(t.rooms, room) then Reject(t, NotFound)
    else
      Accept(Snapshot(t.rooms[room := t.rooms[room].(live := false)],
                      CloseFolders(t.folders, room), CloseFiles(t.files, room), t.shares), room)
  }

  // ---- files ----

  /** The body of a confirm request, and what the configuration says about it. */
  datatype Upload = Upload(
    room: Id, folder: Option<Id>, name: string, size: nat, key: string,
    maxSize: nat, typeAllowed: bool)

  /** What storage reports about a key: no object, or an object whose size may be unknown. */
  type Head = Option<Option<nat>>

  function UploadError(u: Upload, stored: Head): Option<Error> {
    if u.size > u.maxSize then Some(TooLarge)
    else if !u.typeAllowed then Some(UnsupportedType)
    else if !(u.room + "/" <= u.key) then Some(ForeignKey)
    else if stored.None? then Some(NoObject)
    else if stored.value.Some? && stored.value.value != u.size then Some(SizeMismatch)
    else None
  }

  function Confirm(t: Snapshot, u: Upload, stored: Head, id: Id): (o: Outcome)
    ensures o.rows == t.(files := o.rows.files)
  {
    var siblings := FileSiblings(t.files, u.room, u.folder, None);
    var name := ResolvedName(u.name, siblings, true);
    if !ValidParent(t.folders, u.room, u.folder) then Reject(t, NotFound)
    else if UploadError(u, stored).Some? then Reject(t, UploadError(u, stored).value)
    else if name in siblings || exists x :: x in t.files && t.files[x].key == u.key then Reject(t, Conflict)
    else Accept(t.(files := t.files[id := File(u.room, u.folder, name, u.size, u.key, true)]), id)
  }

  /** Rename and move share this: give one live file a place and a name free there. */
  function PlaceFile(t: Snapshot, x: Id, folder: Option<Id>, desiredName: string): (o: Outcome)
    requires LiveFile(t.files, x)
    ensures o.rows == t.(files := o.rows.files)
  {
    var siblings := FileSiblings(t.files, t.files[x].room, folder, Some(x));
    var name := ResolvedName(desiredName, siblings, true);
    if name in siblings then Reject(t, Conflict)
    else Accept(t.(files := t.files[x := t.files[x].(folder := folder, name := name)]), x)
  }

  function RenameFile(t: Snapshot, x: Id, desiredName: string): (o: Outcome)
    ensures o.rows == t.(files := o.rows.files)
  {
    if !LiveFile(t.files, x) then Reject(t, NotFound)
    else PlaceFile(t, x, t.files[x].folder, desiredName)
  }

  function MoveFile(t: Snapshot, x: Id, folder: Option<Id>): (o: Outcome)
    ensures o.rows == t.(files := o.rows.files)
  {
    if !LiveFile(t.files, x) || !ValidParent(t.folders, t.files[x].room, folder) then Reject(t, NotFound)
    else PlaceFile(t, x, folder, t.files[x].name)
  }

  function DeleteFile(t: Snapshot, x: Id): (o: Outcome)
    ensures o.rows == t.(files := o.rows.files)
  {
    if !LiveFile(t.files, x) then Reject(t, NotFound)
    else Accept(t.(files := t.files[x := t.files[x].(live := false)]), x)
  }
}
