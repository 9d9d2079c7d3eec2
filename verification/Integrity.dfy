/** The state invariant of the store and the unique indexes of the schema. */
module Integrity {
  import opened Base
  import opened Tables
  import opened Paths
  import opened Tree

  /**
   Two rows fall under one unique index entry: same parent, and for rows at a room
   root, where the parent is NULL, the same room.
   */
  predicate SamePlace(room: Id, parent: Option<Id>, room': Id, parent': Option<Id>) {
    parent == parent' && (parent.None? ==> room == room')
  }

  predicate FolderClash(fs: FolderTable, i: Id, j: Id)
    requires i in fs && j in fs
  {
    && i != j && fs[i].live && fs[j].live && fs[i].name == fs[j].name
    && SamePlace(fs[i].room, fs[i].parent, fs[j].room, fs[j].parent)
  }

  predicate FileClash(files: FileTable, i: Id, j: Id)
    requires i in files && j in files
  {
    && i != j && files[i].live && files[j].live && files[i].name == files[j].name
    && SamePlace(files[i].room, files[i].folder, files[j].room, files[j].folder)
  }

  /** uq_folders_parent_name and uq_folders_room_root_name */
  predicate UniqueFolderNames(fs: FolderTable) {
    forall i, j | i in fs && j in fs :: !FolderClash(fs, i, j)
  }

  /** uq_files_folder_name and uq_files_room_root_name */
  predicate UniqueFileNames(files: FileTable) {
    forall i, j | i in files && j in files :: !FileClash(files, i, j)
  }

  /** uq_files_storage_key covers deleted rows too. */
  predicate UniqueKeys(files: FileTable) {
    forall i, j | i in files && j in files :: i != j ==> files[i].key != files[j].key
  }

  ghost predicate FoldersInLiveRooms(rooms: map<Id, Room>, fs: FolderTable) {
    forall i :: LiveFolder(fs, i) ==> LiveRoom(rooms, fs[i].room)
  }

  ghost predicate DepthLimited(fs: FolderTable) {
    forall i {:trigger DepthOf(fs, i)} :: LiveFolder(fs, i) ==> DepthOf(fs, i) <= MAX_FOLDER_DEPTH
  }

  function DepthOf(fs: FolderTable, i: Id): nat
    requires i in fs
  {
    Depth(Some(fs[i].path))
  }

  lemma ChainLimited(fs: FolderTable, i: Id)
    requires TreeOk(fs) && DepthLimited(fs) && LiveFolder(fs, i)
    ensures |Chain(fs, i)| <= MAX_FOLDER_DEPTH
  {
    PathTestsAreReachability(fs, i, i);
    assert DepthOf(fs, i) <= MAX_FOLDER_DEPTH;
  }

  ghost predicate FilesPlaced(rooms: map<Id, Room>, fs: FolderTable, files: FileTable) {
    forall i :: LiveFile(files, i) ==>
                  LiveRoom(rooms, files[i].room) && ValidParent(fs, files[i].room, files[i].folder)
  }

  ghost predicate IdsDistinct(t: Snapshot) {
    t.rooms.Keys !! t.folders.Keys !! t.files.Keys
  }

  ghost predicate ShareTargetExists(t: Snapshot, s: Share) {
    match s.resourceType
    case DataRoomType => s.resource in t.rooms
    case FolderType => s.resource in t.folders
    case FileType => s.resource in t.files
  }

  ghost predicate SharesTyped(t: Snapshot) {
    forall s :: s in t.shares ==> ShareTargetExists(t, t.shares[s])
  }

  ghost predicate Inv(t: Snapshot) {
    && IdsDistinct(t)
    && TreeOk(t.folders)
    && FoldersInLiveRooms(t.rooms, t.folders)
    && DepthLimited(t.folders)
    && UniqueFolderNames(t.folders)
    && FilesPlaced(t.rooms, t.folders, t.files)
    && UniqueFileNames(t.files)
    && UniqueKeys(t.files)
    && SharesTyped(t)
  }

  /** An id that randomUUID may return: used in no table so far. */
  predicate Unused(t: Snapshot, id: Id) {
    id !in t.rooms && id !in t.folders && id !in t.files && id !in t.shares
  }

  /** The names the sibling query of a folder sees. */
  function FolderSiblings(fs: FolderTable, room: Id, parent: Option<Id>, exclude: Option<Id>): set<string> {
    set i | i in fs && fs[i].live && fs[i].room == room && fs[i].parent == parent && Some(i) != exclude
      :: fs[i].name
  }

  /** The names the sibling query of a file sees. */
  function FileSiblings(files: FileTable, room: Id, folder: Option<Id>, exclude: Option<Id>): set<string> {
    set i | i in files && files[i].live && files[i].room == room && files[i].folder == folder && Some(i) != exclude
      :: files[i].name
  }

  /** The only row whose place or name may differ is `f`. */
  predicate SamePlacesExcept(fs: FolderTable, gs: FolderTable, f: Id) {
    forall i | i in gs && i != f ::
      i in fs && gs[i].live == fs[i].live && gs[i].name == fs[i].name
      && gs[i].room == fs[i].room && gs[i].parent == fs[i].parent
  }

  /**
   The unique indexes accept a change of one folder row exactly when the sibling query
   at its new place does not return its new name.
   */
  lemma FolderIndexIsSiblingQuery(fs: FolderTable, gs: FolderTable, f: Id)
    requires TreeOk(fs) && UniqueFolderNames(fs) && SamePlacesExcept(fs, gs, f)
    requires fs.Keys <= gs.Keys && LiveFolder(gs, f)
    requires ValidParent(fs, gs[f].room, gs[f].parent)
    ensures UniqueFolderNames(gs)
            <==> gs[f].name !in FolderSiblings(fs, gs[f].room, gs[f].parent, Some(f))
  {
    var siblings := FolderSiblings(fs, gs[f].room, gs[f].parent, Some(f));
    if gs[f].name in siblings {
      var j :| j in fs && fs[j].live && fs[j].room == gs[f].room && fs[j].parent == gs[f].parent
               && j != f && fs[j].name == gs[f].name;
      assert FolderClash(gs, f, j);
    } else {
      forall i, j | i in gs && j in gs ensures !FolderClash(gs, i, j) {
        if i != f && j != f {
          assert !FolderClash(fs, i, j);
        } else if i != j {
          var k := if i == f then j else i;
          if gs[k].live && SamePlace(gs[f].room, gs[f].parent, gs[k].room, gs[k].parent) {
            assert Anchored(fs, k);
            assert fs[k].name in siblings;
          }
        }
      }
    }
  }

  lemma FolderInsertCheck(fs: FolderTable, gs: FolderTable, id: Id)
    requires TreeOk(fs) && UniqueFolderNames(fs) && id !in fs && LiveFolder(gs, id)
    requires gs == fs[id := gs[id]] && ValidParent(fs, gs[id].room, gs[id].parent)
    ensures UniqueFolderNames(gs) <==> gs[id].name !in FolderSiblings(fs, gs[id].room, gs[id].parent, None)
  {
    FolderIndexIsSiblingQuery(fs, gs, id);
    assert FolderSiblings(fs, gs[id].room, gs[id].parent, Some(id))
        == FolderSiblings(fs, gs[id].room, gs[id].parent, None);
  }

  predicate SameFilePlacesExcept(files: FileTable, gs: FileTable, f: Id) {
    forall i | i in gs && i != f :: i in files && gs[i] == files[i]
  }

  lemma FileIndexIsSiblingQuery(
    rooms: map<Id, Room>, fs: FolderTable, files: FileTable, gs: FileTable, f: Id)
    requires FilesPlaced(rooms, fs, files) && UniqueFileNames(files) && SameFilePlacesExcept(files, gs, f)
    requires files.Keys <= gs.Keys && LiveFile(gs, f)
    requires ValidParent(fs, gs[f].room, gs[f].folder)
    ensures UniqueFileNames(gs)
            <==> gs[f].name !in FileSiblings(files, gs[f].room, gs[f].folder, Some(f))
  {
  }

  lemma FileInsertCheck(t: Snapshot, gs: FileTable, id: Id)
    requires Inv(t) && id !in t.files && LiveFile(gs, id) && gs == t.files[id := gs[id]]
    requires ValidParent(t.folders, gs[id].room, gs[id].folder)
    ensures UniqueFileNames(gs) <==> gs[id].name !in FileSiblings(t.files, gs[id].room, gs[id].folder, None)
    ensures UniqueKeys(gs) <==> !exists x :: x in t.files && t.files[x].key == gs[id].key
  {
    FileIndexIsSiblingQuery(t.rooms, t.folders, t.files, gs, id);
    assert FileSiblings(t.files, gs[id].room, gs[id].folder, Some(id))
        == FileSiblings(t.files, gs[id].room, gs[id].folder, None);
    if x :| x in t.files && t.files[x].key == gs[id].key {
      assert gs[x].key == gs[id].key;
    }
  }
}
