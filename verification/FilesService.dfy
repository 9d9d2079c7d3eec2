/** The file requests. Storage is consulted through the `stored` parameter. */
module FilesService {
  import opened Base
  import opened Tables
  import opened Integrity
  import opened Steps
  import opened Preservation
  import Like
  import NameConflict
  import FoldersService

  method ResolveSiblingName(
    db: Database, room: Id, folder: Option<Id>, desiredName: string, exclude: Option<Id>)
    returns (name: string)
    ensures name == NameConflict.ResolvedName(
                      desiredName, FileSiblings(db.files, room, folder, exclude), true)
  {
    var pattern := NameConflict.BuildLikePattern(desiredName, true);
    var files := db.files;
    var rows := set i | i in files && files[i].live && files[i].room == room && files[i].folder == folder
                        && Some(i) != exclude && Like.Matches(files[i].name, pattern) :: files[i].name;
    var names := AnyOrder(rows);
    name := NameConflict.Resolve(desiredName, names, true);
    ghost var siblings := FileSiblings(files, room, folder, exclude);
    assert (set n | n in names) == rows == NameConflict.PreFiltered(desiredName, siblings, true);
    NameConflict.PreFilterHarmless(desiredName, siblings, true);
  }

  method AssertFolder(db: Database, room: Id, folder: Option<Id>) returns (r: Result<()>)
    ensures r == if ValidParent(db.folders, room, folder) then Ok(()) else Err(NotFound)
  {
    if folder.Some? {
      var found := FoldersService.GetFolderOrFail(db, folder.value, Some(room));
      if found.Err? {
        return Err(found.error);
      }
    }
    r := Ok(());
  }

  /**
   Issues a storage key; no row is written. The key passes the room test of confirm, and
   the promised name is the one confirm chooses if the siblings stay as they are.
   */
  method CreateUploadUrl(db: Database, u: Upload, uuid: Id) returns (r: Result<(string, string)>)
    ensures r == if !ValidParent(db.folders, u.room, u.folder) then Err(NotFound)
                 else if u.size > u.maxSize then Err(TooLarge)
                 else if !u.typeAllowed then Err(UnsupportedType)
                 else Ok((u.room + "/" + uuid,
                          NameConflict.ResolvedName(u.name, FileSiblings(db.files, u.room, u.folder, None), true)))
    ensures r.Ok? ==> UploadError(u.(key := r.value.0), Some(Some(u.size))) == None
  {
    var folder := AssertFolder(db, u.room, u.folder);
    if folder.Err? {
      return Err(folder.error);
    }
    if u.size > u.maxSize {
      return Err(TooLarge);
    }
    if !u.typeAllowed {
      return Err(UnsupportedType);
    }
    var name := ResolveSiblingName(db, u.room, u.folder, u.name, None);
    r := Ok((u.room + "/" + uuid, name));
  }

  method Confirm(db: Database, u: Upload, stored: Head, id: Id) returns (r: Result<Id>)
    requires Inv(db.Rows()) && Unused(db.Rows(), id) && LiveRoom(db.rooms, u.room)
    modifies db`files
    ensures Outcome(db.Rows(), r) == Steps.Confirm(old(db.Rows()), u, stored, id)
    ensures Inv(db.Rows())
  {
    ConfirmKeepsInv(db.Rows(), u, stored, id);
    var folder := AssertFolder(db, u.room, u.folder);
    if folder.Err? {
      return Err(folder.error);
    }
    if u.size > u.maxSize {
      return Err(TooLarge);
    }
    if !u.typeAllowed {
      return Err(UnsupportedType);
    }
    if !(u.room + "/" <= u.key) {
      return Err(ForeignKey);
    }
    if stored.None? {
      return Err(NoObject);
    }
    if stored.value.Some? && stored.value.value != u.size {
      return Err(SizeMismatch);
    }
    if stored.value.Some? && stored.value.value > u.maxSize {
      return Err(TooLarge);
    }
    var name := ResolveSiblingName(db, u.room, u.folder, u.name, None);
    var inserted := db.files[id := File(u.room, u.folder, name, u.size, u.key, true)];
    FileInsertCheck(db.Rows(), inserted, id);
    if !UniqueFileNames(inserted) || !UniqueKeys(inserted) {
      return Err(Conflict);
    }
    db.files := inserted;
    r := Ok(id);
  }

  method GetFileOrFail(db: Database, x: Id) returns (r: Result<File>)
    ensures r == if LiveFile(db.files, x) then Ok(db.files[x]) else Err(NotFound)
  {
    if !LiveFile(db.files, x) {
      return Err(NotFound);
    }
    r := Ok(db.files[x]);
  }

  method Rename(db: Database, x: Id, desiredName: string) returns (r: Result<Id>)
    requires Inv(db.Rows())
    modifies db`files
    ensures Outcome(db.Rows(), r) == RenameFile(old(db.Rows()), x, desiredName)
    ensures Inv(db.Rows())
  {
    RenameFileKeepsInv(db.Rows(), x, desiredName);
    var file := GetFileOrFail(db, x);
    if file.Err? {
      return Err(file.error);
    }
    var name := ResolveSiblingName(db, file.value.room, file.value.folder, desiredName, Some(x));
    var renamed := db.files[x := db.files[x].(name := name)];
    FileIndexIsSiblingQuery(db.rooms, db.folders, db.files, renamed, x);
    if !UniqueFileNames(renamed) {
      return Err(Conflict);
    }
    db.files := renamed;
    r := Ok(x);
  }

  method Move(db: Database, x: Id, folder: Option<Id>) returns (r: Result<Id>)
    requires Inv(db.Rows())
    modifies db`files
    ensures Outcome(db.Rows(), r) == MoveFile(old(db.Rows()), x, folder)
    ensures Inv(db.Rows())
  {
    MoveFileKeepsInv(db.Rows(), x, folder);
    var file := GetFileOrFail(db, x);
    if file.Err? {
      return Err(file.error);
    }
    var target := AssertFolder(db, file.value.room, folder);
    if target.Err? {
      return Err(target.error);
    }
    var name := ResolveSiblingName(db, file.value.room, folder, file.value.name, Some(x));
    var moved := db.files[x := db.files[x].(folder := folder, name := name)];
    FileIndexIsSiblingQuery(db.rooms, db.folders, db.files, moved, x);
    if !UniqueFileNames(moved) {
      return Err(Conflict);
    }
    db.files := moved;
    r := Ok(x);
  }

  /** Stamps the row and hands back the key whose object is to be removed afterwards. */
  method SoftDelete(db: Database, x: Id) returns (r: Result<Id>, remove: Option<string>)
    requires Inv(db.Rows())
    modifies db`files
    ensures Outcome(db.Rows(), r) == DeleteFile(old(db.Rows()), x)
    ensures Inv(db.Rows())
    ensures remove == if r.Ok? then Some(old(db.files)[x].key) else None
  {
    DeleteFileKeepsInv(db.Rows(), x);
    var file := GetFileOrFail(db, x);
    if file.Err? {
      return Err(file.error), None;
    }
    db.files := db.files[x := db.files[x].(live := false)];
    r, remove := Ok(x), Some(file.value.key);
  }
}
