/** The room requests that touch the tree. */
module DataRoomsService {
  import opened Base
  import opened Tables
  import opened Integrity
  import opened Steps
  import opened Preservation

  method GetActiveRoom(db: Database, room: Id) returns (r: Result<Room>)
    ensures r == if LiveRoom(db.rooms, room) then Ok(db.rooms[room]) else Err(NotFound)
  {
    if !LiveRoom(db.rooms, room) {
      return Err(NotFound);
    }
    r := Ok(db.rooms[room]);
  }

  method Create(db: Database, owner: Id, id: Id) returns (r: Result<Id>)
    requires Inv(db.Rows()) && Unused(db.Rows(), id)
    modifies db`rooms
    ensures Outcome(db.Rows(), r) == CreateRoom(old(db.Rows()), owner, id)
    ensures Inv(db.Rows())
  {
    CreateRoomKeepsInv(db.Rows(), owner, id);
    db.rooms := db.rooms[id := Room(owner, true)];
    r := Ok(id);
  }

  /** Three UPDATEs: files, folders, the room itself. Each touches live rows only. */
  method SoftDelete(db: Database, room: Id) returns (r: Result<Id>)
    requires Inv(db.Rows())
    modifies db`rooms, db`folders, db`files
    ensures Outcome(db.Rows(), r) == DeleteRoom(old(db.Rows()), room)
    ensures Inv(db.Rows())
  {
    DeleteRoomKeepsInv(db.Rows(), room);
    var active := GetActiveRoom(db, room);
    if active.Err? {
      return Err(active.error);
    }
    db.files := CloseFiles(db.files, room);
    db.folders := CloseFolders(db.folders, room);
    db.rooms := db.rooms[room := db.rooms[room].(live := false)];
    r := Ok(room);
  }

  /**
   After a room is deleted nothing live remains in it; every row of another room, live or
   deleted, is untouched, and so are the shares. Rows of the room change in nothing but life.
   */
  lemma DeletedRoomIsEmpty(t: Snapshot, room: Id)
    requires LiveRoom(t.rooms, room)
    ensures var u := DeleteRoom(t, room).rows;
            && u.rooms == t.rooms[room := t.rooms[room].(live := false)] && u.shares == t.shares
            && u.folders.Keys == t.folders.Keys && u.files.Keys == t.files.Keys
            && (forall i :: i in t.folders ==>
                  u.folders[i] == if t.folders[i].room == room then t.folders[i].(live := false) else t.folders[i])
            && (forall x :: x in t.files ==>
                  u.files[x] == if t.files[x].room == room then t.files[x].(live := false) else t.files[x])
            && (forall i :: LiveFolder(u.folders, i) <==> LiveFolder(t.folders, i) && t.folders[i].room != room)
            && (forall x :: LiveFile(u.files, x) <==> LiveFile(t.files, x) && t.files[x].room != room)
  {
  }
}
