/** The rows of the five tables, and the database object the services update in place. */
module Tables {
  import opened Base

  datatype Room = Room(owner: Id, live: bool)

  /** `parent` is the truth, `path` is the redundant index. */
  datatype Folder = Folder(room: Id, parent: Option<Id>, name: string, path: string, live: bool)

  datatype File = File(room: Id, folder: Option<Id>, name: string, size: nat, key: string, live: bool)

  datatype ResourceType = DataRoomType | FolderType | FileType

  datatype ShareKind = UserShare | PublicLink

  /** share_role_enum has one value. */
  datatype ShareRole = ViewerShare

  /** `resource` is polymorphic: its table is the one `resourceType` names. */
  datatype Share = Share(
    resourceType: ResourceType, resource: Id, kind: ShareKind, role: ShareRole,
    granteeUser: Option<Id>, granteeEmail: Option<string>, token: Option<string>,
    createdAt: int, expiresAt: Option<int>, revoked: bool)

  type FolderTable = map<Id, Folder>
  type FileTable = map<Id, File>

  datatype Snapshot = Snapshot(
    rooms: map<Id, Room>, folders: FolderTable, files: FileTable, shares: map<Id, Share>)

  class Database {
    var rooms: map<Id, Room>
    var folders: FolderTable
    var files: FileTable
    var shares: map<Id, Share>

    constructor ()
      ensures Rows() == Snapshot(map[], map[], map[], map[])
    {
      rooms, folders, files, shares := map[], map[], map[], map[];
    }

    function Rows(): Snapshot
      reads this
    {
      Snapshot(rooms, folders, files, shares)
    }
  }

  predicate LiveFolder(fs: FolderTable, i: Id) {
    i in fs && fs[i].live
  }

  predicate LiveFile(files: FileTable, i: Id) {
    i in files && files[i].live
  }

  predicate LiveRoom(rooms: map<Id, Room>, i: Id) {
    i in rooms && rooms[i].live
  }

  /** A parent reference that `getFolderOrFail` accepts: the room root or a live folder of the room. */
  predicate ValidParent(fs: FolderTable, room: Id, parent: Option<Id>) {
    parent.Some? ==> LiveFolder(fs, parent.value) && fs[parent.value].room == room
  }

  /** The rows of a query without ORDER BY, in some order. */
  method AnyOrder<T>(rows: set<T>) returns (list: seq<T>)
    ensures |list| == |rows| && (forall x :: x in list <==> x in rows)
    ensures forall j, k :: 0 <= j < k < |list| ==> list[j] != list[k]
  {
    list := [];
    var rest := rows;
    while rest != {}
      invariant rest <= rows && |list| + |rest| == |rows|
      invariant forall x :: x in list <==> x in rows - rest
      invariant forall j, k :: 0 <= j < k < |list| ==> list[j] != list[k]
      decreases rest
    {
      var x :| x in rest;
      assert x !in list;
      list, rest := list + [x], rest - {x};
      assert x in list && x in rows - rest;
    }
  }
}
