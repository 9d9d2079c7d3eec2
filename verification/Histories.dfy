/** Whole runs of the store: any sequence of requests, accepted or rejected. */
module Histories {
  import opened Base
  import opened Tables
  import opened Paths
  import opened Tree
  import opened Integrity
  import opened Access
  import opened AccessLaws
  import Like
  import Steps
  import Preservation

  datatype Request =
    | CreateRoom(owner: Id, id: Id)
    | DeleteRoom(room: Id)
    | CreateFolder(room: Id, parent: Option<Id>, name: string, id: Id)
    | RenameFolder(f: Id, name: string)
    | MoveFolder(f: Id, target: Option<Id>)
    | DeleteFolder(f: Id)
    | Confirm(upload: Steps.Upload, stored: Steps.Head, id: Id)
    | RenameFile(x: Id, name: string)
    | MoveFile(x: Id, folder: Option<Id>)
    | DeleteFile(x: Id)
    | Grant(share: Share, id: Id)
    | Revoke(s: Id, actor: Actor, now: int)

  /** Generated ids are fresh; the route guards of confirm and of share creation saw a live resource. */
  ghost predicate Admissible(t: Snapshot, r: Request) {
    match r
    case CreateRoom(_, id) => Unused(t, id)
    case CreateFolder(_, _, _, id) => Unused(t, id)
    case Confirm(u, _, id) => Unused(t, id) && LiveRoom(t.rooms, u.room)
    case Grant(share, id) => Unused(t, id) && LiveResource(t, Resource(share.resourceType, share.resource))
    case _ => true
  }

  ghost function Apply(t: Snapshot, r: Request): Snapshot
    requires Inv(t)
  {
    match r
    case CreateRoom(owner, id) => Steps.CreateRoom(t, owner, id).rows
    case DeleteRoom(room) => Steps.DeleteRoom(t, room).rows
    case CreateFolder(room, parent, name, id) => Steps.CreateFolder(t, room, parent, name, id).rows
    case RenameFolder(f, name) => Steps.RenameFolder(t, f, name).rows
    case MoveFolder(f, target) => Steps.MoveFolder(t, f, target).rows
    case DeleteFolder(f) => Steps.DeleteFolder(t, f).rows
    case Confirm(u, stored, id) => Steps.Confirm(t, u, stored, id).rows
    case RenameFile(x, name) => Steps.RenameFile(t, x, name).rows
    case MoveFile(x, folder) => Steps.MoveFile(t, x, folder).rows
    case DeleteFile(x) => Steps.DeleteFile(t, x).rows
    case Grant(share, id) => t.(shares := t.shares[id := share])
    case Revoke(s, actor, now) =>
      if s in t.shares then RevokeShare(t, s, RevokeDecision(t, s, actor, now)).rows else t
  }

  const EMPTY := Snapshot(map[], map[], map[], map[])

  lemma ApplyKeepsInv(t: Snapshot, r: Request)
    requires Inv(t) && Admissible(t, r)
    ensures Inv(Apply(t, r))
  {
    match r
    case CreateRoom(owner, id) => Preservation.CreateRoomKeepsInv(t, owner, id);
    case DeleteRoom(room) => Preservation.DeleteRoomKeepsInv(t, room);
    case CreateFolder(room, parent, name, id) => Preservation.CreateFolderKeepsInv(t, room, parent, name, id);
    case RenameFolder(f, name) => Preservation.RenameFolderKeepsInv(t, f, name);
    case MoveFolder(f, target) => Preservation.MoveFolderKeepsInv(t, f, target);
    case DeleteFolder(f) => Preservation.DeleteFolderKeepsInv(t, f);
    case Confirm(u, stored, id) => Preservation.ConfirmKeepsInv(t, u, stored, id);
    case RenameFile(x, name) => Preservation.RenameFileKeepsInv(t, x, name);
    case MoveFile(x, folder) => Preservation.MoveFileKeepsInv(t, x, folder);
    case DeleteFile(x) => Preservation.DeleteFileKeepsInv(t, x);
    case Grant(share, id) => GrantKeepsInv(t, share, id);
    case Revoke(s, actor, now) =>
      if s in t.shares {
        RevokeKeepsInv(t, s, RevokeDecision(t, s, actor, now));
      }
  }

  lemma GrantKeepsInv(t: Snapshot, share: Share, id: Id)
    requires Inv(t) && LiveResource(t, Resource(share.resourceType, share.resource))
    ensures Inv(t.(shares := t.shares[id := share]))
  {
  }

  /** Steps is only defined on states that satisfy the invariant; the theorem shows all do. */
  ghost predicate StepAt(states: seq<Snapshot>, requests: seq<Request>, j: nat)
    requires j < |requests| && |states| == |requests| + 1
  {
    Inv(states[j]) ==> Admissible(states[j], requests[j]) && states[j + 1] == Apply(states[j], requests[j])
  }

  ghost predicate IsHistory(states: seq<Snapshot>, requests: seq<Request>) {
    && |states| == |requests| + 1 && states[0] == EMPTY
    && forall j :: 0 <= j < |requests| ==> StepAt(states, requests, j)
  }

  /** The invariant holds after every history from the empty store. */
  lemma {:induction false} HistoriesKeepInv(states: seq<Snapshot>, requests: seq<Request>, n: nat)
    requires IsHistory(states, requests) && n < |states|
    ensures Inv(states[n])
  {
    if n == 0 {
    } else {
      HistoriesKeepInv(states, requests, n - 1);
      assert StepAt(states, requests, n - 1);
      ApplyKeepsInv(states[n - 1], requests[n - 1]);
    }
  }

  /**
   Every live folder of every reachable state: its path extends its parent's, and is the
   path that the parent links spell; parent and room are live and agree; no link path leads
   back to it; it is at most 20 deep; no live sibling has its name.
   */
  lemma ReachableFolders(states: seq<Snapshot>, requests: seq<Request>, n: nat, i: Id)
    requires IsHistory(states, requests) && n < |states| && LiveFolder(states[n].folders, i)
    ensures var t := states[n];
            var fs, row := t.folders, t.folders[i];
            && ValidParent(fs, row.room, row.parent) && LiveRoom(t.rooms, row.room)
            && row.path == BuildChildPath(ParentPath(fs, row.parent), i) == LinkPath(fs, i)
            && (forall m: nat :: m > 0 ==> Ancestor(fs, i, m) != Some(i))
            && (exists c :: Lineage(fs, i, c) && |c| <= 20)
            && (forall j: Id :: LiveFolder(fs, j) && j != i && fs[j].room == row.room && fs[j].parent == row.parent ==>
                  fs[j].name != row.name)
  {
    HistoriesKeepInv(states, requests, n);
    FolderFacts(states[n], i);
  }

  lemma FolderFacts(t: Snapshot, i: Id)
    requires Inv(t) && LiveFolder(t.folders, i)
    ensures var fs, row := t.folders, t.folders[i];
            && ValidParent(fs, row.room, row.parent) && LiveRoom(t.rooms, row.room)
            && row.path == BuildChildPath(ParentPath(fs, row.parent), i) == LinkPath(fs, i)
            && (forall m: nat :: m > 0 ==> Ancestor(fs, i, m) != Some(i))
            && (exists c :: Lineage(fs, i, c) && |c| <= 20)
            && (forall j: Id :: LiveFolder(fs, j) && j != i && fs[j].room == row.room && fs[j].parent == row.parent ==>
                  fs[j].name != row.name)
  {
    var fs := t.folders;
    assert Anchored(fs, i);
    PathIsLinkPath(fs, i);
    ChainLimited(fs, i);
    assert Lineage(fs, i, Chain(fs, i));
    NeverItsOwnAncestor(fs, i);
    forall j: Id | LiveFolder(fs, j) && j != i && fs[j].room == fs[i].room && fs[j].parent == fs[i].parent
      ensures fs[j].name != fs[i].name
    {
      assert !FolderClash(fs, i, j);
    }
  }

  lemma NeverItsOwnAncestor(fs: FolderTable, i: Id)
    requires TreeOk(fs) && LiveFolder(fs, i)
    ensures forall m: nat :: m > 0 ==> Ancestor(fs, i, m) != Some(i)
  {
    ChainDistinct(fs, i);
    var c := Chain(fs, i);
    forall m: nat | m > 0 ensures Ancestor(fs, i, m) != Some(i) {
      AncestorInChain(fs, i, m);
      assert c[|c| - 1] == i;
    }
  }

  /** Every live file of every reachable state sits in a live place under a unique name and key. */
  lemma ReachableFiles(states: seq<Snapshot>, requests: seq<Request>, n: nat, x: Id)
    requires IsHistory(states, requests) && n < |states| && LiveFile(states[n].files, x)
    ensures var t := states[n];
            var row := t.files[x];
            && LiveRoom(t.rooms, row.room) && ValidParent(t.folders, row.room, row.folder)
            && (forall y: Id ::
                  (LiveFile(t.files, y) && y != x && t.files[y].room == row.room && t.files[y].folder == row.folder)
                  ==> t.files[y].name != row.name)
            && (forall y: Id :: y in t.files && y != x ==> t.files[y].key != row.key)
  {
    HistoriesKeepInv(states, requests, n);
    var files := states[n].files;
    forall y: Id | LiveFile(files, y) && y != x && files[y].room == files[x].room && files[y].folder == files[x].folder
      ensures files[y].name != files[x].name
    {
      assert !FileClash(files, x, y);
    }
  }

  /**
   The refinement over every history: between any two live folders the prefix test, the LIKE
   query and the parsed id list give the answer of the walk over parent links.
   */
  lemma PathAnswersAreLinkAnswers(states: seq<Snapshot>, requests: seq<Request>, n: nat, i: Id, a: Id)
    requires IsHistory(states, requests) && n < |states|
    requires LiveFolder(states[n].folders, i) && LiveFolder(states[n].folders, a)
    ensures var fs := states[n].folders;
            && (IsDescendantOrSelf(fs[i].path, fs[a].path) <==> Reaches(fs, i, a))
            && (Like.Matches(fs[i].path, SubtreePattern(fs[a].path)) <==> Reaches(fs, i, a))
            && (a in ParseIds(fs[i].path) <==> Reaches(fs, i, a))
            && exists c :: Lineage(fs, i, c) && ParseIds(fs[i].path) == c
                 && SlashDepth(fs[i].path) == Depth(Some(fs[i].path)) == |c|
  {
    HistoriesKeepInv(states, requests, n);
    PathTestsAreReachability(states[n].folders, i, a);
    ReachesIffInChain(states[n].folders, i, a);
    ChainIsLineage(states[n].folders, i);
    assert Lineage(states[n].folders, i, Chain(states[n].folders, i));
  }

  ghost predicate DeletedBetween(requests: seq<Request>, room: Id, m: nat, n: nat) {
    exists k :: m < k < n && k < |requests| && requests[k] == DeleteRoom(room)
  }

  /** Created by the request at m, and by no later request up to n deleted. */
  ghost predicate RoomOpen(requests: seq<Request>, room: Id, n: nat) {
    exists m :: 0 <= m < n && m < |requests| && requests[m].CreateRoom? && requests[m].id == room
      && !DeletedBetween(requests, room, m, n)
  }

  /** A room is active exactly from its creation until its first deletion, whatever else happens. */
  lemma {:induction false} RoomIsActiveUntilDeleted(
    states: seq<Snapshot>, requests: seq<Request>, room: Id, n: nat)
    requires IsHistory(states, requests) && n < |states|
    ensures LiveRoom(states[n].rooms, room) <==> RoomOpen(requests, room, n)
    ensures room in states[n].rooms
            <==> exists m :: 0 <= m < n && requests[m].CreateRoom? && requests[m].id == room
  {
    if n == 0 {
    } else {
      var r, k := requests[n - 1], n - 1;
      RoomIsActiveUntilDeleted(states, requests, room, n - 1);
      HistoriesKeepInv(states, requests, n - 1);
      assert StepAt(states, requests, n - 1);
      RoomStep(states[n - 1], r, room);
      RoomOpenStep(requests, room, n - 1);
    }
  }

  /** Only requests on rooms change the room table, and those on folders and shares no file row. */
  lemma TablesLeftAlone(t: Snapshot, r: Request)
    requires Inv(t)
    ensures r.CreateRoom? || r.DeleteRoom? || Apply(t, r).rooms == t.rooms
    ensures r.CreateRoom? || r.CreateFolder? || r.RenameFolder? || r.MoveFolder? || r.Grant? || r.Revoke? ==>
              Apply(t, r).files == t.files
  {
  }

  lemma RoomStep(t: Snapshot, r: Request, room: Id)
    requires Inv(t) && Admissible(t, r)
    ensures var u := Apply(t, r);
            && (room in u.rooms <==> room in t.rooms || (r.CreateRoom? && r.id == room))
            && (LiveRoom(u.rooms, room) <==>
                  (LiveRoom(t.rooms, room) && r != DeleteRoom(room)) || (r.CreateRoom? && r.id == room))
            && (r.CreateRoom? && r.id == room ==> room !in t.rooms)
  {
    TablesLeftAlone(t, r);
  }

  lemma RoomOpenStep(requests: seq<Request>, room: Id, n: nat)
    requires n < |requests|
    ensures RoomOpen(requests, room, n + 1)
            <==> (RoomOpen(requests, room, n) && requests[n] != DeleteRoom(room))
                 || (requests[n].CreateRoom? && requests[n].id == room)
  {
    var r := requests[n];
    if RoomOpen(requests, room, n + 1) {
      var m :| 0 <= m < n + 1 && m < |requests| && requests[m].CreateRoom? && requests[m].id == room
        && !DeletedBetween(requests, room, m, n + 1);
      if m < n {
        assert r != DeleteRoom(room);
        assert !DeletedBetween(requests, room, m, n);
      }
    }
    if RoomOpen(requests, room, n) && r != DeleteRoom(room) {
      var m :| 0 <= m < n && m < |requests| && requests[m].CreateRoom? && requests[m].id == room
        && !DeletedBetween(requests, room, m, n);
      assert !DeletedBetween(requests, room, m, n + 1);
    }
    if r.CreateRoom? && r.id == room {
      assert !DeletedBetween(requests, room, n, n + 1);
    }
  }
}
