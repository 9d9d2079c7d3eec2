/** Inheritance of access, moves and revocations, and what the breadcrumbs disclose. */
module AccessLaws {
  import opened Base
  import opened Tables
  import opened Paths
  import opened Tree
  import opened Integrity
  import opened Graft
  import opened Steps
  import opened Moves
  import opened Access

  lemma {:induction false} TopmostConcat(d: seq<Id>, e: seq<Id>, granted: set<Id>)
    ensures Topmost(d + e, granted) == if Topmost(d, granted).Some? then Topmost(d, granted) else Topmost(e, granted)
  {
    if d == [] {
      assert d + e == e;
    } else {
      TopmostConcat(d[1..], e, granted);
      assert (d + e)[1..] == d[1..] + e;
    }
  }

  /** Cutting an ancestor list below its topmost granted id leaves that id. */
  lemma TopmostCut(c: seq<Id>, d: seq<Id>, granted: set<Id>)
    requires d <= c
    ensures Topmost(d, granted).Some? ==> Topmost(c, granted) == Topmost(d, granted)
    ensures var top := Topmost(c, granted);
            (top.Some? ==> top.value in d) ==> Topmost(d, granted) == top
  {
    assert c == d + c[|d|..];
    TopmostConcat(d, c[|d|..], granted);
    TopmostSome(d, granted);
    var k := TopmostPosition(c, granted);
  }

  /** A node's decision is that of any node between its boundary and itself. */
  lemma SameDecisionBelowBoundary(
    t: Snapshot, n: Resource, m: Resource, actor: Option<Actor>, token: Option<string>, now: int)
    requires Inv(t) && LiveResource(t, n) && LiveResource(t, m) && m.id in NodeChain(t, n)
    requires var top := Topmost(NodeChain(t, n), GrantedIds(t, actor, token, now));
             top.Some? ==> top.value in NodeChain(t, m)
    ensures DecisionFor(t, m, actor, token, now) == DecisionFor(t, n, actor, token, now)
  {
    RoomExists(t, n);
    NodeChainPrefix(t, n, m);
    TopmostCut(NodeChain(t, n), NodeChain(t, m), GrantedIds(t, actor, token, now));
  }

  /**
   Access is inherited: whoever may open a node may open everything below it, in the same
   role and with the same boundary.
   */
  lemma AccessInherited(
    t: Snapshot, n: Resource, m: Resource, actor: Option<Actor>, token: Option<string>, now: int)
    requires Inv(t) && LiveResource(t, n) && LiveResource(t, m) && m.id in NodeChain(t, n)
    requires DecisionFor(t, m, actor, token, now).Some?
    ensures DecisionFor(t, n, actor, token, now) == DecisionFor(t, m, actor, token, now)
  {
    RoomExists(t, n);
    NodeChainPrefix(t, n, m);
    TopmostCut(NodeChain(t, n), NodeChain(t, m), GrantedIds(t, actor, token, now));
  }

  lemma {:induction false} TopmostSome(c: seq<Id>, granted: set<Id>)
    ensures Topmost(c, granted).Some? <==> exists x :: x in c && x in granted
  {
    if c == [] {
    } else {
      TopmostSome(c[1..], granted);
    }
  }

  /**
   A visitor with a token alone may open exactly the nodes at or under the resource of the
   public link that carries it, while the link is neither revoked nor expired.
   */
  lemma TokenOpensItsSubtree(t: Snapshot, n: Resource, token: string, now: int)
    requires Inv(t) && LiveResource(t, n)
    ensures DecisionFor(t, n, None, Some(token), now).Some?
            <==> exists s :: s in t.shares && t.shares[s].kind.PublicLink? && t.shares[s].token == Some(token)
                   && !t.shares[s].revoked
                   && (t.shares[s].expiresAt.Some? ==> now < t.shares[s].expiresAt.value)
                   && t.shares[s].resource in NodeChain(t, n)
  {
    RoomExists(t, n);
    TopmostSome(NodeChain(t, n), GrantedIds(t, None, Some(token), now));
    if s :| s in t.shares && Admits(t.shares[s], None, Some(token), now)
            && t.shares[s].resource in NodeChain(t, n) {
      assert t.shares[s].resource in GrantedIds(t, None, Some(token), now);
    }
  }

  /**
   A user without a token who does not own the room may open exactly the nodes at or under a
   resource shared with that user's id or e-mail address, whatever its letter case.
   */
  lemma ShareOpensItsSubtree(t: Snapshot, n: Resource, actor: Actor, now: int)
    requires Inv(t) && LiveResource(t, n)
    requires LiveRoom(t.rooms, RoomOf(t, n)) && t.rooms[RoomOf(t, n)].owner != actor.id
    ensures DecisionFor(t, n, Some(actor), None, now).Some?
            <==> exists s :: s in t.shares && t.shares[s].kind.UserShare?
                   && (t.shares[s].granteeUser == Some(actor.id)
                       || (t.shares[s].granteeEmail.Some?
                           && Lower(t.shares[s].granteeEmail.value) == Lower(actor.email)))
                   && !t.shares[s].revoked
                   && (t.shares[s].expiresAt.Some? ==> now < t.shares[s].expiresAt.value)
                   && t.shares[s].resource in NodeChain(t, n)
  {
    TopmostSome(NodeChain(t, n), GrantedIds(t, Some(actor), None, now));
    if s :| s in t.shares && Admits(t.shares[s], Some(actor), None, now)
            && t.shares[s].resource in NodeChain(t, n) {
      assert t.shares[s].resource in GrantedIds(t, Some(actor), None, now);
    }
  }

  /** Moving a folder changes no decision outside its branch. */
  lemma MoveKeepsOtherDecisions(
    t: Snapshot, f: Id, target: Option<Id>, n: Resource,
    actor: Option<Actor>, token: Option<string>, now: int)
    requires Inv(t) && MoveFolder(t, f, target).result.Ok?
    requires LiveResource(t, n) && f !in NodeChain(t, n)
    ensures Inv(MoveFolder(t, f, target).rows)
    ensures DecisionFor(MoveFolder(t, f, target).rows, n, actor, token, now)
            == DecisionFor(t, n, actor, token, now)
  {
    Preservation.MoveFolderKeepsInv(t, f, target);
    var gs, name := AcceptedMoveRows(t, f, target);
    OtherChainsStay(t, t.(folders := gs), f, target, name, n);
    SameChainSameDecision(t, t.(folders := gs), n, actor, token, now);
  }

  lemma SameChainSameDecision(
    t: Snapshot, u: Snapshot, n: Resource, actor: Option<Actor>, token: Option<string>, now: int)
    requires Inv(t) && Inv(u) && u.rooms == t.rooms && u.shares == t.shares
    requires LiveResource(t, n) && LiveResource(u, n)
    requires NodeChain(u, n) == NodeChain(t, n) && RoomOf(u, n) == RoomOf(t, n)
    ensures DecisionFor(u, n, actor, token, now) == DecisionFor(t, n, actor, token, now)
  {
  }

  lemma OtherChainsStay(t: Snapshot, u: Snapshot, f: Id, target: Option<Id>, name: string, n: Resource)
    requires Inv(t) && Inv(u) && u == t.(folders := u.folders)
    requires BranchMoved(t.folders, u.folders, f, target, name)
    requires LiveResource(t, n) && f !in NodeChain(t, n)
    ensures LiveResource(u, n) && NodeChain(u, n) == NodeChain(t, n) && RoomOf(u, n) == RoomOf(t, n)
  {
    assert n.kind.FileType? ==> LiveFile(t.files, n.id);
    var i := if n.kind.FolderType? then Some(n.id)
             else if n.kind.FileType? then t.files[n.id].folder else None;
    if i.Some? {
      FolderPart(t, n, i.value);
      FolderChainStays(t.folders, u.folders, f, target, name, i.value);
    }
  }

  lemma FolderPart(t: Snapshot, n: Resource, i: Id)
    requires Inv(t) && LiveResource(t, n) && LiveFolder(t.folders, i)
    requires n == Resource(FolderType, i) || (n.kind.FileType? && t.files[n.id].folder == Some(i))
    ensures forall x :: x in Chain(t.folders, i) ==> x in NodeChain(t, n)
  {
  }

  lemma FolderChainStays(
    fs: FolderTable, gs: FolderTable, f: Id, target: Option<Id>, name: string, i: Id)
    requires BranchMoved(fs, gs, f, target, name) && TreeOk(gs) && LiveFolder(fs, i) && f !in Chain(fs, i)
    ensures LiveFolder(gs, i) && Chain(gs, i) == Chain(fs, i) && gs[i].room == fs[i].room
  {
    ReachesIffInChain(fs, i, f);
    assert RowMoved(fs, gs, f, target, name, i);
    ChainOutside(fs, gs, f, target, name, i);
  }

  /** Inside the branch, the ancestors above the moved folder are exchanged for the target's. */
  lemma BranchNodeChain(t: Snapshot, u: Snapshot, f: Id, target: Option<Id>, name: string, n: Resource)
    requires Inv(t) && Inv(u) && u == t.(folders := u.folders)
    requires BranchMoved(t.folders, u.folders, f, target, name)
    requires LiveResource(t, n) && f in NodeChain(t, n)
    ensures LiveResource(u, n) && RoomOf(u, n) == RoomOf(t, n)
    ensures |Chain(t.folders, f)| <= |NodeChain(t, n)|
    ensures NodeChain(u, n)
            == [RoomOf(t, n)] + ParentChain(t.folders, target) + NodeChain(t, n)[|Chain(t.folders, f)|..]
  {
    var i := FolderInChain(t, n, f);
    BranchFolderChain(t.folders, u.folders, f, target, name, i);
    ExchangedNodeChain(t, u, n, i, |Chain(t.folders, f)|, ParentChain(t.folders, target));
  }

  lemma ExchangedNodeChain(t: Snapshot, u: Snapshot, n: Resource, i: Id, k: nat, above: seq<Id>)
    requires ChainsOk(t) && ChainsOk(u) && u.files == t.files && LiveResource(t, n)
    requires LiveFolder(t.folders, i) && LiveFolder(u.folders, i) && u.folders[i].room == t.folders[i].room
    requires if n.kind.FileType? then t.files[n.id].folder == Some(i) else n == Resource(FolderType, i)
    requires 1 <= k <= |Chain(t.folders, i)| && Chain(u.folders, i) == above + Chain(t.folders, i)[k - 1..]
    ensures LiveResource(u, n) && RoomOf(u, n) == RoomOf(t, n) && k <= |NodeChain(t, n)|
    ensures NodeChain(u, n) == [RoomOf(t, n)] + above + NodeChain(t, n)[k..]
  {
    NodeChainVia(t, n, i);
    NodeChainVia(u, n, i);
    TailPastRoom(RoomOf(t, n), above, Chain(t.folders, i), if n.kind.FileType? then [n.id] else [], k);
  }

  /** The part of the invariant that ancestor chains rest on. */
  ghost predicate ChainsOk(t: Snapshot) {
    TreeOk(t.folders) && FilesPlaced(t.rooms, t.folders, t.files)
  }

  lemma NodeChainVia(u: Snapshot, n: Resource, i: Id)
    requires ChainsOk(u) && LiveFolder(u.folders, i) && LiveResource(u, n)
    requires if n.kind.FileType? then u.files[n.id].folder == Some(i) else n == Resource(FolderType, i)
    ensures NodeChain(u, n) == [RoomOf(u, n)] + Chain(u.folders, i) + if n.kind.FileType? then [n.id] else []
  {
  }

  lemma BranchFolderChain(fs: FolderTable, gs: FolderTable, f: Id, target: Option<Id>, name: string, i: Id)
    requires BranchMoved(fs, gs, f, target, name) && TreeOk(gs) && LiveFolder(fs, i) && f in Chain(fs, i)
    ensures LiveFolder(gs, i) && gs[i].room == fs[i].room && 1 <= |Chain(fs, f)| <= |Chain(fs, i)|
    ensures Chain(gs, i) == ParentChain(fs, target) + Chain(fs, i)[|Chain(fs, f)| - 1..]
  {
    ReachesIffInChain(fs, i, f);
    assert RowMoved(fs, gs, f, target, name, i);
    ChainInside(fs, gs, f, target, name, i);
  }

  lemma TailPastRoom(room: Id, above: seq<Id>, c: seq<Id>, file: seq<Id>, k: nat)
    requires 1 <= k <= |c|
    ensures [room] + (above + c[k - 1..]) + file == [room] + above + ([room] + c + file)[k..]
  {
    assert ([room] + c + file)[k..] == c[k - 1..] + file;
  }

  /**
   Who may open a node inside the branch after a move: the owner as before, and anyone whose
   shares lie on the target's ancestors or on the node's ancestors from the moved folder on.
   */
  lemma MoveDecidesBranch(
    t: Snapshot, f: Id, target: Option<Id>, n: Resource,
    actor: Option<Actor>, token: Option<string>, now: int)
    requires Inv(t) && MoveFolder(t, f, target).result.Ok?
    requires LiveResource(t, n) && f in NodeChain(t, n)
    ensures Inv(MoveFolder(t, f, target).rows) && LiveRoom(t.rooms, RoomOf(t, n))
    ensures |Chain(t.folders, f)| <= |NodeChain(t, n)|
    ensures var d := DecisionFor(MoveFolder(t, f, target).rows, n, actor, token, now);
            var chain := [RoomOf(t, n)] + ParentChain(t.folders, target)
                         + NodeChain(t, n)[|Chain(t.folders, f)|..];
            var top := Topmost(chain, GrantedIds(t, actor, token, now));
            d == if actor.Some? && t.rooms[RoomOf(t, n)].owner == actor.value.id then Some(Decision(Owner, None))
                 else if top.Some? then Some(Decision(Viewer, top)) else None
  {
    Preservation.MoveFolderKeepsInv(t, f, target);
    var gs, name := AcceptedMoveRows(t, f, target);
    RoomExists(t, n);
    BranchNodeChain(t, t.(folders := gs), f, target, name, n);
    NewChainDecides(t, t.(folders := gs), n, actor, token, now);
  }

  lemma NewChainDecides(
    t: Snapshot, u: Snapshot, n: Resource, actor: Option<Actor>, token: Option<string>, now: int)
    requires Inv(t) && Inv(u) && u.rooms == t.rooms && u.shares == t.shares
    requires LiveResource(t, n) && LiveResource(u, n) && RoomOf(u, n) == RoomOf(t, n)
    ensures LiveRoom(t.rooms, RoomOf(t, n))
    ensures var top := Topmost(NodeChain(u, n), GrantedIds(t, actor, token, now));
            DecisionFor(u, n, actor, token, now)
            == if Owns(t, actor, n) then Some(Decision(Owner, None))
               else if top.Some? then Some(Decision(Viewer, top)) else None
  {
    RoomExists(t, n);
    assert GrantedIds(u, actor, token, now) == GrantedIds(t, actor, token, now);
  }

  // ---- deleting ----

  /** A resource that a deletion spares keeps its ancestors, as long as no link changes. */
  lemma SparedChain(t: Snapshot, u: Snapshot, n: Resource)
    requires ChainsOk(t) && ChainsOk(u) && SameLinks(t.folders, u.folders)
    requires LiveResource(t, n) && LiveResource(u, n)
    requires n.kind.FolderType? ==> u.folders[n.id] == t.folders[n.id]
    requires n.kind.FileType? ==> u.files[n.id] == t.files[n.id]
    ensures RoomOf(u, n) == RoomOf(t, n) && NodeChain(u, n) == NodeChain(t, n)
  {
    match n.kind
    case DataRoomType =>
    case FolderType =>
      LinkPathsDetermineTree(t.folders, u.folders, n.id);
    case FileType =>
      assert LiveFile(t.files, n.id) && LiveFile(u.files, n.id);
      if t.files[n.id].folder.Some? {
        LinkPathsDetermineTree(t.folders, u.folders, t.files[n.id].folder.value);
      }
  }

  lemma SparedDecision(
    t: Snapshot, u: Snapshot, n: Resource, actor: Option<Actor>, token: Option<string>, now: int)
    requires Inv(t) && Inv(u) && u.shares == t.shares && LiveResource(t, n) && LiveResource(u, n)
    requires RoomOf(u, n) == RoomOf(t, n) && NodeChain(u, n) == NodeChain(t, n)
    requires RoomOf(t, n) in t.rooms && RoomOf(t, n) in u.rooms
             && u.rooms[RoomOf(t, n)].owner == t.rooms[RoomOf(t, n)].owner
    ensures DecisionFor(u, n, actor, token, now) == DecisionFor(t, n, actor, token, now)
  {
    assert GrantedIds(u, actor, token, now) == GrantedIds(t, actor, token, now);
  }

  /** A deleted room is closed to everyone, links included; outside it every decision stays. */
  lemma DeletedRoomIsClosed(
    t: Snapshot, room: Id, n: Resource, actor: Option<Actor>, token: Option<string>, now: int)
    requires Inv(t) && LiveRoom(t.rooms, room)
    ensures Inv(DeleteRoom(t, room).rows)
    ensures DecisionFor(DeleteRoom(t, room).rows, n, actor, token, now)
            == if LiveResource(t, n) && RoomOf(t, n) == room then None else DecisionFor(t, n, actor, token, now)
  {
    var u := DeleteRoom(t, room).rows;
    Preservation.DeleteRoomKeepsInv(t, room);
    if LiveResource(t, n) && RoomOf(t, n) != room {
      RoomExists(t, n);
      SparedChain(t, u, n);
      SparedDecision(t, u, n, actor, token, now);
    }
  }

  /** A deleted folder is closed to everyone with all it holds; elsewhere every decision stays. */
  lemma DeletedFolderIsClosed(
    t: Snapshot, f: Id, n: Resource, actor: Option<Actor>, token: Option<string>, now: int)
    requires Inv(t) && LiveFolder(t.folders, f)
    ensures Inv(DeleteFolder(t, f).rows)
    ensures DecisionFor(DeleteFolder(t, f).rows, n, actor, token, now)
            == if LiveResource(t, n) && f in NodeChain(t, n) then None else DecisionFor(t, n, actor, token, now)
  {
    var u := DeleteFolder(t, f).rows;
    Preservation.DeleteFolderKeepsInv(t, f);
    if LiveResource(t, n) {
      RoomExists(t, n);
      DeletedUnderFolder(t, f, n);
      if f !in NodeChain(t, n) {
        SparedChain(t, u, n);
        SparedDecision(t, u, n, actor, token, now);
      }
    }
  }

  /** A deleted file is closed to everyone; every other decision stays. */
  lemma DeletedFileIsClosed(
    t: Snapshot, x: Id, n: Resource, actor: Option<Actor>, token: Option<string>, now: int)
    requires Inv(t) && LiveFile(t.files, x)
    ensures Inv(DeleteFile(t, x).rows)
    ensures DecisionFor(DeleteFile(t, x).rows, n, actor, token, now)
            == if n == Resource(FileType, x) then None else DecisionFor(t, n, actor, token, now)
  {
    var u := DeleteFile(t, x).rows;
    Preservation.DeleteFileKeepsInv(t, x);
    if LiveResource(t, n) && n != Resource(FileType, x) {
      RoomExists(t, n);
      SparedChain(t, u, n);
      SparedDecision(t, u, n, actor, token, now);
    }
  }

  /** What a folder delete stamps is what has the folder among its ancestors. */
  lemma DeletedUnderFolder(t: Snapshot, f: Id, n: Resource)
    requires Inv(t) && LiveFolder(t.folders, f) && LiveResource(t, n)
    ensures LiveResource(DeleteFolder(t, f).rows, n) <==> f !in NodeChain(t, n)
  {
    if f in NodeChain(t, n) {
      var i := FolderInChain(t, n, f);
      ReachesIffInChain(t.folders, i, f);
    } else {
      assert n.kind.FileType? ==> LiveFile(t.files, n.id);
      var i := if n.kind.FolderType? then Some(n.id)
               else if n.kind.FileType? then t.files[n.id].folder else None;
      if i.Some? {
        FolderPart(t, n, i.value);
        ReachesIffInChain(t.folders, i.value, f);
      }
    }
  }

  // ---- revoking ----

  function RevokeShare(t: Snapshot, s: Id, allowed: Option<Decision>): Outcome
  {
    if s !in t.shares || t.shares[s].revoked || allowed.None? then Reject(t, NotFound)
    else if !Satisfies(allowed.value.role, Owner) then Reject(t, Forbidden)
    else Accept(t.(shares := t.shares[s := t.shares[s].(revoked := true)]), s)
  }

  ghost function RevokeDecision(t: Snapshot, s: Id, actor: Actor, now: int): Option<Decision>
    requires Inv(t) && s in t.shares
  {
    DecisionFor(t, Resource(t.shares[s].resourceType, t.shares[s].resource), Some(actor), None, now)
  }

  lemma RevokeKeepsInv(t: Snapshot, s: Id, allowed: Option<Decision>)
    requires Inv(t)
    ensures Inv(RevokeShare(t, s, allowed).rows)
  {
  }

  /** Only the owner of the room of a live resource can revoke a share on it. */
  method Revoke(db: Database, actor: Actor, s: Id, now: int) returns (r: Result<Id>)
    requires Inv(db.Rows())
    modifies db`shares
    ensures s in old(db.shares) ==>
              Outcome(db.Rows(), r)
              == RevokeShare(old(db.Rows()), s, old(RevokeDecision(db.Rows(), s, actor, now)))
    ensures s !in old(db.shares) ==> Outcome(db.Rows(), r) == Reject(old(db.Rows()), NotFound)
    ensures Inv(db.Rows())
  {
    if s !in db.shares || db.shares[s].revoked {
      return Err(NotFound);
    }
    var n := Resource(db.shares[s].resourceType, db.shares[s].resource);
    var decision := Resolve(db, n, Some(actor), None, now);
    RevokeKeepsInv(db.Rows(), s, decision);
    if decision.None? {
      return Err(NotFound);
    }
    if !Satisfies(decision.value.role, Owner) {
      return Err(Forbidden);
    }
    db.shares := db.shares[s := db.shares[s].(revoked := true)];
    r := Ok(s);
  }

  /** A revocation is accepted from exactly the owner of the room of a live resource, once. */
  lemma OnlyOwnersRevoke(t: Snapshot, s: Id, actor: Actor, now: int)
    requires Inv(t) && s in t.shares
    ensures var n := Resource(t.shares[s].resourceType, t.shares[s].resource);
            RevokeShare(t, s, RevokeDecision(t, s, actor, now)).result.Ok?
            <==> !t.shares[s].revoked && LiveResource(t, n)
                 && LiveRoom(t.rooms, RoomOf(t, n)) && t.rooms[RoomOf(t, n)].owner == actor.id
  {
    var n := Resource(t.shares[s].resourceType, t.shares[s].resource);
    if LiveResource(t, n) {
      RoomExists(t, n);
    }
  }

  /**
   Revoking takes access away and never gives any; it takes it from exactly those whose
   ancestors carry no other admitting share.
   */
  lemma RevokeOnlyRemoves(
    t: Snapshot, s: Id, allowed: Option<Decision>, n: Resource,
    actor: Option<Actor>, token: Option<string>, now: int)
    requires Inv(t) && RevokeShare(t, s, allowed).result.Ok? && LiveResource(t, n)
    requires LiveRoom(t.rooms, RoomOf(t, n))
    requires actor.None? || t.rooms[RoomOf(t, n)].owner != actor.value.id
    ensures Inv(RevokeShare(t, s, allowed).rows)
    ensures DecisionFor(RevokeShare(t, s, allowed).rows, n, actor, token, now).Some?
            <==> exists r :: r in t.shares && r != s && Admits(t.shares[r], actor, token, now)
                   && t.shares[r].resource in NodeChain(t, n)
  {
    RevokeKeepsInv(t, s, allowed);
    var u := RevokeShare(t, s, allowed).rows;
    var c, granted := NodeChain(t, n), GrantedIds(u, actor, token, now);
    assert NodeChain(u, n) == c;
    var k := TopmostPosition(c, granted);
    forall x ensures x in granted <==>
      exists r :: r in t.shares && r != s && Admits(t.shares[r], actor, token, now) && t.shares[r].resource == x
    {
      if x in granted {
        var r :| r in u.shares && Admits(u.shares[r], actor, token, now) && u.shares[r].resource == x;
        assert r != s;
      }
      if r :| r in t.shares && r != s && Admits(t.shares[r], actor, token, now) && t.shares[r].resource == x {
        assert u.shares[r] == t.shares[r];
      }
    }
  }

  // ---- breadcrumbs ----

  datatype Crumb = Crumb(id: string, name: string)

  function IndexOf(ids: seq<string>, id: string): (k: int)
    ensures -1 <= k < |ids|
    ensures k >= 0 ==> ids[k] == id
    ensures k == -1 ==> id !in ids
  {
    if ids == [] then -1
    else if ids[0] == id then 0
    else
      var k := IndexOf(ids[1..], id);
      if k == -1 then -1 else k + 1
  }

  /** The ids that the liveness query returns, in the order of the path, with their names. */
  function NamedIds(fs: FolderTable, room: Id, ids: seq<string>): seq<Crumb> {
    if ids == [] then []
    else
      var rest := NamedIds(fs, room, ids[1..]);
      if !IsId(ids[0]) then rest
      else
        var id: Id := ids[0];
        if LiveFolder(fs, id) && fs[id].room == room then [Crumb(id, fs[id].name)] + rest else rest
  }

  function BuildBreadcrumbs(fs: FolderTable, f: Id, boundary: Option<Id>): seq<Crumb>
    requires f in fs
  {
    var ids := ParseIds(fs[f].path);
    var ancestorIds := if ids == [] then [] else ids[..|ids| - 1];
    var k := if boundary.Some? then IndexOf(ancestorIds, boundary.value) else 0;
    NamedIds(fs, fs[f].room, if k == -1 then [] else ancestorIds[k..])
  }

  lemma {:induction false} NamedIdsAll(fs: FolderTable, room: Id, ids: seq<Id>)
    requires forall k :: 0 <= k < |ids| ==> LiveFolder(fs, ids[k]) && fs[ids[k]].room == room
    ensures |NamedIds(fs, room, ids)| == |ids|
    ensures forall k :: 0 <= k < |ids| ==>
              LiveFolder(fs, ids[k]) && NamedIds(fs, room, ids)[k] == Crumb(ids[k], fs[ids[k]].name)
  {
    if ids == [] {
    } else {
      NamedIdsAll(fs, room, ids[1..]);
    }
  }

  /** The position in the chain of proper ancestors at which the breadcrumbs start. */
  ghost predicate StartsAt(ancestors: seq<Id>, boundary: Option<Id>, k: nat) {
    && k <= |ancestors|
    && (boundary.None? ==> k == 0)
    && (boundary.Some? && k < |ancestors| ==> ancestors[k] == boundary.value)
    && (boundary.Some? && k == |ancestors| ==> boundary.value !in ancestors)
  }

  lemma StartOf(ancestors: seq<Id>, boundary: Option<Id>) returns (k: nat)
    ensures StartsAt(ancestors, boundary, k)
    ensures var i := if boundary.Some? then IndexOf(ancestors, boundary.value) else 0;
            (if i == -1 then [] else ancestors[i..]) == ancestors[k..]
  {
    var i := if boundary.Some? then IndexOf(ancestors, boundary.value) else 0;
    k := if i == -1 then |ancestors| else i;
  }

  ghost function ProperAncestors(fs: FolderTable, f: Id): seq<Id>
    requires TreeOk(fs) && LiveFolder(fs, f)
  {
    Chain(fs, f)[..|Chain(fs, f)| - 1]
  }

  lemma ProperAncestorsLive(fs: FolderTable, f: Id, k: nat)
    requires TreeOk(fs) && LiveFolder(fs, f) && k <= |ProperAncestors(fs, f)|
    ensures var shown := ProperAncestors(fs, f)[k..];
            forall j :: 0 <= j < |shown| ==> LiveFolder(fs, shown[j]) && fs[shown[j]].room == fs[f].room
  {
    var c, shown := Chain(fs, f), ProperAncestors(fs, f)[k..];
    ChainMembers(fs, f);
    forall j | 0 <= j < |shown| ensures LiveFolder(fs, shown[j]) && fs[shown[j]].room == fs[f].room {
      assert shown[j] == c[k + j];
    }
  }

  /**
   The breadcrumbs are a contiguous end piece of the chain of proper ancestors: all of it
   without a boundary, from the boundary on if that is a proper ancestor folder, and nothing
   otherwise. The liveness filter drops none.
   */
  lemma BreadcrumbsAreChainTail(fs: FolderTable, f: Id, boundary: Option<Id>) returns (k: nat)
    requires TreeOk(fs) && LiveFolder(fs, f)
    ensures StartsAt(ProperAncestors(fs, f), boundary, k)
    ensures var shown := ProperAncestors(fs, f)[k..];
            var crumbs := BuildBreadcrumbs(fs, f, boundary);
            && |crumbs| == |shown|
            && forall j :: 0 <= j < |crumbs| ==>
                 LiveFolder(fs, shown[j]) && crumbs[j] == Crumb(shown[j], fs[shown[j]].name)
  {
    PathTestsAreReachability(fs, f, f);
    k := StartOf(ProperAncestors(fs, f), boundary);
    ProperAncestorsLive(fs, f, k);
    NamedIdsAll(fs, fs[f].room, ProperAncestors(fs, f)[k..]);
  }

  /** A boundary at the folder itself or at its room leaves the breadcrumbs empty. */
  lemma NoBreadcrumbsAtBoundary(t: Snapshot, f: Id, boundary: Id)
    requires Inv(t) && LiveFolder(t.folders, f)
    requires boundary == f || boundary == t.folders[f].room
    ensures BuildBreadcrumbs(t.folders, f, Some(boundary)) == []
  {
    var c := Chain(t.folders, f);
    var k := BreadcrumbsAreChainTail(t.folders, f, Some(boundary));
    ChainDistinct(t.folders, f);
    RoomNotInChain(t, f);
    assert c[|c| - 1] == f;
  }

  /** The caller may open every folder the breadcrumbs show, with the same decision. */
  lemma CallerMayOpenBreadcrumbs(
    t: Snapshot, f: Id, actor: Option<Actor>, token: Option<string>, now: int, j: nat)
    requires Inv(t) && LiveFolder(t.folders, f)
    requires DecisionFor(t, Resource(FolderType, f), actor, token, now).Some?
    requires var d := DecisionFor(t, Resource(FolderType, f), actor, token, now).value;
             j < |BuildBreadcrumbs(t.folders, f, d.boundary)|
    ensures var d := DecisionFor(t, Resource(FolderType, f), actor, token, now);
            var crumb := BuildBreadcrumbs(t.folders, f, d.value.boundary)[j];
            && IsId(crumb.id) && LiveFolder(t.folders, crumb.id)
            && DecisionFor(t, Resource(FolderType, crumb.id), actor, token, now) == d
  {
    var d := DecisionFor(t, Resource(FolderType, f), actor, token, now).value;
    var k, i := CrumbPosition(t.folders, f, d.boundary, j);
    AncestorDecision(t, f, k, i, actor, token, now);
  }

  /** A crumb is a chain member at or below the boundary. */
  lemma CrumbPosition(fs: FolderTable, f: Id, boundary: Option<Id>, j: nat) returns (k: nat, i: nat)
    requires TreeOk(fs) && LiveFolder(fs, f) && j < |BuildBreadcrumbs(fs, f, boundary)|
    ensures k <= i < |Chain(fs, f)| && BuildBreadcrumbs(fs, f, boundary)[j].id == Chain(fs, f)[i]
    ensures boundary.Some? ==> Chain(fs, f)[k] == boundary.value
  {
    k := BreadcrumbsAreChainTail(fs, f, boundary);
    i := k + j;
    var c, above := Chain(fs, f), ProperAncestors(fs, f);
    assert above[k..][j] == c[i];
    assert above[k] == c[k];
  }

  /** Ancestors from the boundary on share the decision. */
  lemma AncestorDecision(
    t: Snapshot, f: Id, k: nat, j: nat, actor: Option<Actor>, token: Option<string>, now: int)
    requires Inv(t) && LiveFolder(t.folders, f) && k <= j < |Chain(t.folders, f)|
    requires var d := DecisionFor(t, Resource(FolderType, f), actor, token, now);
             d.Some? && (d.value.boundary.Some? ==> Chain(t.folders, f)[k] == d.value.boundary.value)
    ensures LiveFolder(t.folders, Chain(t.folders, f)[j])
    ensures DecisionFor(t, Resource(FolderType, Chain(t.folders, f)[j]), actor, token, now)
            == DecisionFor(t, Resource(FolderType, f), actor, token, now)
  {
    var c := Chain(t.folders, f);
    var n, m := Resource(FolderType, f), Resource(FolderType, c[j]);
    ChainPrefix(t.folders, f, j);
    assert NodeChain(t, n)[j + 1] == c[j];
    assert Chain(t.folders, c[j])[k] == c[k];
    assert NodeChain(t, m)[k + 1] == c[k];
    RoomExists(t, n);
    if Owns(t, actor, n) {
      NodeChainPrefix(t, n, m);
    } else {
      SameDecisionBelowBoundary(t, n, m, actor, token, now);
    }
  }
}
