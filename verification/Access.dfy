/** Who may open what: shares are stored on one node and looked up along the ancestors. */
module Access {
  import opened Base
  import opened Tables
  import opened Paths
  import opened Tree
  import opened Integrity

  // ---- roles ----

  datatype Role = Viewer | Owner

  function Rank(role: Role): nat {
    match role
    case Viewer => 10
    case Owner => 100
  }

  function FromShareRole(role: ShareRole): Role {
    match role
    case ViewerShare => Viewer
  }

  function MaxRole(a: Option<Role>, b: Role): Role {
    if a.None? || Rank(b) > Rank(a.value) then b else a.value
  }

  predicate Satisfies(actual: Role, required: Role) {
    Rank(actual) >= Rank(required)
  }

  // ---- resources and their ancestors ----

  datatype Resource = Resource(kind: ResourceType, id: Id)

  datatype Actor = Actor(id: Id, email: string)

  datatype ResourceNode = ResourceNode(owner: Id, ancestorIds: seq<string>)

  predicate LiveResource(t: Snapshot, n: Resource) {
    match n.kind
    case DataRoomType => LiveRoom(t.rooms, n.id)
    case FolderType => LiveFolder(t.folders, n.id)
    case FileType => LiveFile(t.files, n.id)
  }

  function RoomOf(t: Snapshot, n: Resource): Id
    requires LiveResource(t, n)
  {
    match n.kind
    case DataRoomType => n.id
    case FolderType => t.folders[n.id].room
    case FileType => t.files[n.id].room
  }

  /** The room, the folders by parent links from the root down, the resource itself last. */
  ghost function NodeChain(t: Snapshot, n: Resource): seq<Id>
    requires TreeOk(t.folders) && FilesPlaced(t.rooms, t.folders, t.files) && LiveResource(t, n)
  {
    match n.kind
    case DataRoomType => [n.id]
    case FolderType => [t.folders[n.id].room] + Chain(t.folders, n.id)
    case FileType =>
      assert LiveFile(t.files, n.id);
      [t.files[n.id].room] + ParentChain(t.folders, t.files[n.id].folder) + [n.id]
  }

  method LoadResource(db: Database, n: Resource) returns (r: Option<ResourceNode>)
    requires Inv(db.Rows())
    ensures r.Some? <==> LiveResource(db.Rows(), n)
    ensures r.Some? ==> r.value.ancestorIds == NodeChain(db.Rows(), n)
    ensures r.Some? ==> RoomOf(db.Rows(), n) in db.rooms
                        && r.value.owner == db.rooms[RoomOf(db.Rows(), n)].owner
  {
    match n.kind
    case DataRoomType =>
      if !LiveRoom(db.rooms, n.id) {
        return None;
      }
      r := Some(ResourceNode(db.rooms[n.id].owner, [n.id]));
    case FolderType =>
      if !(LiveFolder(db.folders, n.id) && LiveRoom(db.rooms, db.folders[n.id].room)) {
        return None;
      }
      var row := db.folders[n.id];
      PathTestsAreReachability(db.folders, n.id, n.id);
      r := Some(ResourceNode(db.rooms[row.room].owner, [row.room] + ParseIds(row.path)));
    case FileType =>
      if !(LiveFile(db.files, n.id) && LiveRoom(db.rooms, db.files[n.id].room)) {
        return None;
      }
      var row := db.files[n.id];
      var folderIds: seq<string> := [];
      if row.folder.Some? && LiveFolder(db.folders, row.folder.value) {
        folderIds := ParseIds(db.folders[row.folder.value].path);
        PathTestsAreReachability(db.folders, row.folder.value, row.folder.value);
      }
      r := Some(ResourceNode(db.rooms[row.room].owner, [row.room] + folderIds + [n.id]));
  }

  ghost predicate Distinct(ids: seq<string>) {
    forall j, k :: 0 <= j < k < |ids| ==> ids[j] != ids[k]
  }

  lemma ChainDistinct(fs: FolderTable, i: Id)
    requires TreeOk(fs) && LiveFolder(fs, i)
    ensures Distinct(Chain(fs, i))
  {
    var c := Chain(fs, i);
    forall j, k | 0 <= j < k < |c| ensures c[j] != c[k] {
      ChainPrefix(fs, i, j);
      ChainPrefix(fs, i, k);
      assert |c[..j + 1]| != |c[..k + 1]|;
    }
  }

  lemma NodeChainDistinct(t: Snapshot, n: Resource)
    requires Inv(t) && LiveResource(t, n)
    ensures Distinct(NodeChain(t, n))
    ensures NodeChain(t, n) != [] && NodeChain(t, n)[|NodeChain(t, n)| - 1] == n.id
  {
    match n.kind
    case DataRoomType =>
    case FolderType =>
      ChainDistinct(t.folders, n.id);
      RoomNotInChain(t, n.id);
    case FileType =>
      assert LiveFile(t.files, n.id);
      var folder := t.files[n.id].folder;
      if folder.Some? {
        ChainDistinct(t.folders, folder.value);
        RoomNotInChain(t, folder.value);
      }
  }

  lemma RoomNotInChain(t: Snapshot, i: Id)
    requires Inv(t) && LiveFolder(t.folders, i)
    ensures forall k :: 0 <= k < |Chain(t.folders, i)| ==>
                          Chain(t.folders, i)[k] !in t.rooms && Chain(t.folders, i)[k] !in t.files
    ensures t.folders[i].room in t.rooms
  {
    ChainMembers(t.folders, i);
  }

  /** An ancestor's chain is the initial piece that ends in it. */
  lemma NodeChainPrefix(t: Snapshot, n: Resource, m: Resource)
    requires Inv(t) && LiveResource(t, n) && LiveResource(t, m) && m.id in NodeChain(t, n)
    ensures NodeChain(t, m) <= NodeChain(t, n)
    ensures RoomOf(t, m) == RoomOf(t, n)
  {
    var c := NodeChain(t, n);
    match m.kind
    case DataRoomType =>
      RoomInChain(t, n, m.id);
    case FolderType =>
      var i := FolderInChain(t, n, m.id);
      ReachesIffInChain(t.folders, i, m.id);
      ReachesIffChainPrefix(t.folders, i, m.id);
    case FileType =>
      FileInChain(t, n, m.id);
  }

  lemma RoomInChain(t: Snapshot, n: Resource, room: Id)
    requires Inv(t) && LiveResource(t, n) && room in t.rooms && room in NodeChain(t, n)
    ensures room == RoomOf(t, n) == NodeChain(t, n)[0]
  {
    if n.kind == FolderType {
      RoomNotInChain(t, n.id);
    } else if n.kind == FileType {
      assert LiveFile(t.files, n.id);
      if t.files[n.id].folder.Some? {
        RoomNotInChain(t, t.files[n.id].folder.value);
      }
    }
  }

  /** A folder among the ancestors sits in the chain of the node's folder. */
  lemma FolderInChain(t: Snapshot, n: Resource, m: Id) returns (i: Id)
    requires Inv(t) && LiveResource(t, n) && m in t.folders && m in NodeChain(t, n)
    ensures LiveFolder(t.folders, i) && m in Chain(t.folders, i)
    ensures NodeChain(t, n) == [RoomOf(t, n)] + Chain(t.folders, i) + if n.kind.FileType? then [n.id] else []
    ensures t.folders[i].room == RoomOf(t, n)
    ensures if n.kind.FileType? then t.files[n.id].folder == Some(i) else n == Resource(FolderType, i)
    ensures LiveFolder(t.folders, m) && t.folders[m].room == RoomOf(t, n)
  {
    if n.kind == FileType {
      assert LiveFile(t.files, n.id);
      i := t.files[n.id].folder.value;
    } else {
      i := n.id;
    }
    ChainMembers(t.folders, i);
    var k :| 0 <= k < |Chain(t.folders, i)| && Chain(t.folders, i)[k] == m;
  }

  lemma FileInChain(t: Snapshot, n: Resource, m: Id)
    requires Inv(t) && LiveResource(t, n) && m in t.files && m in NodeChain(t, n)
    ensures n == Resource(FileType, m)
  {
    if n.kind == FolderType {
      RoomNotInChain(t, n.id);
    } else if n.kind == FileType {
      assert LiveFile(t.files, n.id);
      if t.files[n.id].folder.Some? {
        RoomNotInChain(t, t.files[n.id].folder.value);
      }
    }
  }

  // ---- grants ----

  datatype Grant = Grant(resource: Id, role: Role)

  /** Letter case of ASCII letters only. */
  function Lower(s: string): (lower: string)
    ensures |lower| == |s| && forall k :: 0 <= k < |s| ==> !('A' <= lower[k] <= 'Z')
    ensures (forall k :: 0 <= k < |s| ==> !('A' <= s[k] <= 'Z')) ==> lower == s
  {
    seq(|s|, k requires 0 <= k < |s| =>
      if 'A' <= s[k] <= 'Z' then (s[k] as int + 32) as char else s[k])
  }

  predicate Unexpired(s: Share, now: int) {
    !s.revoked && (s.expiresAt.None? || s.expiresAt.value > now)
  }

  predicate SharedWith(s: Share, actor: Actor) {
    && s.kind.UserShare?
    && (s.granteeUser == Some(actor.id)
        || (s.granteeEmail.Some? && Lower(s.granteeEmail.value) == Lower(actor.email)))
  }

  predicate Admits(s: Share, actor: Option<Actor>, token: Option<string>, now: int) {
    && Unexpired(s, now)
    && ((actor.Some? && SharedWith(s, actor.value))
        || (token.Some? && s.kind.PublicLink? && s.token == token))
  }

  /** The rows come in no particular order. */
  method FindGrants(
    db: Database, ids: seq<string>, actor: Option<Actor>, token: Option<string>, now: int)
    returns (grants: seq<Grant>)
    ensures forall g :: g in grants <==>
              exists s :: s in db.shares && Admits(db.shares[s], actor, token, now)
                && db.shares[s].resource in ids
                && g == Grant(db.shares[s].resource, FromShareRole(db.shares[s].role))
  {
    var shares := db.shares;
    var rows := set s | s in shares && Admits(shares[s], actor, token, now) && shares[s].resource in ids
      :: Grant(shares[s].resource, FromShareRole(shares[s].role));
    grants := AnyOrder(rows);
  }

  // ---- the decision ----

  ghost predicate TopAmong(ids: seq<string>, grants: seq<Grant>, top: nat) {
    && top < |ids|
    && (exists g :: g in grants && g.resource == ids[top])
    && forall g, k :: g in grants && 0 <= k < |ids| && ids[k] == g.resource ==> top <= k
  }

  ghost predicate StrongestAmong(ids: seq<string>, grants: seq<Grant>, role: Role) {
    && (exists g :: g in grants && g.resource in ids && g.role == role)
    && forall g :: g in grants && g.resource in ids ==> Satisfies(role, g.role)
  }

  /** Strongest role and topmost granted ancestor, from any list of grants. */
  ghost predicate Decides(ids: seq<string>, grants: seq<Grant>, d: Option<(Role, Id)>) {
    if d.None? then forall g :: g in grants ==> g.resource !in ids
    else
      && StrongestAmong(ids, grants, d.value.0)
      && exists top: nat :: TopAmong(ids, grants, top) && ids[top] == d.value.1
  }

  /** new Map(ids.map((id, index) => [id, index])) */
  method IndexById(ids: seq<string>) returns (index: map<string, nat>)
    requires Distinct(ids)
    ensures forall x :: x in index <==> x in ids
    ensures forall x :: x in index ==> index[x] < |ids| && ids[index[x]] == x
  {
    index := map[];
    for k := 0 to |ids|
      invariant forall j :: 0 <= j < k ==> ids[j] in index
      invariant forall x :: x in index ==> index[x] < k && ids[index[x]] == x
    {
      index := index[ids[k] := k];
    }
  }

  /** What the loop of resolve knows after some grants; the depth is that of the boundary. */
  ghost predicate BestOf(ids: seq<string>, seen: seq<Grant>, role: Option<Role>, boundary: Option<Id>, depth: nat) {
    if role.None? then depth == |ids| && forall g :: g in seen ==> g.resource !in ids
    else
      && StrongestAmong(ids, seen, role.value) && TopAmong(ids, seen, depth)
      && boundary.Some? && ids[depth] == boundary.value
  }

  /** The loop of resolve: strongest role, least depth. Grants on unknown ids are skipped. */
  method StrongestGrant(ids: seq<string>, grants: seq<Grant>) returns (d: Option<(Role, Id)>)
    requires Distinct(ids)
    ensures Decides(ids, grants, d)
  {
    var depthById := IndexById(ids);
    var role: Option<Role> := None;
    var boundary: Option<Id> := None;
    var boundaryDepth: nat := |ids|;
    for j := 0 to |grants|
      invariant BestOf(ids, grants[..j], role, boundary, boundaryDepth)
    {
      var grant := grants[j];
      assert grants[..j + 1] == grants[..j] + [grant];
      if grant.resource in depthById {
        var depth := depthById[grant.resource];
        AnotherGrant(ids, grants[..j], grant, depth, role, boundary, boundaryDepth);
        role := Some(MaxRole(role, grant.role));
        if depth < boundaryDepth {
          boundaryDepth := depth;
          boundary := Some(grant.resource);
        }
      } else {
        SkippedGrant(ids, grants[..j], grant, role, boundary, boundaryDepth);
      }
    }
    assert grants[..|grants|] == grants;
    d := if role.Some? then Some((role.value, boundary.value)) else None;
  }

  lemma AnotherGrant(
    ids: seq<string>, seen: seq<Grant>, grant: Grant, depth: nat,
    role: Option<Role>, boundary: Option<Id>, boundaryDepth: nat)
    requires Distinct(ids) && depth < |ids| && ids[depth] == grant.resource
    requires BestOf(ids, seen, role, boundary, boundaryDepth)
    ensures var closer := depth < boundaryDepth;
            BestOf(ids, seen + [grant], Some(MaxRole(role, grant.role)),
                   if closer then Some(grant.resource) else boundary, if closer then depth else boundaryDepth)
  {
  }

  lemma SkippedGrant(
    ids: seq<string>, seen: seq<Grant>, grant: Grant, role: Option<Role>, boundary: Option<Id>, boundaryDepth: nat)
    requires BestOf(ids, seen, role, boundary, boundaryDepth) && grant.resource !in ids
    ensures BestOf(ids, seen + [grant], role, boundary, boundaryDepth)
  {
  }

  /** The decision is determined by the set of grants: neither order nor repetition matters. */
  lemma DecisionUnique(ids: seq<string>, grants: seq<Grant>, grants': seq<Grant>,
                       d: Option<(Role, Id)>, d': Option<(Role, Id)>)
    requires forall g :: g in grants <==> g in grants'
    requires Decides(ids, grants, d) && Decides(ids, grants', d')
    ensures d == d'
  {
  }

  /**
   Access is inherited: on a longer ancestor list the boundary stays, and the role can only
   grow, for any pool of grants with any roles.
   */
  lemma DecisionInherited(ids: seq<string>, more: seq<string>, pool: seq<Grant>,
                          d: Option<(Role, Id)>, d': Option<(Role, Id)>)
    requires ids <= more && Distinct(more)
    requires Decides(ids, pool, d) && Decides(more, pool, d') && d.Some?
    ensures d'.Some? && d'.value.1 == d.value.1 && Satisfies(d'.value.0, d.value.0)
  {
  }

  // ---- the decision, by parent links ----

  datatype Decision = Decision(role: Role, boundary: Option<Id>)

  ghost function GrantedIds(t: Snapshot, actor: Option<Actor>, token: Option<string>, now: int): set<Id> {
    set s | s in t.shares && Admits(t.shares[s], actor, token, now) :: t.shares[s].resource
  }

  /** The first id of a chain that is in a set. */
  ghost function Topmost(c: seq<Id>, granted: set<Id>): Option<Id> {
    if c == [] then None
    else if c[0] in granted then Some(c[0])
    else Topmost(c[1..], granted)
  }

  predicate Owns(t: Snapshot, actor: Option<Actor>, n: Resource)
    requires LiveResource(t, n) && RoomOf(t, n) in t.rooms
  {
    actor.Some? && t.rooms[RoomOf(t, n)].owner == actor.value.id
  }

  ghost function DecisionFor(
    t: Snapshot, n: Resource, actor: Option<Actor>, token: Option<string>, now: int): Option<Decision>
    requires Inv(t)
  {
    if !LiveResource(t, n) then None
    else
      RoomExists(t, n);
      if Owns(t, actor, n) then Some(Decision(Owner, None))
      else
        var top := Topmost(NodeChain(t, n), GrantedIds(t, actor, token, now));
        if top.Some? then Some(Decision(Viewer, top)) else None
  }

  lemma RoomExists(t: Snapshot, n: Resource)
    requires Inv(t) && LiveResource(t, n)
    ensures LiveRoom(t.rooms, RoomOf(t, n))
  {
  }

  lemma {:induction false} TopmostIs(c: seq<Id>, granted: set<Id>, top: Option<Id>)
    requires if top.None? then forall k :: 0 <= k < |c| ==> c[k] !in granted
             else exists k :: 0 <= k < |c| && c[k] == top.value && top.value in granted
                    && forall j :: 0 <= j < k ==> c[j] !in granted
    ensures Topmost(c, granted) == top
  {
    if c == [] || c[0] in granted {
    } else {
      if top.Some? {
        var k :| 0 <= k < |c| && c[k] == top.value && top.value in granted
          && forall j :: 0 <= j < k ==> c[j] !in granted;
        assert c[1..][k - 1] == top.value;
      }
      TopmostIs(c[1..], granted, top);
    }
  }

  lemma {:induction false} TopmostPosition(c: seq<Id>, granted: set<Id>) returns (k: nat)
    ensures Topmost(c, granted).None? ==> k == |c|
    ensures Topmost(c, granted).Some? ==> k < |c| && Topmost(c, granted).value == c[k] && c[k] in granted
    ensures k <= |c| && forall j :: 0 <= j < k ==> c[j] !in granted
  {
    if c == [] || c[0] in granted {
      k := 0;
    } else {
      k := TopmostPosition(c[1..], granted);
      k := k + 1;
      forall j | 0 <= j < k ensures c[j] !in granted {
        assert j > 0 ==> c[j] == c[1..][j - 1];
      }
    }
  }

  method Resolve(db: Database, n: Resource, actor: Option<Actor>, token: Option<string>, now: int)
    returns (d: Option<Decision>)
    requires Inv(db.Rows())
    ensures d == DecisionFor(db.Rows(), n, actor, token, now)
  {
    var node := LoadResource(db, n);
    if node.None? {
      return None;
    }
    if actor.Some? && node.value.owner == actor.value.id {
      return Some(Decision(Owner, None));
    }
    if actor.None? && token.None? {
      NobodyAdmitted(db.Rows(), n, now);
      return None;
    }
    var ids := node.value.ancestorIds;
    NodeChainDistinct(db.Rows(), n);
    var grants := FindGrants(db, ids, actor, token, now);
    var strongest := StrongestGrant(ids, grants);
    GrantsDecide(db.Rows(), n, actor, token, now, grants, strongest);
    d := if strongest.Some? then Some(Decision(strongest.value.0, Some(strongest.value.1))) else None;
  }

  lemma NobodyAdmitted(t: Snapshot, n: Resource, now: int)
    requires Inv(t) && LiveResource(t, n)
    ensures DecisionFor(t, n, None, None, now).None?
  {
    assert GrantedIds(t, None, None, now) == {};
    TopmostIs(NodeChain(t, n), {}, None);
  }

  ghost predicate GrantRow(t: Snapshot, ids: seq<string>, actor: Option<Actor>, token: Option<string>, now: int, g: Grant) {
    exists s :: s in t.shares && Admits(t.shares[s], actor, token, now)
      && t.shares[s].resource in ids
      && g == Grant(t.shares[s].resource, FromShareRole(t.shares[s].role))
  }

  /** What the loop decides on the grant rows is the topmost granted ancestor. */
  lemma GrantsDecide(t: Snapshot, n: Resource, actor: Option<Actor>, token: Option<string>, now: int,
                     grants: seq<Grant>, d: Option<(Role, Id)>)
    requires Inv(t) && LiveResource(t, n)
    requires forall g :: g in grants <==> GrantRow(t, NodeChain(t, n), actor, token, now, g)
    requires Decides(NodeChain(t, n), grants, d)
    ensures d.Some? ==> d.value.0 == Viewer
    ensures Topmost(NodeChain(t, n), GrantedIds(t, actor, token, now))
            == if d.Some? then Some(d.value.1) else None
  {
    var c, granted := NodeChain(t, n), GrantedIds(t, actor, token, now);
    forall id | id in granted && id in c ensures Grant(id, Viewer) in grants {
      var s :| s in t.shares && Admits(t.shares[s], actor, token, now) && t.shares[s].resource == id;
      assert GrantRow(t, c, actor, token, now, Grant(id, Viewer));
    }
    forall g | g in grants ensures g.resource in granted && g.role == Viewer {
      assert GrantRow(t, c, actor, token, now, g);
    }
    if d.Some? {
      var top: nat :| TopAmong(c, grants, top) && c[top] == d.value.1;
      forall j | 0 <= j < top ensures c[j] !in granted {
        var id := c[j];
        assert id in granted ==> Grant(id, Viewer) in grants;
      }
      TopmostIs(c, granted, Some(d.value.1));
    } else {
      forall k | 0 <= k < |c| ensures c[k] !in granted {
        var id := c[k];
        assert id in granted ==> Grant(id, Viewer) in grants;
      }
      TopmostIs(c, granted, None);
    }
  }

  // ---- what the decision means ----

  /** An owner's decision, and nobody else's, is Owner: the room's owner decides it and nothing more. */
  lemma OwnerIsRoomOwner(t: Snapshot, n: Resource, actor: Option<Actor>, token: Option<string>, now: int)
    requires Inv(t) && LiveResource(t, n)
    ensures RoomOf(t, n) in t.rooms
    ensures DecisionFor(t, n, actor, token, now) == Some(Decision(Owner, None))
            <==> actor.Some? && t.rooms[RoomOf(t, n)].owner == actor.value.id
    ensures DecisionFor(t, n, actor, token, now).Some? && DecisionFor(t, n, actor, token, now).value.role == Owner ==>
              actor.Some? && t.rooms[RoomOf(t, n)].owner == actor.value.id
  {
    RoomExists(t, n);
  }

  /**
   For everyone else the shares decide: a share counts if it is neither revoked nor expired and
   names the actor's id or e-mail address, or is the public link with the token. The boundary is
   the first ancestor that has such a share.
   */
  lemma SharesDecide(
    t: Snapshot, n: Resource, actor: Option<Actor>, token: Option<string>, now: int, shared: set<Id>)
    requires Inv(t) && LiveResource(t, n) && RoomOf(t, n) in t.rooms
    requires actor.None? || t.rooms[RoomOf(t, n)].owner != actor.value.id
    requires shared == set s | s in t.shares
              && !t.shares[s].revoked && (t.shares[s].expiresAt.Some? ==> now < t.shares[s].expiresAt.value)
              && ((actor.Some? && t.shares[s].kind == UserShare
                   && (t.shares[s].granteeUser == Some(actor.value.id)
                       || (t.shares[s].granteeEmail.Some?
                           && Lower(t.shares[s].granteeEmail.value) == Lower(actor.value.email))))
                  || (token.Some? && t.shares[s].kind == PublicLink && t.shares[s].token == token))
              :: t.shares[s].resource
    ensures var d, c := DecisionFor(t, n, actor, token, now), NodeChain(t, n);
            && (d.None? <==> forall x :: x in c ==> x !in shared)
            && (d.Some? ==> exists k ::
                  && 0 <= k < |c| && c[k] in shared && (forall j :: 0 <= j < k ==> c[j] !in shared)
                  && d == Some(Decision(Viewer, Some(c[k]))))
  {
    assert shared == GrantedIds(t, actor, token, now);
    var k := TopmostPosition(NodeChain(t, n), shared);
  }

  /** The ancestors are the room, the folders that a walk up the parent links meets, and the node. */
  lemma NodeChainMeaning(t: Snapshot, n: Resource) returns (walk: seq<Id>)
    requires Inv(t) && LiveResource(t, n)
    ensures match n.kind
            case DataRoomType => NodeChain(t, n) == [n.id]
            case FolderType =>
              NodeChain(t, n) == [t.folders[n.id].room] + walk && Lineage(t.folders, n.id, walk)
            case FileType =>
              var row := t.files[n.id];
              && NodeChain(t, n) == [row.room] + walk + [n.id]
              && if row.folder.None? then walk == [] else Lineage(t.folders, row.folder.value, walk)
  {
    walk := [];
    match n.kind
    case DataRoomType =>
    case FolderType =>
      walk := Chain(t.folders, n.id);
      ChainIsLineage(t.folders, n.id);
    case FileType =>
      assert LiveFile(t.files, n.id);
      walk := ParentChain(t.folders, t.files[n.id].folder);
      if t.files[n.id].folder.Some? {
        ChainIsLineage(t.folders, t.files[n.id].folder.value);
      }
  }

  /** Addresses are compared letter by letter, and only the case of ASCII letters is ignored. */
  lemma LowerIgnoresCase(a: string, b: string)
    ensures Lower(a) == Lower(b)
            <==> |a| == |b| && forall k :: 0 <= k < |a| ==>
                   || a[k] == b[k]
                   || ('A' <= a[k] <= 'Z' && b[k] as int == a[k] as int - 'A' as int + 'a' as int)
                   || ('A' <= b[k] <= 'Z' && a[k] as int == b[k] as int - 'A' as int + 'a' as int)
  {
    var x, y := Lower(a), Lower(b);
    if x == y {
      forall k | 0 <= k < |a|
        ensures a[k] == b[k] || ('A' <= a[k] <= 'Z' && b[k] as int == a[k] as int - 'A' as int + 'a' as int)
                || ('A' <= b[k] <= 'Z' && a[k] as int == b[k] as int - 'A' as int + 'a' as int)
      {
        assert x[k] == y[k];
      }
    }
  }

  /** Owner stands above Viewer; the stronger of two roles is Owner exactly if one of them is. */
  lemma RoleOrder(a: Role, b: Role)
    ensures Satisfies(a, b) <==> a == b || a == Owner
    ensures MaxRole(None, b) == b && (MaxRole(Some(a), b) == Owner <==> a == Owner || b == Owner)
  {
  }
}
