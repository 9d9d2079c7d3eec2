/** The "shared with me" list, its collapsing, and its agreement with the access check. */
module Shares {
  import opened Base
  import opened Tables
  import opened Paths
  import opened Tree
  import opened Integrity
  import opened Access

  /** Ids are unique across tables, so an id names its resource. */
  ghost function ResourceOf(t: Snapshot, id: Id): Resource {
    Resource(if id in t.rooms then DataRoomType else if id in t.folders then FolderType else FileType, id)
  }

  ghost predicate LiveIds(t: Snapshot, ids: set<Id>) {
    forall x :: x in ids ==> LiveResource(t, ResourceOf(t, x))
  }

  lemma KindIsTable(t: Snapshot, n: Resource)
    requires Inv(t) && LiveResource(t, n)
    ensures n == ResourceOf(t, n.id)
  {
  }

  /** a is a proper ancestor of x, by parent links and room. */
  ghost predicate Above(t: Snapshot, a: Id, x: Id)
    requires Inv(t) && LiveResource(t, ResourceOf(t, x))
  {
    a != x && a in NodeChain(t, ResourceOf(t, x))
  }

  ghost predicate IsRoot(t: Snapshot, shared: set<Id>, x: Id)
    requires Inv(t) && LiveIds(t, shared)
  {
    x in shared && forall a :: a in shared ==> !Above(t, a, x)
  }

  // ---- the rows of the query ----

  datatype Row = Row(
    kind: ResourceType, resource: Id, room: Id,
    folderPath: Option<string>, fileFolderPath: Option<string>, sharedAt: int)

  /** The LEFT JOINs on the live resource and the JOIN on its live room. */
  function JoinedRow(t: Snapshot, s: Share): Option<Row> {
    var n := Resource(s.resourceType, s.resource);
    if !LiveResource(t, n) || !LiveRoom(t.rooms, RoomOf(t, n)) then None
    else Some(RowFor(t, n, s.createdAt))
  }

  function RowFor(t: Snapshot, n: Resource, sharedAt: int): Row
    requires LiveResource(t, n)
  {
    var folderPath := if n.kind.FolderType? then Some(t.folders[n.id].path) else None;
    var fileFolderPath :=
      if n.kind.FileType? && t.files[n.id].folder.Some? && LiveFolder(t.folders, t.files[n.id].folder.value)
      then Some(t.folders[t.files[n.id].folder.value].path) else None;
    Row(n.kind, n.id, RoomOf(t, n), folderPath, fileFolderPath, sharedAt)
  }

  predicate InSharedQuery(t: Snapshot, s: Share, actor: Actor, now: int) {
    Unexpired(s, now) && SharedWith(s, actor) && JoinedRow(t, s).Some?
  }

  ghost predicate IsSharedRow(t: Snapshot, actor: Actor, now: int, row: Row) {
    exists s :: s in t.shares && InSharedQuery(t, t.shares[s], actor, now)
      && JoinedRow(t, t.shares[s]).value == row
  }

  ghost predicate NewestFirst(rows: seq<Row>) {
    forall j, k :: 0 <= j < k < |rows| ==> rows[j].sharedAt >= rows[k].sharedAt
  }

  method Newest(shares: map<Id, Share>, ids: set<Id>) returns (newest: Id)
    requires ids != {} && ids <= shares.Keys
    ensures newest in ids && forall s :: s in ids ==> shares[s].createdAt <= shares[newest].createdAt
  {
    newest :| newest in ids;
    var rest := ids - {newest};
    while rest != {}
      invariant rest <= ids && newest in ids
      invariant forall s :: s in ids - rest ==> shares[s].createdAt <= shares[newest].createdAt
      decreases rest
    {
      var s: Id :| s in rest;
      if shares[s].createdAt > shares[newest].createdAt {
        newest := s;
      }
      rest := rest - {s};
    }
  }

  /** ORDER BY created_at DESC; one row per share, so the same resource may occur several times. */
  method SharedRows(db: Database, actor: Actor, now: int) returns (rows: seq<Row>)
    ensures forall row :: row in rows <==> IsSharedRow(db.Rows(), actor, now, row)
    ensures NewestFirst(rows)
  {
    var t := db.Rows();
    var rest: set<Id> := set s | s in t.shares && InSharedQuery(t, t.shares[s], actor, now);
    ghost var matching := rest;
    rows := [];
    while rest != {}
      invariant rest <= matching && NewestFirst(rows)
      invariant forall row :: row in rows <==>
                  exists s :: s in matching && s !in rest && JoinedRow(t, t.shares[s]).value == row
      invariant forall k, s :: 0 <= k < |rows| && s in rest ==> rows[k].sharedAt >= t.shares[s].createdAt
      decreases rest
    {
      var s := Newest(t.shares, rest);
      var row := JoinedRow(t, t.shares[s]).value;
      assert row.sharedAt == t.shares[s].createdAt;
      rows, rest := rows + [row], rest - {s};
      assert s in matching && s !in rest;
    }
  }

  // ---- collapsing ----

  function Filter(rows: seq<Row>, keep: Row -> bool): (kept: seq<Row>)
    ensures forall row :: row in kept <==> row in rows && keep(row)
  {
    if rows == [] then []
    else
      var rest := Filter(rows[1..], keep);
      assert rows == [rows[0]] + rows[1..];
      if keep(rows[0]) then [rows[0]] + rest else rest
  }

  lemma {:induction false} FilterNoRepeats(rows: seq<Row>, keep: Row -> bool)
    requires NoRepeats(rows)
    ensures NoRepeats(Filter(rows, keep))
  {
    if rows == [] {
    } else {
      FilterNoRepeats(rows[1..], keep);
      var rest := Filter(rows[1..], keep);
      forall k | 0 <= k < |rest| ensures rest[k].resource != rows[0].resource {
        assert rest[k] in rows[1..];
      }
    }
  }

  /** `kept` is `rows` with some rows left out. */
  ghost predicate InOrder(kept: seq<Row>, rows: seq<Row>) {
    if kept == [] then true
    else rows != [] && if kept[0] == rows[0] then InOrder(kept[1..], rows[1..]) else InOrder(kept, rows[1..])
  }

  lemma {:induction false} FilterInOrder(rows: seq<Row>, keep: Row -> bool)
    requires NoRepeats(rows)
    ensures InOrder(Filter(rows, keep), rows)
  {
    if rows == [] {
    } else {
      FilterInOrder(rows[1..], keep);
      var rest := Filter(rows[1..], keep);
      if keep(rows[0]) {
        assert ([rows[0]] + rest)[1..] == rest;
      } else if rest != [] {
        assert rest[0] in rows[1..];
      }
    }
  }

  lemma {:induction false} InOrderMembers(kept: seq<Row>, rows: seq<Row>)
    requires InOrder(kept, rows)
    ensures forall row :: row in kept ==> row in rows
    ensures NewestFirst(rows) ==> NewestFirst(kept)
    decreases |rows|
  {
    if kept == [] {
    } else if kept[0] == rows[0] {
      InOrderMembers(kept[1..], rows[1..]);
      assert kept == [kept[0]] + kept[1..] && rows == [rows[0]] + rows[1..];
      forall k | 0 < k < |kept| && NewestFirst(rows) ensures kept[0].sharedAt >= kept[k].sharedAt {
        assert kept[1..][k - 1] in rows[1..];
      }
      forall j, k | 0 < j < k < |kept| && NewestFirst(rows) ensures kept[j].sharedAt >= kept[k].sharedAt {
        assert NewestFirst(rows[1..]);
        assert kept[1..][j - 1].sharedAt >= kept[1..][k - 1].sharedAt;
      }
    } else {
      InOrderMembers(kept, rows[1..]);
      assert rows == [rows[0]] + rows[1..];
    }
  }

  function PathOrEmpty(path: Option<string>): string {
    if path.Some? then path.value else ""
  }

  /** A shared folder that hides a folder or file row, judged by path prefixes. */
  predicate HidesFolder(folder: Row, row: Row) {
    folder.room == row.room && folder.folderPath != row.folderPath
    && PathOrEmpty(folder.folderPath) <= PathOrEmpty(row.folderPath)
  }

  predicate HidesFile(folder: Row, row: Row) {
    folder.room == row.room && PathOrEmpty(folder.folderPath) <= PathOrEmpty(row.fileFolderPath)
  }

  predicate Visible(row: Row, sharedRoomIds: set<Id>, sharedFolders: seq<Row>) {
    if !row.kind.DataRoomType? && row.room in sharedRoomIds then false
    else
      match row.kind
      case FolderType => !exists folder | folder in sharedFolders :: HidesFolder(folder, row)
      case FileType => !exists folder | folder in sharedFolders :: HidesFile(folder, row)
      case DataRoomType => true
  }

  /** Every row is the joined row of some live resource. */
  ghost predicate RowsOf(t: Snapshot, rows: seq<Row>) {
    forall row :: row in rows ==>
      LiveResource(t, Resource(row.kind, row.resource)) && row == RowFor(t, Resource(row.kind, row.resource), row.sharedAt)
  }

  ghost function IdsOf(rows: seq<Row>): set<Id> {
    set k | 0 <= k < |rows| :: rows[k].resource
  }

  ghost predicate NoRepeats(rows: seq<Row>) {
    forall j, k :: 0 <= j < k < |rows| ==> rows[j].resource != rows[k].resource
  }

  lemma RowsAreLive(t: Snapshot, rows: seq<Row>)
    requires Inv(t) && RowsOf(t, rows)
    ensures LiveIds(t, IdsOf(rows))
  {
  }

  /** The first row of each resource, in the order of the rows. */
  ghost function FirstOnly(rows: seq<Row>): seq<Row> {
    if rows == [] then []
    else
      var front, last := rows[..|rows| - 1], rows[|rows| - 1];
      FirstOnly(front) + if last.resource in IdsOf(front) then [] else [last]
  }

  lemma {:induction false} FirstOnlyRows(rows: seq<Row>)
    ensures NoRepeats(FirstOnly(rows)) && IdsOf(FirstOnly(rows)) == IdsOf(rows)
    ensures forall row :: row in FirstOnly(rows) ==> row in rows
  {
    if rows == [] {
    } else {
      var front, last := rows[..|rows| - 1], rows[|rows| - 1];
      var kept := FirstOnly(front);
      FirstOnlyRows(front);
      assert rows == front + [last];
      IdsSnoc(front, last);
      IdsSnoc(kept, last);
      if last.resource in IdsOf(front) {
        assert FirstOnly(rows) == kept && IdsOf(rows) == IdsOf(front);
      } else {
        assert FirstOnly(rows) == kept + [last];
      }
    }
  }

  lemma NewestSnoc(rows: seq<Row>, row: Row)
    ensures NewestFirst(rows + [row]) <==> NewestFirst(rows) && forall r :: r in rows ==> r.sharedAt >= row.sharedAt
  {
    var more := rows + [row];
    if NewestFirst(more) {
      forall r | r in rows ensures r.sharedAt >= row.sharedAt {
        var k :| 0 <= k < |rows| && rows[k] == r;
        assert more[k] == r && more[|rows|] == row;
      }
      assert more[..|rows|] == rows;
      forall j, k | 0 <= j < k < |rows| ensures rows[j].sharedAt >= rows[k].sharedAt {
        assert more[j] == rows[j] && more[k] == rows[k];
      }
    }
  }

  /** With the newest row first, the first rows are in that order too. */
  lemma {:induction false} FirstOnlyNewestFirst(rows: seq<Row>)
    requires NewestFirst(rows)
    ensures NewestFirst(FirstOnly(rows))
  {
    if rows == [] {
    } else {
      var front, last := rows[..|rows| - 1], rows[|rows| - 1];
      assert rows == front + [last];
      NewestSnoc(front, last);
      FirstOnlyNewestFirst(front);
      FirstOnlyRows(front);
      NewestSnoc(FirstOnly(front), last);
    }
  }

  /** ... and the first row of a resource is its newest. */
  lemma {:induction false} FirstOnlyNewest(rows: seq<Row>, e: Row, r: Row)
    requires NewestFirst(rows) && e in FirstOnly(rows) && r in rows && e.resource == r.resource
    ensures r.sharedAt <= e.sharedAt
  {
    var front, last := rows[..|rows| - 1], rows[|rows| - 1];
    assert rows == front + [last];
    NewestSnoc(front, last);
    FirstOnlyRows(front);
    forall row | row in front ensures row.resource in IdsOf(front) {
      var k :| 0 <= k < |front| && front[k] == row;
      assert front[k].resource == row.resource;
    }
    if e in FirstOnly(front) && r in front {
      FirstOnlyNewest(front, e, r);
    }
  }

  /** The loop over the rows: a Map keeps the first row of each resource in insertion order. */
  method FirstRows(rows: seq<Row>) returns (entries: seq<Row>)
    ensures entries == FirstOnly(rows)
  {
    entries := [];
    var seen: set<Id> := {};
    for k := 0 to |rows|
      invariant entries == FirstOnly(rows[..k]) && seen == IdsOf(rows[..k])
    {
      var row := rows[k];
      IdsSnoc(rows[..k], row);
      assert rows[..k + 1] == rows[..k] + [row] && rows[..k + 1][..k] == rows[..k];
      if row.resource !in seen {
        entries, seen := entries + [row], seen + {row.resource};
      }
    }
    assert rows[..|rows|] == rows;
  }

  lemma IdsSnoc(rows: seq<Row>, row: Row)
    ensures IdsOf(rows + [row]) == IdsOf(rows) + {row.resource}
    ensures NoRepeats(rows) && row.resource !in IdsOf(rows) ==> NoRepeats(rows + [row])
  {
    var more := rows + [row];
    forall x | x in IdsOf(rows) + {row.resource} ensures x in IdsOf(more) {
      if x == row.resource {
        assert more[|rows|].resource == x;
      } else {
        var k :| 0 <= k < |rows| && rows[k].resource == x;
        assert more[k].resource == x;
      }
    }
    forall j, k | 0 <= j < k < |more| && NoRepeats(rows) && row.resource !in IdsOf(rows)
      ensures more[j].resource != more[k].resource
    {
      assert rows[j].resource in IdsOf(rows);
    }
  }

  /**
   The list keeps exactly the shared resources that no other shared resource lies above, each
   with its first row, in the order of the rows.
   */
  method CollapseNested(rows: seq<Row>, ghost t: Snapshot) returns (visible: seq<Row>)
    requires Inv(t) && RowsOf(t, rows)
    ensures LiveIds(t, IdsOf(rows))
    ensures forall x :: x in IdsOf(visible) <==> IsRoot(t, IdsOf(rows), x)
    ensures NoRepeats(visible) && InOrder(visible, FirstOnly(rows))
  {
    RowsAreLive(t, rows);
    var entries := FirstRows(rows);
    FirstOnlyRows(rows);
    var rooms := Filter(entries, (row: Row) => row.kind.DataRoomType?);
    var sharedRoomIds := set row: Row | row in rooms :: row.room;
    var sharedFolders := Filter(entries, (row: Row) => row.kind.FolderType? && PathOrEmpty(row.folderPath) != "");
    forall row | row in entries
      ensures Visible(row, sharedRoomIds, sharedFolders) <==> IsRoot(t, IdsOf(entries), row.resource)
    {
      VisibleIsRoot(t, entries, row, sharedRoomIds, sharedFolders);
    }
    var keep := (row: Row) => Visible(row, sharedRoomIds, sharedFolders);
    visible := Filter(entries, keep);
    FilterNoRepeats(entries, keep);
    FilterInOrder(entries, keep);
    VisibleIds(t, entries, visible);
  }

  lemma VisibleIds(t: Snapshot, entries: seq<Row>, visible: seq<Row>)
    requires Inv(t) && LiveIds(t, IdsOf(entries))
    requires forall row :: row in visible ==> row in entries && IsRoot(t, IdsOf(entries), row.resource)
    requires forall row :: row in entries && IsRoot(t, IdsOf(entries), row.resource) ==> row in visible
    ensures forall x :: x in IdsOf(visible) <==> IsRoot(t, IdsOf(entries), x)
  {
  }

  lemma VisibleIsRoot(
    t: Snapshot, entries: seq<Row>, row: Row, sharedRoomIds: set<Id>, sharedFolders: seq<Row>)
    requires Inv(t) && RowsOf(t, entries) && LiveIds(t, IdsOf(entries)) && row in entries
    requires forall x :: x in sharedRoomIds <==> exists r :: r in entries && r.kind.DataRoomType? && r.room == x
    requires forall r :: r in sharedFolders <==>
               r in entries && r.kind.FolderType? && PathOrEmpty(r.folderPath) != ""
    ensures Visible(row, sharedRoomIds, sharedFolders) <==> IsRoot(t, IdsOf(entries), row.resource)
  {
    var x := row.resource;
    var n := Resource(row.kind, x);
    KindIsTable(t, n);
    assert x in IdsOf(entries) by {
      var k :| 0 <= k < |entries| && entries[k] == row;
      assert entries[k].resource == x;
    }
    if !Visible(row, sharedRoomIds, sharedFolders) {
      var a := HiderAbove(t, entries, row, sharedRoomIds, sharedFolders);
    }
    if a :| a in IdsOf(entries) && Above(t, a, x) {
      AboveHides(t, entries, row, sharedRoomIds, sharedFolders, a);
    }
  }

  lemma RoomFirst(t: Snapshot, n: Resource)
    requires Inv(t) && LiveResource(t, n)
    ensures RoomOf(t, n) in NodeChain(t, n) && RoomOf(t, n) in t.rooms
  {
  }

  /** A folder of the node's room sits among its ancestors exactly if its path is a prefix. */
  lemma FolderAbove(t: Snapshot, n: Resource, a: Id)
    requires Inv(t) && LiveResource(t, n) && !n.kind.DataRoomType? && LiveFolder(t.folders, a)
    ensures a in NodeChain(t, n) <==>
              if n.kind.FolderType? then t.folders[a].path <= t.folders[n.id].path
              else t.files[n.id].folder.Some? && LiveFolder(t.folders, t.files[n.id].folder.value)
                   && t.folders[a].path <= t.folders[t.files[n.id].folder.value].path
    ensures a in NodeChain(t, n) ==> t.folders[a].room == RoomOf(t, n)
  {
    RoomExists(t, n);
    if n.kind.FolderType? {
      PathTestsAreReachability(t.folders, n.id, a);
      ReachesIffInChain(t.folders, n.id, a);
    } else {
      assert LiveFile(t.files, n.id);
      var folder := t.files[n.id].folder;
      if folder.Some? {
        PathTestsAreReachability(t.folders, folder.value, a);
        ReachesIffInChain(t.folders, folder.value, a);
      }
    }
  }

  lemma HiderAbove(
    t: Snapshot, entries: seq<Row>, row: Row, sharedRoomIds: set<Id>, sharedFolders: seq<Row>) returns (a: Id)
    requires Inv(t) && RowsOf(t, entries) && row in entries
    requires forall x :: x in sharedRoomIds <==> exists r :: r in entries && r.kind.DataRoomType? && r.room == x
    requires forall r :: r in sharedFolders <==>
               r in entries && r.kind.FolderType? && PathOrEmpty(r.folderPath) != ""
    requires !Visible(row, sharedRoomIds, sharedFolders)
    ensures a in IdsOf(entries) && a != row.resource && a in NodeChain(t, Resource(row.kind, row.resource))
  {
    var n := Resource(row.kind, row.resource);
    RoomFirst(t, n);
    var hider: Row;
    if row.room in sharedRoomIds {
      hider :| hider in entries && hider.kind.DataRoomType? && hider.room == row.room;
    } else {
      if row.kind.FolderType? {
        hider :| hider in sharedFolders && HidesFolder(hider, row);
      } else {
        hider :| hider in sharedFolders && HidesFile(hider, row);
      }
      FolderAbove(t, n, hider.resource);
    }
    a := hider.resource;
    var k :| 0 <= k < |entries| && entries[k] == hider;
    assert entries[k].resource == a;
  }

  lemma AboveHides(
    t: Snapshot, entries: seq<Row>, row: Row, sharedRoomIds: set<Id>, sharedFolders: seq<Row>, a: Id)
    requires Inv(t) && RowsOf(t, entries) && row in entries
    requires forall x :: x in sharedRoomIds <==> exists r :: r in entries && r.kind.DataRoomType? && r.room == x
    requires forall r :: r in sharedFolders <==>
               r in entries && r.kind.FolderType? && PathOrEmpty(r.folderPath) != ""
    requires a in IdsOf(entries) && a != row.resource && a in NodeChain(t, Resource(row.kind, row.resource))
    ensures !Visible(row, sharedRoomIds, sharedFolders)
  {
    var n := Resource(row.kind, row.resource);
    var k :| 0 <= k < |entries| && entries[k].resource == a;
    var hider := entries[k];
    assert hider in entries;
    match hider.kind
    case DataRoomType =>
      RoomInChain(t, n, a);
    case FolderType =>
      FolderAbove(t, n, a);
      PathIsChain(t.folders, a);
      RenderEndsInSlash(Chain(t.folders, a));
      assert hider in sharedFolders;
      if row.kind.FolderType? {
        PathIsChain(t.folders, n.id);
        PathCode(Chain(t.folders, a), Chain(t.folders, n.id));
        assert HidesFolder(hider, row);
      } else {
        assert HidesFile(hider, row);
      }
    case FileType =>
      FileInChain(t, n, a);
  }

  // ---- roots: an antichain that loses nothing ----

  /** The topmost shared id of a chain is a root. */
  lemma TopmostIsRoot(t: Snapshot, shared: set<Id>, n: Resource) returns (root: Option<Id>)
    requires Inv(t) && LiveIds(t, shared) && LiveResource(t, n)
    ensures root == Topmost(NodeChain(t, n), shared)
    ensures root.Some? ==> IsRoot(t, shared, root.value) && root.value in NodeChain(t, n)
    ensures forall x :: x in NodeChain(t, n) && IsRoot(t, shared, x) ==> root == Some(x)
  {
    var c := NodeChain(t, n);
    var k := TopmostPosition(c, shared);
    root := Topmost(c, shared);
    if root.Some? {
      RootAt(t, shared, n, k);
    }
    NodeChainDistinct(t, n);
    forall j | k < j < |c| && c[j] in shared ensures Above(t, c[k], c[j]) {
      PrefixHolds(t, n, c[j], j, k);
    }
  }

  lemma PrefixHolds(t: Snapshot, n: Resource, x: Id, j: nat, k: nat)
    requires Inv(t) && LiveResource(t, n) && LiveResource(t, ResourceOf(t, x))
    requires k <= j < |NodeChain(t, n)| && NodeChain(t, n)[j] == x
    ensures NodeChain(t, n)[k] in NodeChain(t, ResourceOf(t, x))
  {
    var c, d := NodeChain(t, n), NodeChain(t, ResourceOf(t, x));
    NodeChainPrefix(t, n, ResourceOf(t, x));
    NodeChainDistinct(t, ResourceOf(t, x));
    NodeChainDistinct(t, n);
    assert d[|d| - 1] == c[|d| - 1];
    assert |d| - 1 == j;
    assert d[k] == c[k];
  }

  lemma RootAt(t: Snapshot, shared: set<Id>, n: Resource, k: nat)
    requires Inv(t) && LiveIds(t, shared) && LiveResource(t, n)
    requires k < |NodeChain(t, n)| && NodeChain(t, n)[k] in shared
    requires forall j :: 0 <= j < k ==> NodeChain(t, n)[j] !in shared
    ensures IsRoot(t, shared, NodeChain(t, n)[k])
  {
    var c := NodeChain(t, n);
    var m := ResourceOf(t, c[k]);
    NodeChainPrefix(t, n, m);
    NodeChainDistinct(t, m);
    NodeChainDistinct(t, n);
    var d := NodeChain(t, m);
    assert d[|d| - 1] == c[|d| - 1];
    forall a | a in d && a != c[k] ensures a !in shared {
      var j :| 0 <= j < |d| && d[j] == a;
      assert c[j] == a;
      assert j < k;
    }
  }

  /** No root lies above another, and every shared resource lies at or under some root. */
  lemma RootsLoseNothing(t: Snapshot, shared: set<Id>, x: Id) returns (root: Id)
    requires Inv(t) && LiveIds(t, shared) && x in shared
    ensures IsRoot(t, shared, root) && (root == x || Above(t, root, x))
    ensures forall a, b :: IsRoot(t, shared, a) && IsRoot(t, shared, b) ==> !Above(t, a, b)
  {
    var n := ResourceOf(t, x);
    NodeChainDistinct(t, n);
    var c := NodeChain(t, n);
    var k := TopmostPosition(c, shared);
    assert c[|c| - 1] in shared;
    var top := TopmostIsRoot(t, shared, n);
    root := top.value;
  }

  // ---- agreement with the access check ----

  ghost function SharedIds(t: Snapshot, actor: Actor, now: int): set<Id> {
    set s | s in t.shares && InSharedQuery(t, t.shares[s], actor, now) :: t.shares[s].resource
  }

  lemma SharedIdsLive(t: Snapshot, actor: Actor, now: int)
    requires Inv(t)
    ensures LiveIds(t, SharedIds(t, actor, now))
  {
  }

  /** The item carries the newest of the actor's shares on its resource. */
  ghost predicate CarriesNewest(t: Snapshot, actor: Actor, now: int, item: Row) {
    && IsSharedRow(t, actor, now, item)
    && forall s :: s in t.shares && InSharedQuery(t, t.shares[s], actor, now) && t.shares[s].resource == item.resource
         ==> t.shares[s].createdAt <= item.sharedAt
  }

  /**
   The list shows each root of the actor's live shares once and nothing else, newest share
   first, each dated by the newest share on it.
   */
  method SharedWithMe(db: Database, actor: Actor, now: int) returns (items: seq<Row>)
    requires Inv(db.Rows())
    ensures LiveIds(db.Rows(), SharedIds(db.Rows(), actor, now))
    ensures forall x :: x in IdsOf(items) <==> IsRoot(db.Rows(), SharedIds(db.Rows(), actor, now), x)
    ensures NoRepeats(items)
    ensures forall j, k :: 0 <= j < k < |items| ==> items[j].sharedAt >= items[k].sharedAt
    ensures forall item :: item in items ==>
              CarriesNewest(db.Rows(), actor, now, item) && LiveResource(db.Rows(), Resource(item.kind, item.resource))
    ensures forall item, s ::
              item in items && s in db.shares && db.shares[s].resource == item.resource
              && InSharedQuery(db.Rows(), db.shares[s], actor, now)
              ==> db.shares[s].createdAt <= item.sharedAt
  {
    var rows := SharedRows(db, actor, now);
    ghost var t := db.Rows();
    forall row | row in rows
      ensures LiveResource(t, Resource(row.kind, row.resource))
      ensures row == RowFor(t, Resource(row.kind, row.resource), row.sharedAt)
    {
      assert IsSharedRow(t, actor, now, row);
    }
    forall x ensures x in IdsOf(rows) <==> x in SharedIds(t, actor, now) {
      RowIds(t, rows, actor, now, x);
    }
    assert IdsOf(rows) == SharedIds(t, actor, now);
    items := CollapseNested(rows, t);
    FirstOnlyNewestFirst(rows);
    InOrderMembers(items, FirstOnly(rows));
    forall item | item in items ensures CarriesNewest(t, actor, now, item) {
      FirstCarriesNewest(t, rows, actor, now, item);
    }
  }

  lemma FirstCarriesNewest(t: Snapshot, rows: seq<Row>, actor: Actor, now: int, item: Row)
    requires forall row :: row in rows <==> IsSharedRow(t, actor, now, row)
    requires NewestFirst(rows) && item in FirstOnly(rows)
    ensures CarriesNewest(t, actor, now, item)
  {
    FirstOnlyRows(rows);
    forall s | s in t.shares && InSharedQuery(t, t.shares[s], actor, now) && t.shares[s].resource == item.resource
      ensures t.shares[s].createdAt <= item.sharedAt
    {
      var row := JoinedRow(t, t.shares[s]).value;
      assert IsSharedRow(t, actor, now, row);
      FirstOnlyNewest(rows, item, row);
    }
  }

  lemma RowIds(t: Snapshot, rows: seq<Row>, actor: Actor, now: int, x: Id)
    requires forall row :: row in rows <==> IsSharedRow(t, actor, now, row)
    ensures x in IdsOf(rows) <==> x in SharedIds(t, actor, now)
  {
    if x in IdsOf(rows) {
      var k :| 0 <= k < |rows| && rows[k].resource == x;
      var row := rows[k];
      assert row in rows;
    }
    if x in SharedIds(t, actor, now) {
      var s :| s in t.shares && InSharedQuery(t, t.shares[s], actor, now) && t.shares[s].resource == x;
      var row := JoinedRow(t, t.shares[s]).value;
      assert IsSharedRow(t, actor, now, row);
      var k :| 0 <= k < |rows| && rows[k] == row;
      assert rows[k].resource == x;
    }
  }

  /** Along the ancestors of a live resource, the two queries see the same shares. */
  lemma SameSharesOnChain(t: Snapshot, n: Resource, actor: Actor, now: int, x: Id)
    requires Inv(t) && LiveResource(t, n) && x in NodeChain(t, n)
    ensures x in GrantedIds(t, Some(actor), None, now) <==> x in SharedIds(t, actor, now)
  {
    if x in GrantedIds(t, Some(actor), None, now) {
      var s :| s in t.shares && Admits(t.shares[s], Some(actor), None, now) && t.shares[s].resource == x;
      var m := Resource(t.shares[s].resourceType, x);
      assert ShareTargetExists(t, t.shares[s]);
      match m.kind {
        case DataRoomType =>
          RoomInChain(t, n, x);
          RoomExists(t, n);
        case FolderType =>
          var i := FolderInChain(t, n, x);
          RoomExists(t, m);
        case FileType =>
          FileInChain(t, n, x);
          RoomExists(t, m);
      }
      assert InSharedQuery(t, t.shares[s], actor, now);
    }
  }

  lemma {:induction false} TopmostAgrees(c: seq<Id>, a: set<Id>, b: set<Id>)
    requires forall x :: x in c ==> (x in a <==> x in b)
    ensures Topmost(c, a) == Topmost(c, b)
  {
    if c == [] {
    } else {
      TopmostAgrees(c[1..], a, b);
    }
  }

  /**
   List and access check agree: for anyone but the owner, without a token, a live resource
   is accessible exactly when some listed root is the resource or one of its ancestors; that
   root is unique, and it is the boundary of the decision.
   */
  lemma ListAgreesWithCheck(t: Snapshot, n: Resource, actor: Actor, now: int)
    requires Inv(t) && LiveResource(t, n)
    requires LiveRoom(t.rooms, RoomOf(t, n)) && t.rooms[RoomOf(t, n)].owner != actor.id
    ensures LiveIds(t, SharedIds(t, actor, now))
    ensures var d, shared := DecisionFor(t, n, Some(actor), None, now), SharedIds(t, actor, now);
            && (d.Some? <==> exists root :: IsRoot(t, shared, root) && root in NodeChain(t, n))
            && (d.Some? ==>
                  && d.value.boundary.Some?
                  && IsRoot(t, shared, d.value.boundary.value) && d.value.boundary.value in NodeChain(t, n)
                  && forall root :: IsRoot(t, shared, root) && root in NodeChain(t, n) ==>
                       root == d.value.boundary.value)
  {
    SharedIdsLive(t, actor, now);
    forall x | x in NodeChain(t, n)
      ensures x in GrantedIds(t, Some(actor), None, now) <==> x in SharedIds(t, actor, now)
    {
      SameSharesOnChain(t, n, actor, now, x);
    }
    TopmostAgrees(NodeChain(t, n), GrantedIds(t, Some(actor), None, now), SharedIds(t, actor, now));
    var root := TopmostIsRoot(t, SharedIds(t, actor, now), n);
  }
}
