/** Keyset pagination over (name, id), and whole runs that follow nextCursor. */
module Paging {
  import opened Base
  import opened Tables
  import opened Integrity
  import opened Stats

  datatype Key = Key(name: string, id: Id)

  /** The orders of the database: a collation on names and the uuid order on ids. */
  datatype Order = Order(name: (string, string) -> bool, id: (string, string) -> bool)

  ghost predicate StrictTotal(lt: (string, string) -> bool) {
    && (forall a :: !lt(a, a))
    && (forall a, b :: lt(a, b) || lt(b, a) || a == b)
    && (forall a, b, c :: lt(a, b) && lt(b, c) ==> lt(a, c))
  }

  ghost predicate OrderOk(o: Order) {
    StrictTotal(o.name) && StrictTotal(o.id)
  }

  /** (a.name, a.id) < (b.name, b.id) */
  predicate Less(o: Order, a: Key, b: Key) {
    o.name(a.name, b.name) || (a.name == b.name && o.id(a.id, b.id))
  }

  predicate After(o: Order, cursor: Option<Key>, k: Key) {
    cursor.None? || Less(o, cursor.value, k)
  }

  lemma LessTransitive(o: Order, a: Key, b: Key, c: Key)
    requires OrderOk(o) && Less(o, a, b) && Less(o, b, c)
    ensures Less(o, a, c)
  {
  }

  lemma LessTotal(o: Order, a: Key, b: Key)
    requires OrderOk(o)
    ensures Less(o, a, b) || Less(o, b, a) || a == b
    ensures !Less(o, a, a)
  {
  }

  ghost predicate Sorted(o: Order, keys: seq<Key>) {
    forall j, k :: 0 <= j < k < |keys| ==> Less(o, keys[j], keys[k])
  }

  // ---- one page ----

  function FolderKeys(fs: FolderTable, room: Id, parent: Option<Id>): set<Key> {
    set i | i in fs && fs[i].live && fs[i].room == room && fs[i].parent == parent :: Key(fs[i].name, i)
  }

  function FileKeys(files: FileTable, room: Id, parent: Option<Id>): set<Key> {
    set x | x in files && files[x].live && files[x].room == room && files[x].folder == parent :: Key(files[x].name, x)
  }

  /** The rows of the UNION ALL: the live folders and files directly in a folder or room root. */
  function Children(t: Snapshot, room: Id, parent: Option<Id>): set<Key> {
    FolderKeys(t.folders, room, parent) + FileKeys(t.files, room, parent)
  }

  /** A child is a live folder row or a live file row of the room whose parent is the listed one. */
  lemma ChildrenAreRows(t: Snapshot, room: Id, parent: Option<Id>, k: Key)
    ensures k in Children(t, room, parent)
            <==> || (k.id in t.folders && t.folders[k.id].live && t.folders[k.id].name == k.name
                     && t.folders[k.id].room == room && t.folders[k.id].parent == parent)
                 || (k.id in t.files && t.files[k.id].live && t.files[k.id].name == k.name
                     && t.files[k.id].room == room && t.files[k.id].folder == parent)
  {
  }

  /** What one request returns about the children it finds. */
  ghost predicate IsPage(
    o: Order, children: set<Key>, cursor: Option<Key>, limit: nat, page: seq<Key>, next: Option<Key>)
  {
    && Sorted(o, page) && |page| <= limit
    && (forall k :: k in page ==> k in children && After(o, cursor, k))
    && (next.None? ==> forall k :: k in children && After(o, cursor, k) ==> k in page)
    && (next.Some? ==>
          && |page| == limit && page != [] && next.value == page[|page| - 1]
          && (forall k :: k in children && After(o, cursor, k) ==> k in page || Less(o, next.value, k))
          && exists k :: k in children && Less(o, next.value, k))
  }

  method Least(o: Order, keys: set<Key>) returns (least: Key)
    requires OrderOk(o) && keys != {}
    ensures least in keys && forall k :: k in keys ==> k == least || Less(o, least, k)
  {
    least :| least in keys;
    var rest := keys - {least};
    while rest != {}
      invariant rest <= keys && least in keys
      invariant forall k :: k in keys - rest ==> k == least || Less(o, least, k)
      decreases rest
    {
      var k: Key :| k in rest;
      LessTotal(o, k, least);
      if Less(o, k, least) {
        forall j | j in keys - rest ensures Less(o, k, j) {
          if j != least {
            LessTransitive(o, k, least, j);
          }
        }
        least := k;
      }
      rest := rest - {k};
    }
  }

  /** ORDER BY name, id LIMIT max */
  method SelectOrdered(o: Order, keys: set<Key>, max: nat) returns (rows: seq<Key>)
    requires OrderOk(o)
    ensures Sorted(o, rows) && |rows| <= max && forall k :: k in rows ==> k in keys
    ensures |rows| < max ==> forall k :: k in keys ==> k in rows
    ensures forall j, k :: k in keys && k !in rows && 0 <= j < |rows| ==> Less(o, rows[j], k)
  {
    rows := [];
    var rest := keys;
    while rest != {} && |rows| < max
      invariant rest <= keys && |rows| <= max && Sorted(o, rows)
      invariant forall k :: k in rows <==> k in keys && k !in rest
      invariant forall j, k :: 0 <= j < |rows| && k in rest ==> Less(o, rows[j], k)
      decreases rest
    {
      var least := Least(o, rest);
      forall j | 0 <= j < |rows| ensures Less(o, rows[j], least) {
      }
      rows, rest := rows + [least], rest - {least};
    }
  }

  method BuildContents(
    db: Database, o: Order, room: Id, parent: Option<Id>, cursor: Option<Key>, limit: nat)
    returns (page: seq<Key>, next: Option<Key>, totalItems: nat)
    requires OrderOk(o) && limit >= 1 && Inv(db.Rows())
    ensures IsPage(o, Children(db.Rows(), room, parent), cursor, limit, page, next)
    ensures forall j, k :: 0 <= j < k < |page| ==>
              || o.name(page[j].name, page[k].name)
              || (page[j].name == page[k].name && o.id(page[j].id, page[k].id))
    ensures cursor.Some? ==> forall k :: 0 <= k < |page| ==>
              || o.name(cursor.value.name, page[k].name)
              || (cursor.value.name == page[k].name && o.id(cursor.value.id, page[k].id))
    ensures totalItems == |Children(db.Rows(), room, parent)|
  {
    var items := Children(db.Rows(), room, parent);
    var after := set k | k in items && After(o, cursor, k);
    var rows := SelectOrdered(o, after, limit + 1);
    var hasMore := |rows| > limit;
    page := if hasMore then rows[..limit] else rows;
    next := if hasMore && page != [] then Some(page[|page| - 1]) else None;
    SelectedPage(o, items, after, cursor, limit, rows);
    NameThenId(o, items, cursor, limit, page, next);
    totalItems := CountDirectChildren(db, room, parent);
  }

  /** The order of a page: by name, and by id among equal names. */
  lemma NameThenId(o: Order, items: set<Key>, cursor: Option<Key>, limit: nat, page: seq<Key>, next: Option<Key>)
    requires IsPage(o, items, cursor, limit, page, next)
    ensures forall j, k :: 0 <= j < k < |page| ==>
              || o.name(page[j].name, page[k].name)
              || (page[j].name == page[k].name && o.id(page[j].id, page[k].id))
    ensures cursor.Some? ==> forall k :: 0 <= k < |page| ==>
              || o.name(cursor.value.name, page[k].name)
              || (cursor.value.name == page[k].name && o.id(cursor.value.id, page[k].id))
  {
    forall k | 0 <= k < |page| && cursor.Some? ensures Less(o, cursor.value, page[k]) {
      assert page[k] in page;
    }
  }

  /** The rows read, one more than the limit at most, make a page with or without a successor. */
  lemma SelectedPage(o: Order, items: set<Key>, after: set<Key>, cursor: Option<Key>, limit: nat, rows: seq<Key>)
    requires OrderOk(o) && limit >= 1 && Sorted(o, rows) && |rows| <= limit + 1
    requires forall k :: k in after <==> k in items && After(o, cursor, k)
    requires forall k :: k in rows ==> k in after
    requires |rows| <= limit ==> forall k :: k in after ==> k in rows
    requires forall j, k :: k in after && k !in rows && 0 <= j < |rows| ==> Less(o, rows[j], k)
    ensures if |rows| <= limit then IsPage(o, items, cursor, limit, rows, None)
            else IsPage(o, items, cursor, limit, rows[..limit], Some(rows[..limit][limit - 1]))
  {
    if |rows| > limit {
      MoreRows(o, items, after, cursor, limit, rows);
      assert rows[..limit][limit - 1] == rows[limit - 1];
    }
  }

  lemma MoreRows(o: Order, items: set<Key>, after: set<Key>, cursor: Option<Key>, limit: nat, rows: seq<Key>)
    requires OrderOk(o) && limit >= 1 && |rows| == limit + 1 && Sorted(o, rows)
    requires forall k :: k in after <==> k in items && After(o, cursor, k)
    requires forall k :: k in rows ==> k in after
    requires forall j, k :: k in after && k !in rows && 0 <= j < |rows| ==> Less(o, rows[j], k)
    ensures IsPage(o, items, cursor, limit, rows[..limit], Some(rows[limit - 1]))
  {
    var page, last := rows[..limit], rows[limit - 1];
    assert rows[limit] in rows && Less(o, last, rows[limit]);
    forall k | k in items && After(o, cursor, k) ensures k in page || Less(o, last, k) {
      if k in rows && k !in page {
        assert rows == page + [rows[limit]];
      }
    }
  }

  /** Two counts, one per table. */
  method CountDirectChildren(db: Database, room: Id, parent: Option<Id>) returns (total: nat)
    requires Inv(db.Rows())
    ensures total == |Children(db.Rows(), room, parent)|
  {
    var fs, files := db.folders, db.files;
    var folderRows := set i | i in fs && fs[i].room == room && fs[i].parent == parent && fs[i].live;
    var fileRows := set x | x in files && files[x].room == room && files[x].folder == parent && files[x].live;
    total := |folderRows| + |fileRows|;
    ChildrenCount(db.Rows(), room, parent, folderRows, fileRows);
  }

  lemma ChildrenCount(t: Snapshot, room: Id, parent: Option<Id>, folderRows: set<Id>, fileRows: set<Id>)
    requires IdsDistinct(t)
    requires forall i :: i in folderRows <==> i in t.folders && t.folders[i].live
                                              && t.folders[i].room == room && t.folders[i].parent == parent
    requires forall x :: x in fileRows <==> x in t.files && t.files[x].live
                                            && t.files[x].room == room && t.files[x].folder == parent
    ensures |Children(t, room, parent)| == |folderRows| + |fileRows|
  {
    FolderKeysCount(t.folders, room, parent, folderRows);
    FileKeysCount(t.files, room, parent, fileRows);
    var a, b := FolderKeys(t.folders, room, parent), FileKeys(t.files, room, parent);
    forall k | k in a ensures k !in b {
      assert k.id in t.folders && k.id !in t.files;
    }
    assert a !! b;
  }

  lemma FolderKeysCount(fs: FolderTable, room: Id, parent: Option<Id>, rows: set<Id>)
    requires forall i :: i in rows <==> i in fs && fs[i].live && fs[i].room == room && fs[i].parent == parent
    ensures |FolderKeys(fs, room, parent)| == |rows|
  {
    var names := map i | i in fs :: fs[i].name;
    KeysCard(names, rows);
    assert FolderKeys(fs, room, parent) == KeysOf(names, rows);
  }

  lemma FileKeysCount(files: FileTable, room: Id, parent: Option<Id>, rows: set<Id>)
    requires forall x :: x in rows <==> x in files && files[x].live && files[x].room == room && files[x].folder == parent
    ensures |FileKeys(files, room, parent)| == |rows|
  {
    var names := map x | x in files :: files[x].name;
    KeysCard(names, rows);
    assert FileKeys(files, room, parent) == KeysOf(names, rows);
  }

  ghost function KeysOf(names: map<Id, string>, rows: set<Id>): set<Key> {
    set i | i in rows && i in names :: Key(names[i], i)
  }

  lemma {:induction false} KeysCard(names: map<Id, string>, rows: set<Id>)
    requires rows <= names.Keys
    ensures |KeysOf(names, rows)| == |rows|
    decreases |rows|
  {
    if rows == {} {
      assert KeysOf(names, rows) == {};
    } else {
      var i :| i in rows;
      KeysCard(names, rows - {i});
      assert KeysOf(names, rows) == KeysOf(names, rows - {i}) + {Key(names[i], i)};
    }
  }

  /** The listing's total is the number of direct items that stats reports. */
  lemma TotalIsDirectItemCount(t: Snapshot, f: Id)
    requires Inv(t) && LiveFolder(t.folders, f)
    ensures |Children(t, t.folders[f].room, Some(f))| == |Kids(t.folders, f)| + |DirectFiles(t.files, f)|
  {
    DirectRows(t, f);
    ChildrenCount(t, t.folders[f].room, Some(f), Kids(t.folders, f), DirectFiles(t.files, f));
  }

  // ---- whole runs ----

  /** One request of a run: the children as they were then, and the answer. */
  datatype Visit = Visit(children: set<Key>, limit: nat, page: seq<Key>, next: Option<Key>)

  ghost function CursorAt(run: seq<Visit>, j: nat): Option<Key>
    requires j <= |run|
  {
    if j == 0 then None else run[j - 1].next
  }

  ghost predicate RunStep(o: Order, run: seq<Visit>, j: nat)
    requires j < |run|
  {
    && IsPage(o, run[j].children, CursorAt(run, j), run[j].limit, run[j].page, run[j].next)
    && (j > 0 ==> run[j - 1].next.Some?)
  }

  /** Each request follows the cursor of the one before; the children may differ at will. */
  ghost predicate IsRun(o: Order, run: seq<Visit>) {
    forall j :: 0 <= j < |run| ==> RunStep(o, run, j)
  }

  ghost function Items(run: seq<Visit>): seq<Key> {
    if run == [] then [] else Items(run[..|run| - 1]) + run[|run| - 1].page
  }

  lemma RunFront(o: Order, run: seq<Visit>)
    requires IsRun(o, run) && run != []
    ensures IsRun(o, run[..|run| - 1])
    ensures var n := |run| - 1;
            IsPage(o, run[n].children, CursorAt(run[..n], n), run[n].limit, run[n].page, run[n].next)
            && (n > 0 ==> run[..n][n - 1].next.Some?)
  {
    var n := |run| - 1;
    var front := run[..n];
    assert RunStep(o, run, n);
    forall j | 0 <= j < n ensures RunStep(o, front, j) {
      assert RunStep(o, run, j);
      assert CursorAt(front, j) == CursorAt(run, j);
    }
  }

  /** Everything returned so far lies at or before the cursor. */
  ghost predicate Behind(o: Order, items: seq<Key>, cursor: Option<Key>) {
    if cursor.None? then true
    else forall k :: k in items ==> k == cursor.value || Less(o, k, cursor.value)
  }

  lemma PageBehind(o: Order, v: Visit, cursor: Option<Key>)
    requires OrderOk(o) && IsPage(o, v.children, cursor, v.limit, v.page, v.next)
    ensures Behind(o, v.page, v.next)
    ensures cursor.Some? && v.next.Some? ==> Less(o, cursor.value, v.next.value)
  {
    if v.next.Some? {
      assert v.next.value in v.page;
    }
  }

  lemma SortedConcat(o: Order, a: seq<Key>, b: seq<Key>)
    requires Sorted(o, a) && Sorted(o, b)
    requires forall j, k :: j in a && k in b ==> Less(o, j, k)
    ensures Sorted(o, a + b)
  {
  }

  /** Safety: whatever happens between the requests, the returned keys strictly increase. */
  lemma {:induction false} RunIncreases(o: Order, run: seq<Visit>)
    requires OrderOk(o) && IsRun(o, run)
    ensures Sorted(o, Items(run))
    ensures forall j, k :: 0 <= j < k < |Items(run)| ==>
              || o.name(Items(run)[j].name, Items(run)[k].name)
              || (Items(run)[j].name == Items(run)[k].name && o.id(Items(run)[j].id, Items(run)[k].id))
    ensures Behind(o, Items(run), CursorAt(run, |run|))
    decreases |run|
  {
    if run == [] {
    } else {
      var n := |run| - 1;
      var front, v := run[..n], run[n];
      RunFront(o, run);
      RunIncreases(o, front);
      var cursor := CursorAt(front, n);
      PageBehind(o, v, cursor);
      AppendPage(o, Items(front), v, cursor, n == 0);
    }
  }

  lemma AppendPage(o: Order, items: seq<Key>, v: Visit, cursor: Option<Key>, first: bool)
    requires OrderOk(o) && IsPage(o, v.children, cursor, v.limit, v.page, v.next)
    requires Sorted(o, items) && Behind(o, items, cursor) && (if first then items == [] else cursor.Some?)
    ensures Sorted(o, items + v.page) && Behind(o, items + v.page, v.next)
  {
    PageBehind(o, v, cursor);
    forall j, k | j in items && k in v.page ensures Less(o, j, k) {
      if j != cursor.value {
        LessTransitive(o, j, cursor.value, k);
      }
    }
    SortedConcat(o, items, v.page);
    if v.next.Some? {
      forall j | j in items ensures Less(o, j, v.next.value) {
        if j != cursor.value {
          LessTransitive(o, j, cursor.value, v.next.value);
        }
      }
    }
  }

  lemma {:induction false} StayerAheadOrSeen(o: Order, run: seq<Visit>, x: Key)
    requires OrderOk(o) && IsRun(o, run)
    requires forall j :: 0 <= j < |run| ==> x in run[j].children
    ensures x in Items(run)
            || (After(o, CursorAt(run, |run|), x) && (run != [] ==> run[|run| - 1].next.Some?))
    decreases |run|
  {
    if run == [] {
    } else {
      var n := |run| - 1;
      var front := run[..n];
      RunFront(o, run);
      forall j | 0 <= j < n ensures x in front[j].children {
        assert x in run[j].children;
      }
      StayerAheadOrSeen(o, front, x);
      assert x in run[n].children;
    }
  }

  lemma LastIsNew(o: Order, keys: seq<Key>)
    requires OrderOk(o) && Sorted(o, keys) && keys != []
    ensures keys[|keys| - 1] !in keys[..|keys| - 1]
  {
  }

  lemma {:induction false} SortedOnce(o: Order, keys: seq<Key>, x: Key)
    requires OrderOk(o) && Sorted(o, keys)
    ensures multiset(keys)[x] == if x in keys then 1 else 0
    decreases |keys|
  {
    if keys == [] {
    } else {
      var n := |keys| - 1;
      assert keys == keys[..n] + [keys[n]];
      SortedOnce(o, keys[..n], x);
      LastIsNew(o, keys);
    }
  }

  /**
   Liveness of a stable child: in a run that ends with a null cursor, a child that is in the
   folder under the same name at every request is returned exactly once, whatever else is
   created, deleted, renamed or moved in between.
   */
  lemma StayerReturnedOnce(o: Order, run: seq<Visit>, x: Key)
    requires OrderOk(o) && IsRun(o, run) && run != [] && run[|run| - 1].next.None?
    requires forall j :: 0 <= j < |run| ==> x in run[j].children
    ensures multiset(Items(run))[x] == 1
  {
    RunIncreases(o, run);
    StayerAheadOrSeen(o, run, x);
    SortedOnce(o, Items(run), x);
  }

  lemma {:induction false} SortedCard(o: Order, keys: seq<Key>)
    requires OrderOk(o) && Sorted(o, keys)
    ensures |set k | k in keys| == |keys|
    decreases |keys|
  {
    if keys == [] {
      assert (set k | k in keys) == {};
    } else {
      var n := |keys| - 1;
      var front := keys[..n];
      SortedCard(o, front);
      LastIsNew(o, keys);
      assert keys == front + [keys[n]];
      assert (set k | k in keys) == (set k | k in front) + {keys[n]};
    }
  }

  /** A run without mutation, with one page size. */
  ghost predicate Quiet(run: seq<Visit>, children: set<Key>, limit: nat) {
    forall j :: 0 <= j < |run| ==> run[j].children == children && run[j].limit == limit
  }

  lemma {:induction false} ItemsFromChildren(o: Order, run: seq<Visit>, children: set<Key>, limit: nat)
    requires IsRun(o, run) && Quiet(run, children, limit)
    ensures forall k :: k in Items(run) ==> k in children
    decreases |run|
  {
    if run == [] {
    } else {
      var n := |run| - 1;
      RunFront(o, run);
      assert run[n].children == children;
      ItemsFromChildren(o, run[..n], children, limit);
    }
  }

  lemma FullPages(o: Order, run: seq<Visit>, children: set<Key>, limit: nat)
    requires IsRun(o, run) && Quiet(run, children, limit)
    ensures forall j :: 0 <= j < |run| && (j < |run| - 1 || run[j].next.Some?) ==> |run[j].page| == limit
    ensures forall j :: 0 <= j < |run| ==> |run[j].page| <= limit
  {
    forall j | 0 <= j < |run|
      ensures |run[j].page| <= limit
      ensures j < |run| - 1 || run[j].next.Some? ==> |run[j].page| == limit
    {
      assert RunStep(o, run, j);
      assert j + 1 < |run| ==> RunStep(o, run, j + 1);
    }
  }

  lemma {:induction false} ItemCount(run: seq<Visit>, limit: nat)
    requires run != [] && forall j :: 0 <= j < |run| - 1 ==> |run[j].page| == limit
    ensures |Items(run)| == (|run| - 1) * limit + |run[|run| - 1].page|
    decreases |run|
  {
    var n := |run| - 1;
    if n == 0 {
      assert Items(run[..0]) == [];
    } else {
      ItemCount(run[..n], limit);
      assert n * limit == (n - 1) * limit + limit;
    }
  }

  /** A page after a cursor is never empty when nothing changed in between. */
  lemma LaterPagesNonEmpty(o: Order, run: seq<Visit>, children: set<Key>, limit: nat)
    requires OrderOk(o) && IsRun(o, run) && Quiet(run, children, limit) && limit >= 1 && |run| > 1
    ensures run[|run| - 1].page != []
  {
    var n := |run| - 1;
    var p, v := run[n - 1], run[n];
    assert RunStep(o, run, n - 1);
    assert RunStep(o, run, n);
    var k :| k in children && Less(o, p.next.value, k);
    assert v.next.None? ==> k in v.page;
  }

  lemma CeilingUnique(pages: nat, limit: nat, n: nat)
    requires limit >= 1 && pages >= 1 && (pages - 1) * limit < n <= pages * limit
    ensures pages == (n + limit - 1) / limit
  {
    var m := n + limit - 1;
    var r := m - pages * limit;
    assert (pages - 1) * limit == pages * limit - limit;
    assert m == pages * limit + r && 0 <= r < limit;
    DivisionUnique(m, limit, pages, r);
  }

  lemma DivisionUnique(m: int, d: int, q: int, r: int)
    requires d > 0 && m == q * d + r && 0 <= r < d
    ensures m / d == q
  {
    var k := m / d - q;
    assert m == (m / d) * d + m % d;
    assert k * d == r - m % d;
    MultipleBound(k, d);
  }

  lemma MultipleBound(k: int, d: int)
    requires d > 0
    ensures k >= 1 ==> k * d >= d
    ensures k <= -1 ==> k * d <= -d
  {
  }

  /**
   Without mutation the pages concatenate to the sorted children, with no gap and no repeat.
   */
  lemma QuietRunReturnsAll(o: Order, run: seq<Visit>, children: set<Key>, limit: nat)
    requires OrderOk(o) && IsRun(o, run) && Quiet(run, children, limit)
    requires run != [] && run[|run| - 1].next.None?
    ensures Sorted(o, Items(run)) && (forall k :: k in Items(run) <==> k in children)
    ensures |Items(run)| == |children|
  {
    RunIncreases(o, run);
    ItemsFromChildren(o, run, children, limit);
    forall x | x in children ensures x in Items(run) {
      StayerAheadOrSeen(o, run, x);
    }
    SortedCard(o, Items(run));
    assert (set k | k in Items(run)) == children;
  }

  /** It does so in max(1, ceil(n / limit)) pages. */
  lemma QuietRunPages(o: Order, run: seq<Visit>, children: set<Key>, limit: nat)
    requires OrderOk(o) && limit >= 1 && IsRun(o, run) && Quiet(run, children, limit)
    requires run != [] && run[|run| - 1].next.None?
    ensures |run| == if children == {} then 1 else (|children| + limit - 1) / limit
  {
    QuietRunReturnsAll(o, run, children, limit);
    FullPages(o, run, children, limit);
    ItemCount(run, limit);
    if |run| > 1 {
      LaterPagesNonEmpty(o, run, children, limit);
    }
    var last := |run[|run| - 1].page|;
    PageArithmetic(|run|, limit, |children|, last);
  }

  lemma PageArithmetic(pages: nat, limit: nat, n: nat, last: nat)
    requires limit >= 1 && pages >= 1 && last <= limit && n == (pages - 1) * limit + last
    requires pages > 1 ==> last > 0
    ensures pages == if n == 0 then 1 else (n + limit - 1) / limit
  {
    MultipleBound(pages - 1, limit);
    if n == 0 {
      assert pages == 1;
    } else {
      OneMore(pages, limit);
      CeilingUnique(pages, limit, n);
    }
  }

  /** A quiet run cannot go on for ever: while it has a cursor, it has not returned everything. */
  lemma QuietRunEnds(o: Order, run: seq<Visit>, children: set<Key>, limit: nat)
    requires OrderOk(o) && IsRun(o, run) && Quiet(run, children, limit)
    requires run != [] && run[|run| - 1].next.Some?
    ensures |run| * limit < |children|
  {
    RunIncreases(o, run);
    ItemsFromChildren(o, run, children, limit);
    FullPages(o, run, children, limit);
    ItemCount(run, limit);
    SortedCard(o, Items(run));
    var x := Unreturned(o, run, children, limit);
    var returned := set k | k in Items(run);
    ProperSubsetCard(returned, children, x);
    OneMore(|run|, limit);
  }

  lemma OneMore(pages: nat, limit: nat)
    requires pages > 0
    ensures (pages - 1) * limit + limit == pages * limit
  {
  }

  lemma Unreturned(o: Order, run: seq<Visit>, children: set<Key>, limit: nat) returns (x: Key)
    requires OrderOk(o) && IsRun(o, run) && Quiet(run, children, limit)
    requires run != [] && run[|run| - 1].next.Some?
    requires Behind(o, Items(run), run[|run| - 1].next)
    ensures x in children && x !in Items(run)
  {
    var n := |run| - 1;
    assert RunStep(o, run, n);
    var last := run[n].next.value;
    x :| x in children && Less(o, last, x);
    LessTotal(o, last, last);
    assert !Less(o, x, last) by {
      if Less(o, x, last) {
        LessTransitive(o, last, x, last);
      }
    }
  }

  lemma ProperSubsetCard(a: set<Key>, b: set<Key>, x: Key)
    requires a <= b && x in b && x !in a
    ensures |a| < |b|
  {
    assert b == a + (b - a);
    assert x in b - a;
  }
}
