/** Folder statistics: one prefix query against a recursive fold over the parent links. */
module Stats {
  import opened Base
  import opened Tables
  import opened Paths
  import opened Tree
  import opened Integrity
  import opened Graft
  import opened Steps
  import opened Moves
  import opened FoldersService

  datatype Totals = Totals(folders: int, files: int, size: int) {
    function Plus(other: Totals): Totals {
      Totals(folders + other.folders, files + other.files, size + other.size)
    }
  }

  const ZERO := Totals(0, 0, 0)
  const ONE_FOLDER := Totals(1, 0, 0)

  // ---- the recursive definition, over parent links ----

  ghost function Kids(fs: FolderTable, a: Id): set<Id> {
    set i | i in fs && fs[i].live && fs[i].parent == Some(a)
  }

  function DirectFiles(files: FileTable, a: Id): set<Id> {
    set x | x in files && files[x].live && files[x].folder == Some(a)
  }

  /** Every byte of every file of a set; the total size is their number. */
  ghost function Bytes(files: FileTable, xs: set<Id>): set<(Id, int)> {
    set x, k | x in xs && x in files && 0 <= k < files[x].size :: (x, k)
  }

  ghost predicate StatsOk(t: Snapshot) {
    TreeOk(t.folders) && DepthLimited(t.folders)
  }

  ghost predicate AtDepth(fs: FolderTable, ids: set<Id>, depth: nat)
    requires TreeOk(fs)
  {
    && (forall i :: i in ids ==> LiveFolder(fs, i))
    && (forall i {:trigger Chain(fs, i)} :: i in ids ==> |Chain(fs, i)| == depth)
  }

  /** Own direct files, plus for each child folder one folder and the child's own fold. */
  ghost function Fold(t: Snapshot, a: Id): Totals
    requires StatsOk(t) && LiveFolder(t.folders, a)
    decreases MAX_FOLDER_DEPTH + 1 - |Chain(t.folders, a)|, 0
  {
    ChainLimited(t.folders, a);
    KidsOneDeeper(t.folders, a);
    var own := DirectFiles(t.files, a);
    Totals(0, |own|, |Bytes(t.files, own)|)
      .Plus(FoldAll(t, Kids(t.folders, a), |Chain(t.folders, a)| + 1))
  }

  ghost function FoldAll(t: Snapshot, kids: set<Id>, depth: nat): Totals
    requires StatsOk(t) && AtDepth(t.folders, kids, depth) && depth <= MAX_FOLDER_DEPTH + 1
    decreases MAX_FOLDER_DEPTH + 1 - depth, 1, kids
  {
    if kids == {} then ZERO
    else
      var k :| k in kids;
      ONE_FOLDER.Plus(Fold(t, k)).Plus(FoldAll(t, kids - {k}, depth))
  }

  lemma KidsOneDeeper(fs: FolderTable, a: Id)
    requires TreeOk(fs) && LiveFolder(fs, a)
    ensures AtDepth(fs, Kids(fs, a), |Chain(fs, a)| + 1)
  {
  }

  // ---- the set form ----

  ghost function Branch(fs: FolderTable, a: Id): set<Id> {
    set i | i in fs && InBranch(fs, i, a)
  }

  ghost function FilesIn(files: FileTable, folders: set<Id>): set<Id> {
    set x | x in files && files[x].live && files[x].folder.Some? && files[x].folder.value in folders
  }

  ghost function TotalsOf(files: FileTable, folders: set<Id>): Totals {
    Totals(|folders|, |FilesIn(files, folders)|, |Bytes(files, FilesIn(files, folders))|)
  }

  lemma FilesInUnion(files: FileTable, a: set<Id>, b: set<Id>)
    requires a !! b
    ensures FilesIn(files, a + b) == FilesIn(files, a) + FilesIn(files, b)
    ensures FilesIn(files, a) !! FilesIn(files, b)
  {
  }

  lemma BytesUnion(files: FileTable, xs: set<Id>, ys: set<Id>)
    requires xs !! ys
    ensures |Bytes(files, xs + ys)| == |Bytes(files, xs)| + |Bytes(files, ys)|
  {
    assert Bytes(files, xs + ys) == Bytes(files, xs) + Bytes(files, ys);
    assert Bytes(files, xs) !! Bytes(files, ys);
  }

  /** Totals of disjoint sets of folders add up. */
  lemma TotalsUnion(files: FileTable, a: set<Id>, b: set<Id>)
    requires a !! b
    ensures TotalsOf(files, a + b) == TotalsOf(files, a).Plus(TotalsOf(files, b))
  {
    var xs, ys := FilesIn(files, a), FilesIn(files, b);
    FilesInUnion(files, a, b);
    assert |FilesIn(files, a + b)| == |xs| + |ys|;
    BytesUnion(files, xs, ys);
    assert |a + b| == |a| + |b|;
  }

  ghost function Under(fs: FolderTable, kids: set<Id>): set<Id> {
    set i, k | k in kids && i in Branch(fs, k) :: i
  }

  lemma SameDepthDisjoint(fs: FolderTable, i: Id, j: Id, k: Id)
    requires TreeOk(fs) && LiveFolder(fs, j) && LiveFolder(fs, k)
    requires InBranch(fs, i, j) && InBranch(fs, i, k) && |Chain(fs, j)| == |Chain(fs, k)|
    ensures j == k
  {
    ReachesIffChainPrefix(fs, i, j);
    ReachesIffChainPrefix(fs, i, k);
  }

  lemma UnderTake(fs: FolderTable, kids: set<Id>, depth: nat, k: Id)
    requires TreeOk(fs) && AtDepth(fs, kids, depth) && k in kids
    ensures Under(fs, kids) == Branch(fs, k) + Under(fs, kids - {k})
    ensures Branch(fs, k) !! Under(fs, kids - {k})
  {
    forall i | i in Branch(fs, k) && i in Under(fs, kids - {k}) ensures false {
      var j :| j in kids - {k} && i in Branch(fs, j);
      SameDepthDisjoint(fs, i, j, k);
    }
  }

  /** The step from a towards a descendant leads through a child of a. */
  lemma ChildTowards(fs: FolderTable, i: Id, a: Id) returns (k: Id)
    requires TreeOk(fs) && LiveFolder(fs, a) && InBranch(fs, i, a) && i != a
    ensures k in Kids(fs, a) && i in Branch(fs, k)
  {
    ReachesIffChainPrefix(fs, i, a);
    var c, n := Chain(fs, i), |Chain(fs, a)|;
    assert c[n - 1] == a;
    k := c[n];
    ChainPrefix(fs, i, n);
    ChainStep(fs, k);
    assert ParentChain(fs, fs[k].parent) == c[..n];
    ReachesIffInChain(fs, i, k);
  }

  lemma BranchIsSelfAndKids(fs: FolderTable, a: Id)
    requires TreeOk(fs) && LiveFolder(fs, a)
    ensures Branch(fs, a) == {a} + Under(fs, Kids(fs, a))
    ensures a !in Under(fs, Kids(fs, a))
  {
    var under := Under(fs, Kids(fs, a));
    ReachesSelf(fs, a);
    forall i | i in Branch(fs, a) ensures i in {a} + under {
      if i != a {
        var k := ChildTowards(fs, i, a);
      }
    }
    forall i | i in under ensures i in Branch(fs, a) && i != a {
      var k :| k in Kids(fs, a) && i in Branch(fs, k);
      ReachesSelf(fs, a);
      ReachesStep(fs, k, a);
      ReachesTrans(fs, i, k, a);
      if i == a {
        ReachesAntisymmetric(fs, a, k);
        ChainStep(fs, k);
      }
    }
  }

  /** The recursive fold counts the set of folders that reach a, without a itself. */
  lemma {:induction false} FoldIsBranch(t: Snapshot, a: Id)
    requires StatsOk(t) && LiveFolder(t.folders, a)
    ensures ONE_FOLDER.Plus(Fold(t, a)) == TotalsOf(t.files, Branch(t.folders, a))
    decreases MAX_FOLDER_DEPTH + 1 - |Chain(t.folders, a)|, 0
  {
    var kids, depth := Kids(t.folders, a), |Chain(t.folders, a)| + 1;
    ChainLimited(t.folders, a);
    KidsOneDeeper(t.folders, a);
    FoldAllIsUnder(t, kids, depth);
    FoldGlue(t, a);
  }

  lemma FoldGlue(t: Snapshot, a: Id)
    requires StatsOk(t) && LiveFolder(t.folders, a)
    requires var kids, depth := Kids(t.folders, a), |Chain(t.folders, a)| + 1;
             && AtDepth(t.folders, kids, depth) && depth <= MAX_FOLDER_DEPTH + 1
             && FoldAll(t, kids, depth) == TotalsOf(t.files, Under(t.folders, kids))
    ensures ONE_FOLDER.Plus(Fold(t, a)) == TotalsOf(t.files, Branch(t.folders, a))
  {
    FoldStep(t, a);
    BranchTotals(t.folders, t.files, a);
    OwnFirst(DirectFiles(t.files, a), |Bytes(t.files, DirectFiles(t.files, a))|,
             TotalsOf(t.files, Under(t.folders, Kids(t.folders, a))));
  }

  lemma OwnFirst(own: set<Id>, size: int, under: Totals)
    ensures ONE_FOLDER.Plus(Totals(0, |own|, size).Plus(under)) == Totals(1, |own|, size).Plus(under)
  {
  }

  lemma FoldStep(t: Snapshot, a: Id)
    requires StatsOk(t) && LiveFolder(t.folders, a)
    ensures var kids, depth, own := Kids(t.folders, a), |Chain(t.folders, a)| + 1, DirectFiles(t.files, a);
            && AtDepth(t.folders, kids, depth) && depth <= MAX_FOLDER_DEPTH + 1
            && Fold(t, a) == Totals(0, |own|, |Bytes(t.files, own)|).Plus(FoldAll(t, kids, depth))
  {
    ChainLimited(t.folders, a);
    KidsOneDeeper(t.folders, a);
  }

  lemma BranchTotals(fs: FolderTable, files: FileTable, a: Id)
    requires TreeOk(fs) && LiveFolder(fs, a)
    ensures var own := DirectFiles(files, a);
            TotalsOf(files, Branch(fs, a))
            == Totals(1, |own|, |Bytes(files, own)|).Plus(TotalsOf(files, Under(fs, Kids(fs, a))))
  {
    BranchIsSelfAndKids(fs, a);
    TotalsUnion(files, {a}, Under(fs, Kids(fs, a)));
    TotalsOfOne(files, a);
  }

  lemma TotalsOfOne(files: FileTable, a: Id)
    ensures TotalsOf(files, {a}) == Totals(1, |DirectFiles(files, a)|, |Bytes(files, DirectFiles(files, a))|)
  {
    assert FilesIn(files, {a}) == DirectFiles(files, a);
  }

  lemma {:induction false} FoldAllIsUnder(t: Snapshot, kids: set<Id>, depth: nat)
    requires StatsOk(t) && AtDepth(t.folders, kids, depth) && depth <= MAX_FOLDER_DEPTH + 1
    ensures FoldAll(t, kids, depth) == TotalsOf(t.files, Under(t.folders, kids))
    decreases MAX_FOLDER_DEPTH + 1 - depth, 1, kids
  {
    if kids == {} {
      NoKids(t.folders, t.files);
    } else {
      var k := FoldAllStep(t, kids, depth);
      FoldIsBranch(t, k);
      FoldAllIsUnder(t, kids - {k}, depth);
      UnderTotals(t.folders, t.files, kids, depth, k);
    }
  }

  lemma NoKids(fs: FolderTable, files: FileTable)
    ensures TotalsOf(files, Under(fs, {})) == ZERO
  {
  }

  lemma FoldAllStep(t: Snapshot, kids: set<Id>, depth: nat) returns (k: Id)
    requires StatsOk(t) && AtDepth(t.folders, kids, depth) && depth <= MAX_FOLDER_DEPTH + 1 && kids != {}
    ensures k in kids
    ensures FoldAll(t, kids, depth) == ONE_FOLDER.Plus(Fold(t, k)).Plus(FoldAll(t, kids - {k}, depth))
  {
    k :| k in kids && FoldAll(t, kids, depth)
                      == ONE_FOLDER.Plus(Fold(t, k)).Plus(FoldAll(t, kids - {k}, depth));
  }

  lemma UnderTotals(fs: FolderTable, files: FileTable, kids: set<Id>, depth: nat, k: Id)
    requires TreeOk(fs) && AtDepth(fs, kids, depth) && k in kids
    ensures TotalsOf(files, Under(fs, kids))
            == TotalsOf(files, Branch(fs, k)).Plus(TotalsOf(files, Under(fs, kids - {k})))
  {
    UnderTake(fs, kids, depth, k);
    TotalsUnion(files, Branch(fs, k), Under(fs, kids - {k}));
  }

  // ---- the request ----

  datatype FolderStats = FolderStats(
    totalSize: int, directFolderCount: int, directFileCount: int, directItemCount: int,
    subtreeFileCount: int, subtreeFolderCount: int)

  /** The rows that the two direct sub-selects and the file_totals select count. */
  function FolderRowsUnder(fs: FolderTable, room: Id, f: Id): set<Id> {
    set i | i in fs && fs[i].room == room && fs[i].parent == Some(f) && fs[i].live
  }

  function FileRowsUnder(files: FileTable, room: Id, f: Id): set<Id> {
    set x | x in files && files[x].room == room && files[x].folder == Some(f) && files[x].live
  }

  function FileRowsWithin(files: FileTable, room: Id, subtree: set<Id>): set<Id> {
    set x | x in files && files[x].room == room && files[x].live
            && files[x].folder.Some? && files[x].folder.value in subtree
  }

  /** The subtree figures are the recursive fold; the direct ones count rows by parent link. */
  method StatsOf(db: Database, f: Id) returns (r: Result<FolderStats>)
    requires Inv(db.Rows())
    ensures if LiveFolder(db.folders, f) then r.Ok? else r == Err(NotFound)
    ensures r.Ok? ==>
              var fold := Fold(db.Rows(), f);
              && r.value.subtreeFolderCount == fold.folders
              && r.value.subtreeFileCount == fold.files
              && r.value.totalSize == fold.size
              && r.value.directFolderCount == |Kids(db.folders, f)|
              && r.value.directFileCount == |DirectFiles(db.files, f)|
              && r.value.directItemCount == r.value.directFolderCount + r.value.directFileCount
  {
    var folder := GetFolderOrFail(db, f, None);
    if folder.Err? {
      return Err(folder.error);
    }
    var room, path := folder.value.room, folder.value.path;
    var subtree := SubtreeRows(db.folders, room, path);
    var fileRows := FileRowsWithin(db.files, room, subtree);
    var totalSize := SizeOf(db.files, fileRows);
    var directFolders := FolderRowsUnder(db.folders, room, f);
    var directFiles := FileRowsUnder(db.files, room, f);
    StatsFigures(db.Rows(), f);
    r := Ok(FolderStats(totalSize, |directFolders|, |directFiles|, |directFolders| + |directFiles|,
                        |fileRows|, |subtree| - 1));
  }

  /** What the query returns is what the fold says. */
  lemma StatsFigures(t: Snapshot, f: Id)
    requires Inv(t) && LiveFolder(t.folders, f)
    ensures var room := t.folders[f].room;
            var subtree := SubtreeRows(t.folders, room, t.folders[f].path);
            var fileRows := FileRowsWithin(t.files, room, subtree);
            && Fold(t, f) == Totals(|subtree| - 1, |fileRows|, |Bytes(t.files, fileRows)|)
            && |FolderRowsUnder(t.folders, room, f)| == |Kids(t.folders, f)|
            && |FileRowsUnder(t.files, room, f)| == |DirectFiles(t.files, f)|
  {
    FoldFigures(t, f);
    CountedRows(t, f);
  }

  lemma FoldFigures(t: Snapshot, f: Id)
    requires StatsOk(t) && LiveFolder(t.folders, f)
    ensures var branch := Branch(t.folders, f);
            var files := FilesIn(t.files, branch);
            Fold(t, f) == Totals(|branch| - 1, |files|, |Bytes(t.files, files)|)
  {
    FoldIsBranch(t, f);
    MinusOne(Fold(t, f), TotalsOf(t.files, Branch(t.folders, f)));
  }

  /** The figures, counted over the whole tables: the live rows at any depth below f, and those right in it. */
  lemma FiguresMeaning(t: Snapshot, f: Id, below: set<Id>, files: set<Id>, kids: set<Id>, direct: set<Id>)
    requires Inv(t) && LiveFolder(t.folders, f)
    requires forall i :: i in below <==> i in t.folders && t.folders[i].live && i != f && Reaches(t.folders, i, f)
    requires forall x :: x in files <==>
               && x in t.files && t.files[x].live && t.files[x].folder.Some?
               && t.files[x].folder.value in t.folders && Reaches(t.folders, t.files[x].folder.value, f)
    requires forall i :: i in kids <==> i in t.folders && t.folders[i].live && t.folders[i].parent == Some(f)
    requires forall x :: x in direct <==> x in t.files && t.files[x].live && t.files[x].folder == Some(f)
    ensures Fold(t, f) == Totals(|below|, |files|, |Bytes(t.files, files)|)
    ensures Kids(t.folders, f) == kids && DirectFiles(t.files, f) == direct
  {
    FoldFigures(t, f);
    BranchWithRoot(t.folders, f, below);
    FilesBelow(t, f, files);
  }

  lemma BranchWithRoot(fs: FolderTable, f: Id, below: set<Id>)
    requires LiveFolder(fs, f)
    requires forall i :: i in below <==> i in fs && fs[i].live && i != f && Reaches(fs, i, f)
    ensures |Branch(fs, f)| == |below| + 1
  {
    ReachesSelf(fs, f);
    assert Branch(fs, f) == below + {f};
  }

  lemma FilesBelow(t: Snapshot, f: Id, files: set<Id>)
    requires FilesPlaced(t.rooms, t.folders, t.files)
    requires forall x :: x in files <==>
               && x in t.files && t.files[x].live && t.files[x].folder.Some?
               && t.files[x].folder.value in t.folders && Reaches(t.folders, t.files[x].folder.value, f)
    ensures FilesIn(t.files, Branch(t.folders, f)) == files
  {
    forall x | x in files ensures LiveFolder(t.folders, t.files[x].folder.value) {
      assert LiveFile(t.files, x);
    }
  }

  lemma MinusOne(fold: Totals, all: Totals)
    requires ONE_FOLDER.Plus(fold) == all
    ensures fold == Totals(all.folders - 1, all.files, all.size)
  {
  }

  /** The prefix query finds the branch, and the room conditions exclude nothing. */
  lemma CountedRows(t: Snapshot, f: Id)
    requires Inv(t) && LiveFolder(t.folders, f)
    ensures var room := t.folders[f].room;
            && SubtreeRows(t.folders, room, t.folders[f].path) == Branch(t.folders, f)
            && FileRowsWithin(t.files, room, Branch(t.folders, f)) == FilesIn(t.files, Branch(t.folders, f))
            && FolderRowsUnder(t.folders, room, f) == Kids(t.folders, f)
            && FileRowsUnder(t.files, room, f) == DirectFiles(t.files, f)
  {
    SubtreeRowsAreBranch(t, f);
    DirectRows(t, f);
  }

  /** coalesce(sum(size_bytes), 0) */
  method SizeOf(files: FileTable, xs: set<Id>) returns (total: int)
    requires xs <= files.Keys
    ensures total == |Bytes(files, xs)|
  {
    total := 0;
    var rest := xs;
    assert Bytes(files, xs - rest) == {};
    while rest != {}
      invariant rest <= xs
      invariant total == |Bytes(files, xs - rest)|
      decreases rest
    {
      var x: Id :| x in rest;
      BytesAdd(files, xs - rest, x);
      assert xs - (rest - {x}) == (xs - rest) + {x};
      total, rest := total + files[x].size, rest - {x};
    }
    assert xs - rest == xs;
  }

  lemma BytesAdd(files: FileTable, xs: set<Id>, x: Id)
    requires x in files && x !in xs
    ensures |Bytes(files, xs + {x})| == |Bytes(files, xs)| + files[x].size
  {
    BytesOfOne(x, files[x].size);
    var one := set k | 0 <= k < files[x].size :: (x, k);
    assert Bytes(files, xs + {x}) == Bytes(files, xs) + one;
  }

  lemma {:induction false} BytesOfOne(x: Id, n: nat)
    ensures |set k | 0 <= k < n :: (x, k)| == n
  {
    if n == 0 {
      assert (set k | 0 <= k < n :: (x, k)) == {};
    } else {
      BytesOfOne(x, n - 1);
      assert (set k | 0 <= k < n :: (x, k)) == (set k | 0 <= k < n - 1 :: (x, k)) + {(x, n - 1)};
    }
  }

  lemma SubtreeRowsAreBranch(t: Snapshot, f: Id)
    requires Inv(t) && LiveFolder(t.folders, f)
    ensures var room := t.folders[f].room;
            && SubtreeRows(t.folders, room, t.folders[f].path) == Branch(t.folders, f)
            && forall x :: x in FilesIn(t.files, Branch(t.folders, f)) ==> t.files[x].room == room
  {
    forall i | i in t.folders
      ensures i in SubtreeRows(t.folders, t.folders[f].room, t.folders[f].path) <==> i in Branch(t.folders, f)
    {
      SubtreeQueryIsBranch(t.folders, f, i);
    }
    forall x | x in FilesIn(t.files, Branch(t.folders, f)) ensures t.files[x].room == t.folders[f].room {
      assert LiveFile(t.files, x);
      PathTestsAreReachability(t.folders, t.files[x].folder.value, f);
    }
  }

  /** The room condition of the direct counts excludes nothing. */
  lemma DirectRows(t: Snapshot, f: Id)
    requires Inv(t) && LiveFolder(t.folders, f)
    ensures forall i :: i in Kids(t.folders, f) ==> t.folders[i].room == t.folders[f].room
    ensures forall x :: x in DirectFiles(t.files, f) ==> t.files[x].room == t.folders[f].room
  {
    forall i | i in Kids(t.folders, f) ensures t.folders[i].room == t.folders[f].room {
      assert Anchored(t.folders, i);
    }
    forall x | x in DirectFiles(t.files, f) ensures t.files[x].room == t.folders[f].room {
      assert LiveFile(t.files, x);
    }
  }

  ghost function StampedFolders(t: Snapshot, u: Snapshot): set<Id>
    requires t.folders.Keys == u.folders.Keys
  {
    set i | i in t.folders && t.folders[i].live && !u.folders[i].live
  }

  ghost function StampedFiles(t: Snapshot, u: Snapshot): set<Id>
    requires t.files.Keys == u.files.Keys
  {
    set x | x in t.files && t.files[x].live && !u.files[x].live
  }

  lemma StampedSets(t: Snapshot, f: Id)
    requires LiveFolder(t.folders, f)
    ensures var u := DeleteFolder(t, f).rows;
            && u.folders.Keys == t.folders.Keys && u.files.Keys == t.files.Keys
            && u.rooms == t.rooms && u.shares == t.shares
            && StampedFolders(t, u) == Branch(t.folders, f)
            && StampedFiles(t, u) == FilesIn(t.files, Branch(t.folders, f))
  {
  }

  lemma BranchFigures(t: Snapshot, f: Id)
    requires StatsOk(t) && LiveFolder(t.folders, f)
    ensures |Branch(t.folders, f)| == Fold(t, f).folders + 1
    ensures |FilesIn(t.files, Branch(t.folders, f))| == Fold(t, f).files
  {
    FoldIsBranch(t, f);
    RootTaken(Fold(t, f), TotalsOf(t.files, Branch(t.folders, f)));
  }

  lemma RootTaken(below: Totals, all: Totals)
    requires ONE_FOLDER.Plus(below) == all
    ensures all.folders == below.folders + 1 && all.files == below.files
  {
  }

  /** What softDelete stamps is what stats announced just before, and it changes nothing else. */
  lemma DeleteStampsStats(t: Snapshot, f: Id)
    requires Inv(t) && LiveFolder(t.folders, f)
    ensures var u := DeleteFolder(t, f).rows;
            && u.folders.Keys == t.folders.Keys && u.files.Keys == t.files.Keys
            && u.rooms == t.rooms && u.shares == t.shares
            && StampedFolders(t, u) == Branch(t.folders, f)
            && StampedFiles(t, u) == FilesIn(t.files, Branch(t.folders, f))
            && |StampedFolders(t, u)| == Fold(t, f).folders + 1
            && |StampedFiles(t, u)| == Fold(t, f).files
  {
    StampedSets(t, f);
    BranchFigures(t, f);
  }

  // ---- moving conserves the figures ----

  ghost predicate ProperlyAbove(fs: FolderTable, parent: Option<Id>, a: Id) {
    parent.Some? && Reaches(fs, parent.value, a)
  }

  lemma BranchSplit(fs: FolderTable, gs: FolderTable, f: Id, target: Option<Id>, name: string, a: Id)
    requires BranchMoved(fs, gs, f, target, name) && LiveFolder(fs, a) && !Reaches(fs, a, f)
    ensures var outside := Branch(fs, a) - Branch(fs, f);
            && Branch(fs, a) == outside + (if ProperlyAbove(fs, fs[f].parent, a) then Branch(fs, f) else {})
            && Branch(gs, a) == outside + (if ProperlyAbove(fs, target, a) then Branch(fs, f) else {})
  {
    var outside := Branch(fs, a) - Branch(fs, f);
    ReachesSelf(fs, f);
    ReachesSelf(fs, a);
    ReachesStep(fs, f, a);
    forall i | i in fs
      ensures i in Branch(fs, f) ==> (i in Branch(fs, a) <==> ProperlyAbove(fs, fs[f].parent, a))
      ensures i in Branch(gs, a) <==> i in outside || (i in Branch(fs, f) && ProperlyAbove(fs, target, a))
    {
      assert RowMoved(fs, gs, f, target, name, i);
      if InBranch(fs, i, f) {
        if Reaches(fs, i, a) {
          AncestorsAreLinear(fs, i, a, f);
        }
        if Reaches(fs, f, a) {
          ReachesTrans(fs, i, f, a);
        }
      }
      if LiveFolder(fs, i) {
        ReachesAfterMove(fs, gs, f, target, name, i, a);
      }
    }
  }

  lemma BranchKept(fs: FolderTable, gs: FolderTable, f: Id, target: Option<Id>, name: string, a: Id)
    requires BranchMoved(fs, gs, f, target, name) && LiveFolder(fs, a) && Reaches(fs, a, f)
    ensures Branch(gs, a) == Branch(fs, a)
    ensures !ProperlyAbove(fs, fs[f].parent, a) && !ProperlyAbove(fs, target, a)
  {
    ParentOutsideBranch(fs, f);
    if ProperlyAbove(fs, fs[f].parent, a) {
      ReachesTrans(fs, fs[f].parent.value, a, f);
    }
    if ProperlyAbove(fs, target, a) {
      ReachesTrans(fs, target.value, a, f);
    }
    forall i | i in fs ensures i in Branch(gs, a) <==> i in Branch(fs, a) {
      assert RowMoved(fs, gs, f, target, name, i);
      if LiveFolder(fs, i) {
        ReachesAfterMove(fs, gs, f, target, name, i, a);
        if Reaches(fs, i, a) {
          ReachesTrans(fs, i, a, f);
        }
      }
    }
  }

  lemma TotalsShift(files: FileTable, outside: set<Id>, branch: set<Id>)
    requires outside !! branch
    ensures TotalsOf(files, outside + branch) == TotalsOf(files, outside).Plus(TotalsOf(files, branch))
    ensures TotalsOf(files, outside + {}) == TotalsOf(files, outside)
  {
    TotalsUnion(files, outside, branch);
    assert outside + {} == outside;
  }

  /** `before` and `after` are what a's figures were and are; the branch changes side. */
  ghost predicate Shifted(before: Totals, after: Totals, branch: Totals, loses: bool, gains: bool) {
    if loses && !gains then before == after.Plus(branch)
    else if gains && !loses then after == before.Plus(branch)
    else after == before
  }

  lemma TotalsAfterMove(
    fs: FolderTable, gs: FolderTable, files: FileTable, f: Id, target: Option<Id>, name: string, a: Id)
    requires BranchMoved(fs, gs, f, target, name) && LiveFolder(fs, a)
    ensures Shifted(TotalsOf(files, Branch(fs, a)), TotalsOf(files, Branch(gs, a)), TotalsOf(files, Branch(fs, f)),
                    ProperlyAbove(fs, fs[f].parent, a), ProperlyAbove(fs, target, a))
  {
    if Reaches(fs, a, f) {
      BranchKept(fs, gs, f, target, name, a);
    } else {
      BranchSplit(fs, gs, f, target, name, a);
      TotalsShift(files, Branch(fs, a) - Branch(fs, f), Branch(fs, f));
    }
  }

  /**
   A move conserves the figures: ancestors on the old side only lose exactly the branch,
   ancestors on the new side only gain exactly it, and every other folder keeps its own.
   */
  lemma MoveConservesStats(t: Snapshot, f: Id, target: Option<Id>, a: Id)
    requires Inv(t) && MoveFolder(t, f, target).result.Ok? && LiveFolder(t.folders, a)
    ensures Inv(MoveFolder(t, f, target).rows) && LiveFolder(MoveFolder(t, f, target).rows.folders, a)
    ensures Shifted(Fold(t, a), Fold(MoveFolder(t, f, target).rows, a), ONE_FOLDER.Plus(Fold(t, f)),
                    ProperlyAbove(t.folders, t.folders[f].parent, a), ProperlyAbove(t.folders, target, a))
  {
    Preservation.MoveFolderKeepsInv(t, f, target);
    var gs, name := AcceptedMoveRows(t, f, target);
    assert RowMoved(t.folders, gs, f, target, name, a);
    FoldAfterMove(t, t.(folders := gs), f, target, name, a);
  }

  lemma FoldAfterMove(t: Snapshot, u: Snapshot, f: Id, target: Option<Id>, name: string, a: Id)
    requires StatsOk(t) && StatsOk(u) && u == t.(folders := u.folders)
    requires BranchMoved(t.folders, u.folders, f, target, name)
    requires LiveFolder(t.folders, a) && LiveFolder(u.folders, a)
    ensures Shifted(Fold(t, a), Fold(u, a), ONE_FOLDER.Plus(Fold(t, f)),
                    ProperlyAbove(t.folders, t.folders[f].parent, a), ProperlyAbove(t.folders, target, a))
  {
    var branch, loses, gains := TotalsOf(t.files, Branch(t.folders, f)),
      ProperlyAbove(t.folders, t.folders[f].parent, a), ProperlyAbove(t.folders, target, a);
    assert ONE_FOLDER.Plus(Fold(t, f)) == branch by {
      FoldIsBranch(t, f);
    }
    assert Shifted(ONE_FOLDER.Plus(Fold(t, a)), ONE_FOLDER.Plus(Fold(u, a)), branch, loses, gains) by {
      TotalsAfterMove(t.folders, u.folders, t.files, f, target, name, a);
      FoldIsBranch(t, a);
      FoldIsBranch(u, a);
    }
    ShiftedBelow(Fold(t, a), Fold(u, a), branch, loses, gains);
  }

  lemma ShiftedBelow(before: Totals, after: Totals, branch: Totals, loses: bool, gains: bool)
    requires Shifted(ONE_FOLDER.Plus(before), ONE_FOLDER.Plus(after), branch, loses, gains)
    ensures Shifted(before, after, branch, loses, gains)
  {
  }
}
