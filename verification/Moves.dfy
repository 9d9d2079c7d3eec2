/** What a whole move does: reachability afterwards, moving in place, moving there and back. */
module Moves {
  import opened Base
  import opened Tables
  import opened Paths
  import opened Tree
  import opened Integrity
  import opened NameConflict
  import opened Graft
  import opened Steps
  import opened Preservation

  lemma BranchTail(fs: FolderTable, f: Id, i: Id, a: Id)
    requires TreeOk(fs) && InBranch(fs, i, f) && LiveFolder(fs, f) && LiveFolder(fs, a)
    ensures |Chain(fs, f)| <= |Chain(fs, i)|
    ensures a in Chain(fs, i)[|Chain(fs, f)| - 1..] <==> Reaches(fs, i, a) && Reaches(fs, a, f)
  {
    var c, n := Chain(fs, i), |Chain(fs, f)|;
    ReachesIffChainPrefix(fs, i, f);
    ReachesIffInChain(fs, i, a);
    ReachesIffChainPrefix(fs, i, a);
    ReachesIffChainPrefix(fs, a, f);
    if a in c[n - 1..] {
      var k :| n - 1 <= k < |c| && c[k] == a;
      ChainPrefix(fs, i, k);
    }
    if Reaches(fs, i, a) && Reaches(fs, a, f) {
      var k := |Chain(fs, a)| - 1;
      assert c[k] == a;
      assert c[n - 1..][k - (n - 1)] == a;
    }
  }

  /**
   Who reaches whom after a move: outside the branch nothing changes; inside, the
   ancestors are those within the branch plus the target's.
   */
  lemma ReachesAfterMove(
    fs: FolderTable, gs: FolderTable, f: Id, target: Option<Id>, name: string, i: Id, a: Id)
    requires BranchMoved(fs, gs, f, target, name) && LiveFolder(fs, i) && LiveFolder(fs, a)
    ensures Reaches(gs, i, a)
            <==> if !Reaches(fs, i, f) then Reaches(fs, i, a)
                 else (Reaches(fs, i, a) && Reaches(fs, a, f))
                      || (target.Some? && Reaches(fs, target.value, a))
  {
    MovedKeepsTree(fs, gs, f, target, name);
    assert RowMoved(fs, gs, f, target, name, i);
    ReachesIffInChain(gs, i, a);
    ReachesIffInChain(fs, i, a);
    if Reaches(fs, i, f) {
      ChainInside(fs, gs, f, target, name, i);
      BranchTail(fs, f, i, a);
      if target.Some? {
        ReachesIffInChain(fs, target.value, a);
      }
    } else {
      ChainOutside(fs, gs, f, target, name, i);
    }
  }

  /** The branch is the same set of folders before and after. */
  lemma BranchAfterMove(
    fs: FolderTable, gs: FolderTable, f: Id, target: Option<Id>, name: string, i: Id)
    requires BranchMoved(fs, gs, f, target, name) && i in fs
    ensures InBranch(gs, i, f) <==> InBranch(fs, i, f)
  {
    assert RowMoved(fs, gs, f, target, name, i);
    if LiveFolder(fs, i) {
      ReachesAfterMove(fs, gs, f, target, name, i, f);
      ReachesSelf(fs, f);
    }
  }

  /** The depth guard rejects exactly the moves after which some folder would sit too deep. */
  lemma DepthGuardIsExact(fs: FolderTable, gs: FolderTable, f: Id, target: Option<Id>, name: string)
    requires BranchMoved(fs, gs, f, target, name)
    ensures TreeOk(gs)
    ensures SomeoneTooDeep(fs, f, target)
            <==> exists i :: InBranch(gs, i, f) && |Chain(gs, i)| > 20
  {
    MovedKeepsTree(fs, gs, f, target, name);
    forall i | i in fs
      ensures InBranch(gs, i, f) <==> InBranch(fs, i, f)
      ensures InBranch(gs, i, f) ==>
                |Chain(gs, i)| == |ParentChain(fs, target)| + 1 + (|Chain(fs, i)| - |Chain(fs, f)|)
    {
      BranchAfterMove(fs, gs, f, target, name, i);
      if InBranch(fs, i, f) {
        ChainInside(fs, gs, f, target, name, i);
      }
    }
  }

  /** The table of an accepted move, in both of its forms. */
  lemma AcceptedMove(t: Snapshot, f: Id, target: Option<Id>) returns (gs: FolderTable, name: string)
    requires Inv(t) && MoveFolder(t, f, target).result.Ok?
    ensures MoveFolder(t, f, target).rows == t.(folders := gs)
    ensures gs == Moved(t.folders, f, target, name) == Grafted(t.folders, f, target, name)
    ensures BranchMoved(t.folders, gs, f, target, name)
    ensures TreeOk(gs) && gs[f].name == name
            == ResolvedName(t.folders[f].name, FolderSiblings(t.folders, t.folders[f].room, target, Some(f)), false)
  {
    var fs := t.folders;
    name := ResolvedName(fs[f].name, FolderSiblings(fs, fs[f].room, target, Some(f)), false);
    gs := Moved(fs, f, target, name);
    MovedRows(fs, f, target, name);
    MovedIsGrafted(fs, gs, f, target, name);
    MovedKeepsTree(fs, gs, f, target, name);
    assert RowMoved(fs, gs, f, target, name, f);
  }

  lemma AcceptedMoveRows(t: Snapshot, f: Id, target: Option<Id>) returns (gs: FolderTable, name: string)
    requires Inv(t) && MoveFolder(t, f, target).result.Ok?
    ensures MoveFolder(t, f, target).rows == t.(folders := gs)
    ensures BranchMoved(t.folders, gs, f, target, name)
  {
    gs, name := AcceptedMove(t, f, target);
  }

  lemma ParentOutsideBranch(fs: FolderTable, f: Id)
    requires TreeOk(fs) && LiveFolder(fs, f)
    ensures CanGraft(fs, f, fs[f].parent)
  {
    assert Anchored(fs, f);
    if fs[f].parent.Some? && Reaches(fs, fs[f].parent.value, f) {
      var n: nat :| Ancestor(fs, fs[f].parent.value, n) == Some(f);
      assert Ancestor(fs, f, n + 1) == Some(f);
      Acyclic(fs, f, n + 1);
    }
  }

  /** Moving to the current parent is accepted and changes nothing at all. */
  lemma MoveInPlace(t: Snapshot, f: Id)
    requires Inv(t) && LiveFolder(t.folders, f)
    ensures MoveFolder(t, f, t.folders[f].parent) == Accept(t, f)
  {
    var fs, parent := t.folders, t.folders[f].parent;
    ParentOutsideBranch(fs, f);
    ChainStep(fs, f);
    forall i | InBranch(fs, i, f) ensures |Chain(fs, i)| <= MAX_FOLDER_DEPTH {
      ChainLimited(fs, i);
    }
    OwnNameIsFree(fs, f);
    GraftInPlace(fs, f);
  }

  lemma OwnNameIsFree(fs: FolderTable, f: Id)
    requires UniqueFolderNames(fs) && LiveFolder(fs, f)
    ensures fs[f].name !in FolderSiblings(fs, fs[f].room, fs[f].parent, Some(f))
  {
  }

  lemma GraftInPlace(fs: FolderTable, f: Id)
    requires LiveFolder(fs, f) && CanGraft(fs, f, fs[f].parent)
    ensures Grafted(fs, f, fs[f].parent, fs[f].name) == fs
  {
    var parent, name := fs[f].parent, fs[f].name;
    MovedRows(fs, f, parent, name);
    MovedIsGrafted(fs, Moved(fs, f, parent, name), f, parent, name);
    MovedInPlace(fs, Moved(fs, f, parent, name), f);
  }

  lemma MovedInPlace(fs: FolderTable, gs: FolderTable, f: Id)
    requires LiveFolder(fs, f) && BranchMoved(fs, gs, f, fs[f].parent, fs[f].name)
    ensures gs == fs
  {
    assert Anchored(fs, f);
    forall i | i in fs ensures gs[i] == fs[i] {
      assert RowMoved(fs, gs, f, fs[f].parent, fs[f].name, i);
    }
  }

  /** Moving back undoes the links, hence the paths; only the name may have been changed. */
  lemma BackRestoresRows(
    fs: FolderTable, gs: FolderTable, hs: FolderTable, f: Id, target: Option<Id>, name: string, name': string)
    requires BranchMoved(fs, gs, f, target, name) && BranchMoved(gs, hs, f, fs[f].parent, name')
    ensures hs == fs[f := fs[f].(name := name')]
  {
    MovedKeepsTree(gs, hs, f, fs[f].parent, name');
    forall i | i in fs ensures hs[i] == fs[f := fs[f].(name := name')][i] {
      assert RowMoved(fs, gs, f, target, name, i);
      assert RowMoved(gs, hs, f, fs[f].parent, name', i);
      BranchAfterMove(fs, gs, f, target, name, i);
      if LiveFolder(fs, i) {
        BackLinks(fs, gs, hs, f, target, name, name');
        LinkPathsDetermineTree(fs, hs, i);
      }
    }
  }

  lemma BackLinks(
    fs: FolderTable, gs: FolderTable, hs: FolderTable, f: Id, target: Option<Id>, name: string, name': string)
    requires BranchMoved(fs, gs, f, target, name) && BranchMoved(gs, hs, f, fs[f].parent, name')
    ensures SameLinks(fs, hs)
  {
  }

  /** The way back is open: no cycle, and every depth is the one before the move. */
  lemma WayBack(fs: FolderTable, gs: FolderTable, f: Id, target: Option<Id>, name: string)
    requires BranchMoved(fs, gs, f, target, name) && DepthLimited(fs)
    ensures CanGraft(gs, f, fs[f].parent) && !SomeoneTooDeep(gs, f, fs[f].parent)
  {
    var parent := fs[f].parent;
    MovedKeepsTree(fs, gs, f, target, name);
    ParentOutsideBranch(fs, f);
    ChainStep(fs, f);
    assert RowMoved(fs, gs, f, target, name, f);
    if parent.Some? {
      var p := parent.value;
      assert RowMoved(fs, gs, f, target, name, p);
      ReachesAfterMove(fs, gs, f, target, name, p, f);
      ChainOutside(fs, gs, f, target, name, p);
    }
    BranchRootChain(fs, gs, f, target, name);
    forall i | InBranch(gs, i, f)
      ensures |ParentChain(gs, parent)| + 1 + (|Chain(gs, i)| - |Chain(gs, f)|) <= MAX_FOLDER_DEPTH
    {
      BranchAfterMove(fs, gs, f, target, name, i);
      ChainInside(fs, gs, f, target, name, i);
      ChainLimited(fs, i);
    }
  }

  /**
   After any accepted move, moving back to the original parent restores every row exactly,
   up to the name of the moved folder. It can fail only on that name, and does so exactly
   when the name now carries a line terminator and is taken at the old place together with
   its first candidate.
   */
  lemma MoveThereAndBack(t: Snapshot, f: Id, target: Option<Id>)
    requires Inv(t) && MoveFolder(t, f, target).result.Ok?
    ensures Inv(MoveFolder(t, f, target).rows)
    ensures var there := MoveFolder(t, f, target).rows;
            var back := MoveFolder(there, f, t.folders[f].parent);
            var name := there.folders[f].name;
            var siblings := FolderSiblings(t.folders, t.folders[f].room, t.folders[f].parent, Some(f));
            && (back.result == Err(Conflict)
                <==> !OneLine(name) && name in siblings && name + " (1)" in siblings)
            && (back.result != Err(Conflict) ==>
                  back == Accept(t.(folders := t.folders[f :=
                      t.folders[f].(name := ResolvedName(name, siblings, false))]), f))
  {
    var fs, parent := t.folders, t.folders[f].parent;
    var gs, name := AcceptedMove(t, f, target);
    var there := t.(folders := gs);
    MoveFolderKeepsInv(t, f, target);
    WayBack(fs, gs, f, target, name);
    SiblingsStay(fs, gs, f, target, name, parent);
    var siblings := FolderSiblings(fs, fs[f].room, parent, Some(f));
    var name' := ResolvedName(name, siblings, false);
    ResolvedTaken(name, siblings, false);
    FirstCandidate(name, false);
    assert RowMoved(fs, gs, f, target, name, f);
    if name' !in siblings {
      var hs, n := AcceptedMove(there, f, parent);
      BackRestoresRows(fs, gs, hs, f, target, name, n);
    }
  }

  lemma SiblingsStay(
    fs: FolderTable, gs: FolderTable, f: Id, target: Option<Id>, name: string, parent: Option<Id>)
    requires BranchMoved(fs, gs, f, target, name)
    ensures gs[f].room == fs[f].room
    ensures FolderSiblings(gs, fs[f].room, parent, Some(f)) == FolderSiblings(fs, fs[f].room, parent, Some(f))
  {
  }
}
