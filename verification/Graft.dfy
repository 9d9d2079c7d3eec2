/**
 Moving a branch. The specification relinks one folder and spells every path anew from
 the parent links; the implementation replaces a path prefix and then relinks. Both
 produce the same table.
 */
module Graft {
  import opened Base
  import opened Tables
  import opened Paths
  import opened Tree
  import Like

  // ---- specification: parent links only ----

  function Relinked(fs: FolderTable, f: Id, target: Option<Id>, name: string): FolderTable
    requires f in fs
  {
    fs[f := fs[f].(parent := target, name := name)]
  }

  /** Detach f, attach it under the target, and let every live path spell its new links. */
  ghost function Grafted(fs: FolderTable, f: Id, target: Option<Id>, name: string): FolderTable
    requires f in fs
  {
    var linked := Relinked(fs, f, target, name);
    map i | i in linked ::
      if linked[i].live then linked[i].(path := LinkPath(linked, i)) else linked[i]
  }

  // ---- implementation: a bulk prefix replacement ----

  /** substring(s from n + 1) */
  function Substring(s: string, n: nat): string {
    if n <= |s| then s[n..] else ""
  }

  /** data_room_id = room AND path LIKE pattern AND deleted_at IS NULL */
  predicate InSubtreeQuery(row: Folder, room: Id, path: string) {
    row.room == room && Like.Matches(row.path, SubtreePattern(path)) && row.live
  }

  function Rewritten(fs: FolderTable, room: Id, oldPath: string, newPath: string): FolderTable {
    map i | i in fs ::
      if InSubtreeQuery(fs[i], room, oldPath)
      then fs[i].(path := newPath + Substring(fs[i].path, |oldPath|))
      else fs[i]
  }

  predicate PlainText(s: string) {
    forall k :: 0 <= k < |s| ==> !Like.IsSpecial(s[k])
  }

  /** Row by row: live rows of the room under the old path get the new prefix and keep their tail. */
  ghost predicate RowsRewritten(fs: FolderTable, gs: FolderTable, room: Id, oldPath: string, newPath: string) {
    && gs.Keys == fs.Keys
    && forall i :: i in fs ==>
         if fs[i].live && fs[i].room == room && oldPath <= fs[i].path
         then gs[i] == fs[i].(path := newPath + fs[i].path[|oldPath|..])
         else gs[i] == fs[i]
  }

  /** On a path without LIKE characters the UPDATE rewrites exactly the rows under that path. */
  lemma RewrittenRows(fs: FolderTable, room: Id, oldPath: string, newPath: string)
    requires PlainText(oldPath)
    ensures RowsRewritten(fs, Rewritten(fs, room, oldPath, newPath), room, oldPath, newPath)
  {
    forall i | i in fs ensures Like.Matches(fs[i].path, SubtreePattern(oldPath)) <==> oldPath <= fs[i].path {
      Like.PlainPrefix(fs[i].path, oldPath);
    }
  }

  lemma RowsRewrittenUnique(fs: FolderTable, gs: FolderTable, room: Id, oldPath: string, newPath: string)
    requires PlainText(oldPath) && RowsRewritten(fs, gs, room, oldPath, newPath)
    ensures gs == Rewritten(fs, room, oldPath, newPath)
  {
    RewrittenRows(fs, room, oldPath, newPath);
  }

  lemma PathIsPlain(fs: FolderTable, f: Id)
    requires TreeOk(fs) && LiveFolder(fs, f)
    ensures PlainText(fs[f].path)
  {
    PathIsChain(fs, f);
    RenderIsPlain(Chain(fs, f));
  }

  /** The subtree query of a live folder selects the live folders that reach it. */
  lemma SubtreeQueryIsBranch(fs: FolderTable, f: Id, i: Id)
    requires TreeOk(fs) && LiveFolder(fs, f) && i in fs
    ensures InSubtreeQuery(fs[i], fs[f].room, fs[f].path) <==> LiveFolder(fs, i) && Reaches(fs, i, f)
  {
    if LiveFolder(fs, i) {
      PathTestsAreReachability(fs, i, f);
    }
  }

  /** The target of a move may not lie in the moved branch. */
  ghost predicate CanGraft(fs: FolderTable, f: Id, target: Option<Id>) {
    && TreeOk(fs) && LiveFolder(fs, f) && ValidParent(fs, fs[f].room, target)
    && (target.Some? ==> !Reaches(fs, target.value, f))
  }

  function NewPath(fs: FolderTable, f: Id, target: Option<Id>): string
    requires target.Some? ==> target.value in fs
  {
    BuildChildPath(ParentPath(fs, target), f)
  }

  /** The table the two statements of move leave behind. */
  function Moved(fs: FolderTable, f: Id, target: Option<Id>, name: string): FolderTable
    requires f in fs && (target.Some? ==> target.value in fs)
  {
    Relinked(Rewritten(fs, fs[f].room, fs[f].path, NewPath(fs, f, target)), f, target, name)
  }

  /** Row by row: the branch gets the new prefix, all else is left alone. */
  ghost predicate RowMoved(fs: FolderTable, gs: FolderTable, f: Id, target: Option<Id>, name: string, i: Id)
    requires i in fs && i in gs && f in fs && (target.Some? ==> target.value in fs)
  {
    if i == f then
      gs[f] == fs[f].(parent := target, name := name, path := NewPath(fs, f, target))
    else if InBranch(fs, i, f) then
      fs[f].path <= fs[i].path
      && gs[i] == fs[i].(path := NewPath(fs, f, target) + fs[i].path[|fs[f].path|..])
    else gs[i] == fs[i]
  }

  ghost predicate InBranch(fs: FolderTable, i: Id, f: Id) {
    LiveFolder(fs, i) && Reaches(fs, i, f)
  }

  ghost predicate BranchMoved(fs: FolderTable, gs: FolderTable, f: Id, target: Option<Id>, name: string) {
    && CanGraft(fs, f, target) && gs.Keys == fs.Keys
    && forall i :: i in fs ==> RowMoved(fs, gs, f, target, name, i)
  }

  lemma MovedRows(fs: FolderTable, f: Id, target: Option<Id>, name: string)
    requires CanGraft(fs, f, target)
    ensures BranchMoved(fs, Moved(fs, f, target, name), f, target, name)
  {
    var gs := Moved(fs, f, target, name);
    ReachesSelf(fs, f);
    forall i | i in fs ensures RowMoved(fs, gs, f, target, name, i) {
      SubtreeQueryIsBranch(fs, f, i);
      SubtreeQueryIsBranch(fs, f, f);
      if LiveFolder(fs, i) {
        PathTestsAreReachability(fs, i, f);
      }
    }
  }

  lemma BranchAnchored(fs: FolderTable, gs: FolderTable, f: Id, target: Option<Id>, name: string, i: Id)
    requires BranchMoved(fs, gs, f, target, name) && InBranch(fs, i, f) && i != f
    ensures Anchored(gs, i)
  {
    var newPath, n := NewPath(fs, f, target), |fs[f].path|;
    assert Anchored(fs, i);
    ReachesStep(fs, i, f);
    var p := fs[i].parent.value;
    assert RowMoved(fs, gs, f, target, name, i);
    assert RowMoved(fs, gs, f, target, name, p);
    if p == f {
      assert fs[i].path[n..] == i + "/";
      assert newPath + (i + "/") == newPath + i + "/";
    } else {
      assert fs[i].path[n..] == fs[p].path[n..] + i + "/";
      AppendAssociates(newPath, fs[p].path[n..], i);
    }
  }

  lemma AppendAssociates(a: string, b: string, c: string)
    ensures a + (b + c + "/") == a + b + c + "/"
  {
  }

  lemma MovedKeepsTree(fs: FolderTable, gs: FolderTable, f: Id, target: Option<Id>, name: string)
    requires BranchMoved(fs, gs, f, target, name)
    ensures TreeOk(gs)
  {
    ReachesSelf(fs, f);
    forall i | LiveFolder(gs, i) ensures Anchored(gs, i) {
      assert RowMoved(fs, gs, f, target, name, i);
      if i == f {
        assert target.Some? ==> RowMoved(fs, gs, f, target, name, target.value);
      } else if InBranch(fs, i, f) {
        BranchAnchored(fs, gs, f, target, name, i);
      } else {
        assert Anchored(fs, i);
        ReachesStep(fs, i, f);
        assert fs[i].parent.Some? ==> RowMoved(fs, gs, f, target, name, fs[i].parent.value);
      }
    }
  }

  lemma MovedLinks(fs: FolderTable, gs: FolderTable, f: Id, target: Option<Id>, name: string)
    requires BranchMoved(fs, gs, f, target, name)
    ensures SameLinks(gs, Relinked(fs, f, target, name))
  {
  }

  /**
   The refinement: replacing the prefix in the branch and relinking one row gives
   every live folder the path that a walk of the new parent links spells.
   */
  lemma MovedIsGrafted(fs: FolderTable, gs: FolderTable, f: Id, target: Option<Id>, name: string)
    requires BranchMoved(fs, gs, f, target, name)
    ensures gs == Grafted(fs, f, target, name)
  {
    var linked := Relinked(fs, f, target, name);
    MovedKeepsTree(fs, gs, f, target, name);
    MovedLinks(fs, gs, f, target, name);
    forall i | i in fs
      ensures gs[i] == if linked[i].live then linked[i].(path := LinkPath(linked, i)) else linked[i]
    {
      assert RowMoved(fs, gs, f, target, name, i);
      if LiveFolder(gs, i) {
        PathIsLinkPath(gs, i);
        LineageTransfer(gs, linked, i, Chain(gs, i));
        LinkPathIs(linked, i, Chain(gs, i));
      }
    }
  }

  /** A move to where the folder already is rewrites nothing, which is why move may skip it. */
  lemma RewriteToSamePath(fs: FolderTable, f: Id)
    requires TreeOk(fs) && LiveFolder(fs, f)
    ensures Rewritten(fs, fs[f].room, fs[f].path, fs[f].path) == fs
  {
    forall i | i in fs ensures Rewritten(fs, fs[f].room, fs[f].path, fs[f].path)[i] == fs[i] {
      SubtreeQueryIsBranch(fs, f, i);
      if InSubtreeQuery(fs[i], fs[f].room, fs[f].path) {
        PathTestsAreReachability(fs, i, f);
        assert fs[i].path == fs[f].path + fs[i].path[|fs[f].path|..];
      }
    }
  }

  // ---- what a graft does to chains ----

  lemma {:induction false} ChainOutside(
    fs: FolderTable, gs: FolderTable, f: Id, target: Option<Id>, name: string, i: Id)
    requires BranchMoved(fs, gs, f, target, name) && TreeOk(gs)
    requires LiveFolder(fs, i) && !Reaches(fs, i, f)
    ensures LiveFolder(gs, i) && Chain(gs, i) == Chain(fs, i)
    decreases |fs[i].path|
  {
    ReachesSelf(fs, f);
    assert RowMoved(fs, gs, f, target, name, i);
    ChainStep(fs, i);
    ChainStep(gs, i);
    ReachesStep(fs, i, f);
    if fs[i].parent.None? {
    } else {
      assert Anchored(fs, i);
      ChainOutside(fs, gs, f, target, name, fs[i].parent.value);
    }
  }

  /** Inside the branch, the part of the chain above f is exchanged. */
  lemma {:induction false} ChainInside(
    fs: FolderTable, gs: FolderTable, f: Id, target: Option<Id>, name: string, i: Id)
    requires BranchMoved(fs, gs, f, target, name) && TreeOk(gs) && InBranch(fs, i, f)
    ensures LiveFolder(gs, i) && |Chain(fs, f)| <= |Chain(fs, i)|
    ensures Chain(gs, i) == ParentChain(fs, target) + Chain(fs, i)[|Chain(fs, f)| - 1..]
    decreases |fs[i].path|
  {
    if i == f {
      BranchRootChain(fs, gs, f, target, name);
    } else {
      var p := BranchParent(fs, gs, f, target, name, i);
      ChainInside(fs, gs, f, target, name, p);
      TailSnoc(ParentChain(fs, target), Chain(fs, p), |Chain(fs, f)| - 1, i);
    }
  }

  /** Below the root of the branch, the parent is in the branch and stays the parent. */
  lemma BranchParent(
    fs: FolderTable, gs: FolderTable, f: Id, target: Option<Id>, name: string, i: Id) returns (p: Id)
    requires BranchMoved(fs, gs, f, target, name) && TreeOk(gs) && InBranch(fs, i, f) && i != f
    ensures InBranch(fs, p, f) && |fs[p].path| < |fs[i].path|
    ensures LiveFolder(gs, p) && LiveFolder(gs, i)
    ensures Chain(fs, i) == Chain(fs, p) + [i] && Chain(gs, i) == Chain(gs, p) + [i]
  {
    ReachesStep(fs, i, f);
    p := fs[i].parent.value;
    assert Anchored(fs, i);
    assert RowMoved(fs, gs, f, target, name, i);
    assert RowMoved(fs, gs, f, target, name, p);
    ChainStep(fs, i);
    ChainStep(gs, i);
  }

  lemma BranchRootChain(fs: FolderTable, gs: FolderTable, f: Id, target: Option<Id>, name: string)
    requires BranchMoved(fs, gs, f, target, name) && TreeOk(gs)
    ensures LiveFolder(gs, f)
    ensures Chain(gs, f) == ParentChain(fs, target) + [f] == ParentChain(fs, target) + Chain(fs, f)[|Chain(fs, f)| - 1..]
  {
    assert RowMoved(fs, gs, f, target, name, f);
    ChainStep(gs, f);
    if target.Some? {
      ChainOutside(fs, gs, f, target, name, target.value);
    }
  }

  lemma TailSnoc(a: seq<Id>, c: seq<Id>, n: nat, i: Id)
    requires n <= |c|
    ensures a + (c + [i])[n..] == a + c[n..] + [i]
  {
  }
}
