/**
 Parent links against paths. Everything above the line "paths meet links" speaks of
 parent links only; everything below it shows that the path column answers the same
 questions, given that each live path extends the parent's path by one id.
 */
module Tree {
  import opened Base
  import opened Tables
  import opened Paths
  import Like

  /** The row reached after n parent links. */
  ghost function Ancestor(fs: FolderTable, i: Id, n: nat): Option<Id>
    decreases n
  {
    if n == 0 then Some(i)
    else if i in fs && fs[i].parent.Some? then Ancestor(fs, fs[i].parent.value, n - 1)
    else None
  }

  /** Some number of parent links, possibly zero, leads from i to a. */
  ghost predicate Reaches(fs: FolderTable, i: Id, a: Id) {
    exists n: nat :: Ancestor(fs, i, n) == Some(a)
  }

  /** c is the whole chain of parent links from a root folder down to i. */
  ghost predicate Lineage(fs: FolderTable, i: Id, c: seq<Id>) {
    && c != [] && c[|c| - 1] == i
    && (forall k :: 0 <= k < |c| ==> c[k] in fs)
    && fs[c[0]].parent == None
    && (forall k :: 0 < k < |c| ==> fs[c[k]].parent == Some(c[k - 1]))
  }

  /** The path that a walk of the parent links spells. */
  ghost function LinkPath(fs: FolderTable, i: Id): string {
    if exists c :: Lineage(fs, i, c) then
      var c :| Lineage(fs, i, c);
      Render(c)
    else ""
  }

  lemma LineageParent(fs: FolderTable, i: Id, c: seq<Id>)
    requires Lineage(fs, i, c)
    ensures i in fs && fs[i].parent == if |c| == 1 then None else Some(c[|c| - 2])
  {
  }

  lemma {:induction false} LineageUnique(fs: FolderTable, i: Id, c: seq<Id>, d: seq<Id>)
    requires Lineage(fs, i, c) && Lineage(fs, i, d)
    ensures c == d
    decreases |c|
  {
    LineageParent(fs, i, c);
    LineageParent(fs, i, d);
    if |c| == 1 {
    } else {
      var c', d' := c[..|c| - 1], d[..|d| - 1];
      LineageUnique(fs, c[|c| - 2], c', d');
      assert c == c' + [i] && d == d' + [i];
    }
  }

  lemma LinkPathIs(fs: FolderTable, i: Id, c: seq<Id>)
    requires Lineage(fs, i, c)
    ensures LinkPath(fs, i) == Render(c)
  {
    forall d | Lineage(fs, i, d) ensures d == c {
      LineageUnique(fs, i, c, d);
    }
  }

  /** Only ids and parent links matter to a lineage. */
  ghost predicate SameLinks(fs: FolderTable, gs: FolderTable) {
    && fs.Keys == gs.Keys
    && forall i :: i in fs ==> fs[i].parent == gs[i].parent
  }

  lemma LineageTransfer(fs: FolderTable, gs: FolderTable, i: Id, c: seq<Id>)
    requires SameLinks(fs, gs)
    ensures Lineage(fs, i, c) <==> Lineage(gs, i, c)
  {
  }

  lemma {:induction false} ReachTransitive(fs: FolderTable, i: Id, a: Id, b: Id, n: nat, m: nat)
    requires Ancestor(fs, i, n) == Some(a) && Ancestor(fs, a, m) == Some(b)
    ensures Ancestor(fs, i, n + m) == Some(b)
    decreases n
  {
    if n == 0 {
    } else {
      ReachTransitive(fs, fs[i].parent.value, a, b, n - 1, m);
    }
  }

  // ---- paths meet links ----

  /** The path of a live folder extends the path of its live parent, in the same room. */
  predicate Anchored(fs: FolderTable, i: Id)
    requires i in fs
  {
    && ValidParent(fs, fs[i].room, fs[i].parent)
    && fs[i].path == BuildChildPath(ParentPath(fs, fs[i].parent), i)
  }

  function ParentPath(fs: FolderTable, parent: Option<Id>): Option<string>
    requires parent.Some? ==> parent.value in fs
  {
    if parent.Some? then Some(fs[parent.value].path) else None
  }

  ghost predicate TreeOk(fs: FolderTable) {
    forall i {:trigger Anchored(fs, i)} :: LiveFolder(fs, i) ==> Anchored(fs, i)
  }

  /** The recursive walk to the root. */
  ghost function Chain(fs: FolderTable, i: Id): (c: seq<Id>)
    requires TreeOk(fs) && LiveFolder(fs, i)
    ensures c != [] && c[|c| - 1] == i
    decreases |fs[i].path|
  {
    assert Anchored(fs, i);
    if fs[i].parent.None? then [i] else Chain(fs, fs[i].parent.value) + [i]
  }

  lemma {:induction false} ChainMembers(fs: FolderTable, i: Id)
    requires TreeOk(fs) && LiveFolder(fs, i)
    ensures forall k :: 0 <= k < |Chain(fs, i)| ==>
              LiveFolder(fs, Chain(fs, i)[k]) && fs[Chain(fs, i)[k]].room == fs[i].room
    decreases |fs[i].path|
  {
    assert Anchored(fs, i);
    if fs[i].parent.None? {
    } else {
      ChainMembers(fs, fs[i].parent.value);
    }
  }

  /** The room root has the empty chain. */
  ghost function ParentChain(fs: FolderTable, parent: Option<Id>): seq<Id>
    requires TreeOk(fs) && (parent.Some? ==> LiveFolder(fs, parent.value))
  {
    if parent.None? then [] else Chain(fs, parent.value)
  }

  lemma ChainStep(fs: FolderTable, i: Id)
    requires TreeOk(fs) && LiveFolder(fs, i)
    ensures fs[i].parent.Some? ==> LiveFolder(fs, fs[i].parent.value)
    ensures Chain(fs, i) == ParentChain(fs, fs[i].parent) + [i]
  {
    assert Anchored(fs, i);
  }

  /** The path column spells the chain of parent links. */
  lemma {:induction false} PathIsChain(fs: FolderTable, i: Id)
    requires TreeOk(fs) && LiveFolder(fs, i)
    ensures fs[i].path == Render(Chain(fs, i))
    decreases |fs[i].path|
  {
    assert Anchored(fs, i);
    var c := Chain(fs, i);
    if fs[i].parent.None? {
      assert c[..0] == [];
    } else {
      var p := fs[i].parent.value;
      PathIsChain(fs, p);
      assert c[..|c| - 1] == Chain(fs, p);
    }
  }

  lemma {:induction false} ChainIsLineage(fs: FolderTable, i: Id)
    requires TreeOk(fs) && LiveFolder(fs, i)
    ensures Lineage(fs, i, Chain(fs, i))
    decreases |fs[i].path|
  {
    assert Anchored(fs, i);
    if fs[i].parent.None? {
    } else {
      ChainIsLineage(fs, fs[i].parent.value);
    }
  }

  /** The redundant column holds what a walk of the parent links would compute. */
  lemma PathIsLinkPath(fs: FolderTable, i: Id)
    requires TreeOk(fs) && LiveFolder(fs, i)
    ensures Lineage(fs, i, Chain(fs, i)) && fs[i].path == LinkPath(fs, i) == Render(Chain(fs, i))
    ensures forall c :: Lineage(fs, i, c) ==> c == Chain(fs, i)
  {
    PathIsChain(fs, i);
    ChainIsLineage(fs, i);
    forall c | Lineage(fs, i, c) ensures c == Chain(fs, i) {
      LineageUnique(fs, i, c, Chain(fs, i));
    }
    LinkPathIs(fs, i, Chain(fs, i));
  }

  /** Walking n links up is reading the chain n places before its end. */
  lemma {:induction false} AncestorInChain(fs: FolderTable, i: Id, n: nat)
    requires TreeOk(fs) && LiveFolder(fs, i)
    ensures var c := Chain(fs, i);
            Ancestor(fs, i, n) == if n < |c| then Some(c[|c| - 1 - n]) else None
    decreases n
  {
    ChainStep(fs, i);
    if n == 0 || fs[i].parent.None? {
    } else {
      AncestorInChain(fs, fs[i].parent.value, n - 1);
    }
  }

  lemma ReachesIffInChain(fs: FolderTable, i: Id, a: Id)
    requires TreeOk(fs) && LiveFolder(fs, i)
    ensures Reaches(fs, i, a) <==> a in Chain(fs, i)
  {
    var c := Chain(fs, i);
    if Reaches(fs, i, a) {
      var n: nat :| Ancestor(fs, i, n) == Some(a);
      AncestorInChain(fs, i, n);
    }
    if a in c {
      var k :| 0 <= k < |c| && c[k] == a;
      AncestorInChain(fs, i, |c| - 1 - k);
    }
  }

  /** Every initial piece of a chain is itself the chain of its last folder. */
  lemma {:induction false} ChainPrefix(fs: FolderTable, i: Id, k: nat)
    requires TreeOk(fs) && LiveFolder(fs, i) && k < |Chain(fs, i)|
    ensures LiveFolder(fs, Chain(fs, i)[k])
    ensures Chain(fs, Chain(fs, i)[k]) == Chain(fs, i)[..k + 1]
    decreases |fs[i].path|
  {
    assert Anchored(fs, i);
    ChainMembers(fs, i);
    var c := Chain(fs, i);
    if k < |c| - 1 {
      var p := fs[i].parent.value;
      ChainPrefix(fs, p, k);
      assert c[..k + 1] == Chain(fs, p)[..k + 1];
    } else {
      assert c[..k + 1] == c;
    }
  }

  lemma ReachesIffChainPrefix(fs: FolderTable, i: Id, a: Id)
    requires TreeOk(fs) && LiveFolder(fs, i) && LiveFolder(fs, a)
    ensures Reaches(fs, i, a) <==> Chain(fs, a) <= Chain(fs, i)
  {
    ReachesIffInChain(fs, i, a);
    var c := Chain(fs, i);
    if a in c {
      var k :| 0 <= k < |c| && c[k] == a;
      ChainPrefix(fs, i, k);
    }
    if Chain(fs, a) <= c {
      assert c[|Chain(fs, a)| - 1] == a;
    }
  }

  /**
   The path tests decide reachability by parent links: startsWith, LIKE and the
   id list all give the recursive answer, and the slash count gives the depth.
   */
  lemma PathTestsAreReachability(fs: FolderTable, i: Id, a: Id)
    requires TreeOk(fs) && LiveFolder(fs, i) && LiveFolder(fs, a)
    ensures IsDescendantOrSelf(fs[i].path, fs[a].path) <==> Reaches(fs, i, a)
    ensures Like.Matches(fs[i].path, SubtreePattern(fs[a].path)) <==> Reaches(fs, i, a)
    ensures ParseIds(fs[i].path) == Chain(fs, i)
    ensures SlashDepth(fs[i].path) == Depth(Some(fs[i].path)) == |Chain(fs, i)|
    ensures Reaches(fs, i, a) ==> fs[i].room == fs[a].room
  {
    PathIsChain(fs, i);
    PathIsChain(fs, a);
    PathCode(Chain(fs, a), Chain(fs, i));
    PathCode(Chain(fs, i), Chain(fs, i));
    ChainMembers(fs, i);
    ReachesIffChainPrefix(fs, i, a);
    ReachesIffInChain(fs, i, a);
  }

  /** No folder is its own proper ancestor. */
  lemma Acyclic(fs: FolderTable, i: Id, n: nat)
    requires TreeOk(fs) && LiveFolder(fs, i) && Ancestor(fs, i, n) == Some(i)
    ensures n == 0
  {
    AncestorInChain(fs, i, n);
    var c := Chain(fs, i);
    ChainPrefix(fs, i, |c| - 1 - n);
  }

  lemma ReachesSelf(fs: FolderTable, i: Id)
    ensures Reaches(fs, i, i)
  {
    assert Ancestor(fs, i, 0) == Some(i);
  }

  /** A folder reaches a exactly if it is a or its parent reaches a. */
  lemma ReachesStep(fs: FolderTable, i: Id, a: Id)
    requires i in fs
    ensures Reaches(fs, i, a)
            <==> i == a || (fs[i].parent.Some? && Reaches(fs, fs[i].parent.value, a))
  {
    if Reaches(fs, i, a) {
      var n: nat :| Ancestor(fs, i, n) == Some(a);
      if n > 0 {
        assert Ancestor(fs, fs[i].parent.value, n - 1) == Some(a);
      }
    }
    if i == a {
      ReachesSelf(fs, i);
    } else if fs[i].parent.Some? && Reaches(fs, fs[i].parent.value, a) {
      var n: nat :| Ancestor(fs, fs[i].parent.value, n) == Some(a);
      assert Ancestor(fs, i, n + 1) == Some(a);
    }
  }

  lemma ReachesTrans(fs: FolderTable, i: Id, a: Id, b: Id)
    requires Reaches(fs, i, a) && Reaches(fs, a, b)
    ensures Reaches(fs, i, b)
  {
    var n: nat :| Ancestor(fs, i, n) == Some(a);
    var m: nat :| Ancestor(fs, a, m) == Some(b);
    ReachTransitive(fs, i, a, b, n, m);
  }

  /** Two ancestors of one folder lie on one line. */
  lemma AncestorsAreLinear(fs: FolderTable, i: Id, a: Id, b: Id)
    requires TreeOk(fs) && LiveFolder(fs, i) && LiveFolder(fs, a) && LiveFolder(fs, b)
    requires Reaches(fs, i, a) && Reaches(fs, i, b)
    ensures Reaches(fs, a, b) || Reaches(fs, b, a)
  {
    ReachesIffChainPrefix(fs, i, a);
    ReachesIffChainPrefix(fs, i, b);
    ReachesIffChainPrefix(fs, a, b);
    ReachesIffChainPrefix(fs, b, a);
  }

  /** Two live folders that reach each other are the same. */
  lemma ReachesAntisymmetric(fs: FolderTable, a: Id, b: Id)
    requires TreeOk(fs) && LiveFolder(fs, a) && LiveFolder(fs, b)
    requires Reaches(fs, a, b) && Reaches(fs, b, a)
    ensures a == b
  {
    ReachesIffChainPrefix(fs, a, b);
    ReachesIffChainPrefix(fs, b, a);
  }

  /** A table with the same links whose live rows carry the link path keeps the tree in order. */
  lemma LinkPathsDetermineTree(fs: FolderTable, gs: FolderTable, i: Id)
    requires TreeOk(fs) && TreeOk(gs) && SameLinks(fs, gs)
    requires LiveFolder(fs, i) && LiveFolder(gs, i)
    ensures Chain(fs, i) == Chain(gs, i) && fs[i].path == gs[i].path
  {
    PathIsLinkPath(fs, i);
    PathIsLinkPath(gs, i);
    LineageTransfer(fs, gs, i, Chain(fs, i));
    LineageUnique(gs, i, Chain(fs, i), Chain(gs, i));
  }
}
