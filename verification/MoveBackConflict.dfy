/**
 A store in which a folder can be moved but not moved back: the name it gets at the target is
 one whose suffixes the search cannot recognise, and the old place holds it and its first candidate.
 */
module MoveBackConflict {
  import opened Base
  import opened Tables
  import opened Paths
  import opened Tree
  import opened Integrity
  import opened NameConflict
  import opened Graft
  import opened Steps
  import opened Moves

  /** A line separator passes the validation of names. */
  const LINES: string := "n\U{2028}m"

  const MOVED: Id := "1"
  const TARGET: Id := "4"

  function RootFolder(id: Id, name: string): Folder {
    Folder("a", None, name, BuildChildPath(None, id), true)
  }

  /** Three folders of the room root, and `TARGET` with one child. */
  function Folders(): FolderTable {
    map[
      MOVED := RootFolder(MOVED, LINES),
      "2" := RootFolder("2", LINES + " (1)"),
      "3" := RootFolder("3", LINES + " (1) (1)"),
      TARGET := RootFolder(TARGET, "q"),
      "5" := Folder("a", Some(TARGET), LINES, BuildChildPath(Some(BuildChildPath(None, TARGET)), "5"), true)
    ]
  }

  function Store(): Snapshot {
    Snapshot(map["a" := Room("b", true)], Folders(), map[], map[])
  }

  lemma FoldersAnchored()
    ensures TreeOk(Folders())
  {
    var fs := Folders();
    forall i | LiveFolder(fs, i) ensures Anchored(fs, i) {
    }
  }

  lemma FoldersShallow(i: Id)
    requires i in Folders()
    ensures TreeOk(Folders()) && |Chain(Folders(), i)| <= 2
  {
    FoldersAnchored();
    var fs := Folders();
    ChainStep(fs, i);
    if i == "5" {
      ChainStep(fs, TARGET);
    }
  }

  lemma FoldersDepthLimited()
    ensures DepthLimited(Folders())
  {
    var fs := Folders();
    FoldersAnchored();
    forall i | LiveFolder(fs, i) ensures DepthOf(fs, i) <= MAX_FOLDER_DEPTH {
      FoldersShallow(i);
      PathTestsAreReachability(fs, i, i);
    }
  }

  lemma FoldersUnique()
    ensures UniqueFolderNames(Folders())
  {
    var fs := Folders();
    forall i, j | i in fs && j in fs ensures !FolderClash(fs, i, j) {
      assert |fs[i].name| == |fs[j].name| ==> i == j || (i in {MOVED, "5"} && j in {MOVED, "5"});
    }
  }

  lemma StoreOk()
    ensures Inv(Store())
  {
    FoldersAnchored();
    FoldersDepthLimited();
    FoldersUnique();
  }

  lemma SiblingNames()
    ensures FolderSiblings(Folders(), "a", Some(TARGET), Some(MOVED)) == {LINES}
    ensures FolderSiblings(Folders(), "a", None, Some(MOVED)) == {LINES + " (1)", LINES + " (1) (1)", "q"}
  {
    var fs := Folders();
    var there, here := FolderSiblings(fs, "a", Some(TARGET), Some(MOVED)), FolderSiblings(fs, "a", None, Some(MOVED));
    assert fs["5"].name in there;
    assert fs["2"].name in here && fs["3"].name in here && fs[TARGET].name in here;
  }

  /** The moved folder gets the suffixed name at the target. */
  lemma NameThere()
    ensures !OneLine(LINES) && !OneLine(LINES + " (1)")
    ensures ResolvedName(LINES, {LINES}, false) == LINES + " (1)"
  {
    assert IsLineTerminator(LINES[1]) && (LINES + " (1)")[1] == LINES[1];
    ResolvedTaken(LINES, {LINES}, false);
    FirstCandidate(LINES, false);
  }

  lemma GuardsPass()
    ensures CanGraft(Folders(), MOVED, Some(TARGET)) && !SomeoneTooDeep(Folders(), MOVED, Some(TARGET))
  {
    var fs := Folders();
    FoldersAnchored();
    ReachesIffInChain(fs, TARGET, MOVED);
    ChainStep(fs, TARGET);
    FoldersShallow(TARGET);
    forall i | i in fs ensures |Chain(fs, i)| <= 2 {
      FoldersShallow(i);
    }
  }

  lemma Accepted()
    ensures Inv(Store()) && MoveFolder(Store(), MOVED, Some(TARGET)).result == Ok(MOVED)
    ensures MoveFolder(Store(), MOVED, Some(TARGET)).rows.folders[MOVED].name == LINES + " (1)"
  {
    StoreOk();
    GuardsPass();
    SiblingNames();
    NameThere();
  }

  lemma BackRejected(t: Snapshot, f: Id, target: Option<Id>, there: Snapshot)
    requires Inv(t) && MoveFolder(t, f, target) == Accept(there, f)
    ensures Inv(there) && there.folders[f].parent == target
    ensures var name := there.folders[f].name;
            var siblings := FolderSiblings(t.folders, t.folders[f].room, t.folders[f].parent, Some(f));
            !OneLine(name) && name in siblings && name + " (1)" in siblings ==>
              MoveFolder(there, f, t.folders[f].parent) == Reject(there, Conflict)
  {
    MoveThereAndBack(t, f, target);
  }

  /** The move is accepted, and the move back is rejected for its name. */
  lemma MoveBackConflicts()
    ensures Inv(Store())
    ensures var there := MoveFolder(Store(), MOVED, Some(TARGET));
            && there.result == Ok(MOVED) && Inv(there.rows)
            && there.rows.folders[MOVED].parent == Some(TARGET) != Store().folders[MOVED].parent
            && MoveFolder(there.rows, MOVED, Store().folders[MOVED].parent) == Reject(there.rows, Conflict)
  {
    Accepted();
    SiblingNames();
    NameThere();
    assert LINES + " (1)" + " (1)" == LINES + " (1) (1)";
    BackRejected(Store(), MOVED, Some(TARGET), MoveFolder(Store(), MOVED, Some(TARGET)).rows);
  }
}
