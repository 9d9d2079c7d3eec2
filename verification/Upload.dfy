/**
 The upload handshake against object storage, interleaved finely: a confirm is a head
 check and, later, an insert; a delete is a stamp and, later, the removal of the object.
 Any number of both may be under way at once, and any of them may stop half-way.
 */
module Upload {
  import opened Base
  import opened Tables
  import opened Integrity
  import Steps
  import opened Histories

  /** A confirm that has passed its head check and has not inserted yet. */
  datatype Checked = Checked(key: string, size: nat, sizeReported: bool)

  /** `compared`: the rows whose size was compared with a size that storage reported. */
  datatype State = State(
    issued: set<string>,
    objects: map<string, nat>,
    files: FileTable,
    compared: set<Id>,
    confirms: map<nat, Checked>,
    deletes: map<nat, Id>,
    removals: map<nat, string>)

  datatype Step =
    | IssueKey(key: string)
    | Put(key: string, size: nat)
    | HeadCheck(p: nat, check: Checked)
    | Insert(p: nat, id: Id, row: File)
    | GiveUpConfirm(p: nat)
    | Relocate(x: Id, folder: Option<Id>, name: string)  // file rename and move
    | ReadForDelete(p: nat, x: Id)                       // file delete finds the live row
    | Stamp(p: nat, x: Id)                               // its UPDATE, which may find the row already deleted
    | StampMany(ids: set<Id>)                            // folder or room delete: objects stay
    | RemoveObject(p: nat)
    | RemoveFails(p: nat)

  function RowKeys(files: FileTable): set<string> {
    set x | x in files :: files[x].key
  }

  /** What a step demands of the file rows. */
  predicate FilesEnabled(files: FileTable, step: Step) {
    match step
    case Insert(_, id, row) => id !in files && row.live && row.key !in RowKeys(files)
    case Relocate(x, _, _) => x in files
    case ReadForDelete(_, x) => LiveFile(files, x)
    case Stamp(_, x) => x in files
    case _ => true
  }

  /** What a step does to the file rows. */
  function NextFiles(files: FileTable, step: Step): FileTable
    requires FilesEnabled(files, step)
  {
    match step
    case Insert(_, id, row) => files[id := row]
    case Relocate(x, folder, name) => files[x := files[x].(folder := folder, name := name)]
    case Stamp(_, x) => files[x := files[x].(live := false)]
    case StampMany(ids) => map x | x in files :: if x in ids then files[x].(live := false) else files[x]
    case _ => files
  }

  /** `overwrite`: does storage accept a second PUT on an existing object? */
  predicate Enabled(s: State, step: Step, overwrite: bool) {
    && FilesEnabled(s.files, step)
    && match step
       case IssueKey(key) => key !in s.issued && key !in s.objects && key !in RowKeys(s.files)
       case Put(key, _) => key in s.issued && (overwrite || key !in s.objects)
       case HeadCheck(p, check) =>
         p !in s.confirms && check.key in s.objects
         && (check.sizeReported ==> s.objects[check.key] == check.size)
       case Insert(p, _, row) =>
         p in s.confirms && row.key == s.confirms[p].key && row.size == s.confirms[p].size
       case GiveUpConfirm(p) => p in s.confirms
       case ReadForDelete(p, _) => p !in s.deletes
       case Stamp(p, x) => p in s.deletes && s.deletes[p] == x && p !in s.removals
       case RemoveObject(p) => p in s.removals
       case RemoveFails(p) => p in s.removals
       case _ => true
  }

  function Next(s: State, step: Step, overwrite: bool): State
    requires Enabled(s, step, overwrite)
  {
    var t := s.(files := NextFiles(s.files, step));
    match step
    case IssueKey(key) => t.(issued := s.issued + {key})
    case Put(key, size) => t.(objects := s.objects[key := size])
    case HeadCheck(p, check) => t.(confirms := s.confirms[p := check])
    case Insert(p, id, _) =>
      t.(confirms := s.confirms - {p}, compared := s.compared + if s.confirms[p].sizeReported then {id} else {})
    case GiveUpConfirm(p) => t.(confirms := s.confirms - {p})
    case ReadForDelete(p, x) => t.(deletes := s.deletes[p := x])
    case Stamp(p, x) => t.(deletes := s.deletes - {p}, removals := s.removals[p := s.files[x].key])
    case RemoveObject(p) => t.(objects := s.objects - {s.removals[p]}, removals := s.removals - {p})
    case RemoveFails(p) => t.(removals := s.removals - {p})
    case _ => t
  }

  const START := State({}, map[], map[], {}, map[], map[], map[])

  /** No phantom: the object of every live row is in storage. */
  ghost predicate NoPhantom(s: State) {
    forall x :: LiveFile(s.files, x) ==> s.files[x].key in s.objects
  }

  /** The size of every live row that was compared is the size of its object. */
  ghost predicate SizesAgree(s: State) {
    forall x :: LiveFile(s.files, x) && x in s.compared ==>
      s.files[x].key in s.objects && s.objects[s.files[x].key] == s.files[x].size
  }

  /** A key that passed the head check is still in storage, unless some row has used it since. */
  ghost predicate ChecksHold(s: State, overwrite: bool) {
    forall p :: p in s.confirms && s.confirms[p].key !in RowKeys(s.files) ==>
      && s.confirms[p].key in s.objects
      && (s.confirms[p].sizeReported && !overwrite ==> s.objects[s.confirms[p].key] == s.confirms[p].size)
  }

  ghost predicate DeadKey(files: FileTable, key: string) {
    exists x :: x in files && !files[x].live && files[x].key == key
  }

  /** Only keys of deleted rows are about to be removed. */
  ghost predicate RemovalsOfDead(s: State) {
    forall p :: p in s.removals ==> DeadKey(s.files, s.removals[p])
  }

  ghost predicate Good(s: State, overwrite: bool) {
    && NoPhantom(s) && UniqueKeys(s.files) && ChecksHold(s, overwrite) && RemovalsOfDead(s)
    && s.compared <= s.files.Keys
    && (!overwrite ==> SizesAgree(s))
  }

  lemma RowKeysAdd(files: FileTable, id: Id, row: File)
    requires id !in files
    ensures RowKeys(files[id := row]) == RowKeys(files) + {row.key}
  {
    var more := files[id := row];
    forall k | k in RowKeys(files) + {row.key} ensures k in RowKeys(more) {
      if k in RowKeys(files) {
        var x :| x in files && files[x].key == k;
        assert more[x].key == k;
      } else {
        assert more[id].key == k;
      }
    }
  }

  lemma DeadKeyStays(files: FileTable, more: FileTable, key: string)
    requires DeadKey(files, key)
    requires forall x :: x in files && !files[x].live ==> x in more && !more[x].live && more[x].key == files[x].key
    ensures DeadKey(more, key)
  {
  }

  lemma InsertKeepsRows(s: State, step: Step, overwrite: bool)
    requires Good(s, overwrite) && Enabled(s, step, overwrite) && step.Insert?
    ensures var t := Next(s, step, overwrite);
            UniqueKeys(t.files) && RemovalsOfDead(t) && t.compared <= t.files.Keys
  {
    var t := Next(s, step, overwrite);
    forall x | x in s.files ensures s.files[x].key != step.row.key {
      assert s.files[x].key in RowKeys(s.files);
    }
    forall q | q in t.removals ensures DeadKey(t.files, t.removals[q]) {
      DeadKeyStays(s.files, t.files, t.removals[q]);
    }
  }

  lemma InsertKeepsGood(s: State, step: Step, overwrite: bool)
    requires Good(s, overwrite) && Enabled(s, step, overwrite) && step.Insert?
    ensures Good(Next(s, step, overwrite), overwrite)
  {
    InsertKeepsRows(s, step, overwrite);
    RowKeysAdd(s.files, step.id, step.row);
    assert s.confirms[step.p].key in s.objects;
  }

  /** Rows that keep their keys and sizes and never come back to life. */
  ghost predicate RowsOnlyDie(files: FileTable, more: FileTable) {
    && more.Keys == files.Keys
    && forall x :: x in files ==>
         more[x].key == files[x].key && more[x].size == files[x].size && (more[x].live ==> files[x].live)
  }

  lemma RowsDieKeepsGood(s: State, t: State, overwrite: bool)
    requires Good(s, overwrite) && RowsOnlyDie(s.files, t.files)
    requires t.objects == s.objects && t.confirms == s.confirms && t.compared == s.compared
    requires RemovalsOfDead(t)
    ensures Good(t, overwrite)
  {
  }

  lemma RowStepRemovals(s: State, step: Step, overwrite: bool)
    requires RemovalsOfDead(s) && Enabled(s, step, overwrite)
    requires step.Stamp? || step.StampMany? || step.Relocate?
    ensures RemovalsOfDead(Next(s, step, overwrite))
  {
    var t := Next(s, step, overwrite);
    forall q | q in t.removals ensures DeadKey(t.files, t.removals[q]) {
      if step.Stamp? && q == step.p {
        assert !t.files[step.x].live && t.files[step.x].key == t.removals[q];
      } else {
        DeadKeyStays(s.files, t.files, t.removals[q]);
      }
    }
  }

  lemma RowStepKeepsGood(s: State, step: Step, overwrite: bool)
    requires Good(s, overwrite) && Enabled(s, step, overwrite)
    requires step.Stamp? || step.StampMany? || step.Relocate?
    ensures Good(Next(s, step, overwrite), overwrite)
  {
    RowStepRemovals(s, step, overwrite);
    RowStepOnlyKills(s.files, step);
    RowsDieKeepsGood(s, Next(s, step, overwrite), overwrite);
  }

  lemma RowStepOnlyKills(files: FileTable, step: Step)
    requires FilesEnabled(files, step) && (step.Stamp? || step.StampMany? || step.Relocate?)
    ensures RowsOnlyDie(files, NextFiles(files, step))
  {
  }

  lemma RemoveKeepsGood(s: State, p: nat, overwrite: bool)
    requires Good(s, overwrite) && Enabled(s, RemoveObject(p), overwrite)
    ensures Good(Next(s, RemoveObject(p), overwrite), overwrite)
  {
  }

  lemma StepKeepsGood(s: State, step: Step, overwrite: bool)
    requires Good(s, overwrite) && Enabled(s, step, overwrite)
    ensures Good(Next(s, step, overwrite), overwrite)
  {
    match step
    case Insert(_, _, _) => InsertKeepsGood(s, step, overwrite);
    case Relocate(_, _, _) => RowStepKeepsGood(s, step, overwrite);
    case Stamp(_, _) => RowStepKeepsGood(s, step, overwrite);
    case StampMany(_) => RowStepKeepsGood(s, step, overwrite);
    case RemoveObject(p) => RemoveKeepsGood(s, p, overwrite);
    case _ =>
  }

  /** States and the steps between them. */
  ghost predicate IsExecution(states: seq<State>, steps: seq<Step>, overwrite: bool) {
    && |states| == |steps| + 1 && states[0] == START
    && forall j :: 0 <= j < |steps| ==> ExecutionStep(states, steps, j, overwrite)
  }

  ghost predicate ExecutionStep(states: seq<State>, steps: seq<Step>, j: nat, overwrite: bool)
    requires j < |steps| && |states| == |steps| + 1
  {
    Enabled(states[j], steps[j], overwrite) && states[j + 1] == Next(states[j], steps[j], overwrite)
  }

  lemma {:induction false} ExecutionIsGood(states: seq<State>, steps: seq<Step>, overwrite: bool, n: nat)
    requires IsExecution(states, steps, overwrite) && n < |states|
    ensures Good(states[n], overwrite)
  {
    if n == 0 {
    } else {
      ExecutionIsGood(states, steps, overwrite, n - 1);
      assert ExecutionStep(states, steps, n - 1, overwrite);
      StepKeepsGood(states[n - 1], steps[n - 1], overwrite);
    }
  }

  /**
   In every interleaving, every live file row has its object in storage; and if storage
   refuses a second PUT on an object, the compared sizes stay true as well.
   */
  lemma UploadsLeaveNoPhantom(states: seq<State>, steps: seq<Step>, overwrite: bool, n: nat)
    requires IsExecution(states, steps, overwrite) && n < |states|
    ensures NoPhantom(states[n])
    ensures !overwrite ==> SizesAgree(states[n])
  {
    ExecutionIsGood(states, steps, overwrite, n);
  }

  lemma {:induction false} RowStays(
    states: seq<State>, steps: seq<Step>, overwrite: bool, m: nat, n: nat, x: Id)
    requires IsExecution(states, steps, overwrite) && m <= n < |states| && x in states[m].files
    ensures x in states[n].files && states[n].files[x].key == states[m].files[x].key
    ensures !states[m].files[x].live ==> !states[n].files[x].live
  {
    if m == n {
    } else {
      RowStays(states, steps, overwrite, m, n - 1, x);
      assert ExecutionStep(states, steps, n - 1, overwrite);
    }
  }

  /** Why: a key that ever had a row belongs to that row for ever, even after its deletion. */
  lemma KeyUsedOnce(
    states: seq<State>, steps: seq<Step>, overwrite: bool, m: nat, n: nat, x: Id, y: Id)
    requires IsExecution(states, steps, overwrite) && m <= n < |states|
    requires x in states[m].files && y in states[n].files && states[m].files[x].key == states[n].files[y].key
    ensures x == y
  {
    RowStays(states, steps, overwrite, m, n, x);
    ExecutionIsGood(states, steps, overwrite, n);
  }

  // ---- runs from any state ----

  /** The state after the steps, or None if one of them is not enabled when its turn comes. */
  ghost function Run(s: State, steps: seq<Step>, overwrite: bool): Option<State>
    decreases steps
  {
    if steps == [] then Some(s)
    else if !Enabled(s, steps[0], overwrite) then None
    else Run(Next(s, steps[0], overwrite), steps[1..], overwrite)
  }

  lemma {:induction false} RunConcat(s: State, a: seq<Step>, b: seq<Step>, overwrite: bool)
    ensures var first := Run(s, a, overwrite);
            Run(s, a + b, overwrite) == if first.Some? then Run(first.value, b, overwrite) else None
    decreases a
  {
    if a == [] {
      assert a + b == b;
    } else {
      assert (a + b)[1..] == a[1..] + b;
      if Enabled(s, a[0], overwrite) {
        RunConcat(Next(s, a[0], overwrite), a[1..], b, overwrite);
      }
    }
  }

  lemma RunOne(s: State, step: Step, overwrite: bool)
    ensures Run(s, [step], overwrite) == if Enabled(s, step, overwrite) then Some(Next(s, step, overwrite)) else None
  {
  }

  lemma RunTwo(s: State, a: Step, b: Step, overwrite: bool)
    requires Enabled(s, a, overwrite) && Enabled(Next(s, a, overwrite), b, overwrite)
    ensures Run(s, [a, b], overwrite) == Some(Next(Next(s, a, overwrite), b, overwrite))
  {
    RunOne(s, a, overwrite);
    RunOne(Next(s, a, overwrite), b, overwrite);
    RunConcat(s, [a], [b], overwrite);
    assert [a] + [b] == [a, b];
  }

  /** A run that starts where an execution ends makes that execution longer. */
  lemma {:induction false} RunExtends(
    states: seq<State>, steps: seq<Step>, more: seq<Step>, overwrite: bool) returns (longer: seq<State>)
    requires IsExecution(states, steps, overwrite) && Run(states[|states| - 1], more, overwrite).Some?
    ensures IsExecution(longer, steps + more, overwrite)
    ensures longer[|longer| - 1] == Run(states[|states| - 1], more, overwrite).value
    decreases more
  {
    if more == [] {
      longer := states;
      assert steps + more == steps;
    } else {
      Extend(states, steps, more[0], overwrite);
      var next := Next(states[|states| - 1], more[0], overwrite);
      longer := RunExtends(states + [next], steps + [more[0]], more[1..], overwrite);
      assert steps + [more[0]] + more[1..] == steps + more;
    }
  }

  lemma Extend(states: seq<State>, steps: seq<Step>, step: Step, overwrite: bool)
    requires IsExecution(states, steps, overwrite) && Enabled(states[|states| - 1], step, overwrite)
    ensures IsExecution(states + [Next(states[|states| - 1], step, overwrite)], steps + [step], overwrite)
  {
    var more, all := states + [Next(states[|states| - 1], step, overwrite)], steps + [step];
    forall j | 0 <= j < |all| ensures ExecutionStep(more, all, j, overwrite) {
      if j < |steps| {
        assert ExecutionStep(states, steps, j, overwrite);
      }
    }
  }

  lemma {:induction false} RunKeepsGood(s: State, steps: seq<Step>, overwrite: bool)
    requires Good(s, overwrite) && Run(s, steps, overwrite).Some?
    ensures Good(Run(s, steps, overwrite).value, overwrite)
    decreases steps
  {
    if steps == [] {
    } else {
      StepKeepsGood(s, steps[0], overwrite);
      RunKeepsGood(Next(s, steps[0], overwrite), steps[1..], overwrite);
    }
  }

  // ---- undisturbed uploads ----

  function UploadSteps(p: nat, id: Id, row: File, reported: bool): seq<Step> {
    [IssueKey(row.key), Put(row.key, row.size)] + ConfirmSteps(p, id, row, reported)
  }

  function ConfirmSteps(p: nat, id: Id, row: File, reported: bool): seq<Step> {
    [HeadCheck(p, Checked(row.key, row.size, reported)), Insert(p, id, row)]
  }

  lemma ConfirmRuns(s: State, p: nat, id: Id, row: File, reported: bool, overwrite: bool)
    requires p !in s.confirms && id !in s.files && row.live && row.key !in RowKeys(s.files)
    requires row.key in s.objects && (reported ==> s.objects[row.key] == row.size)
    ensures Run(s, ConfirmSteps(p, id, row, reported), overwrite)
            == Some(s.(files := s.files[id := row], compared := s.compared + if reported then {id} else {}))
  {
    var check := HeadCheck(p, Checked(row.key, row.size, reported));
    RunTwo(s, check, Insert(p, id, row), overwrite);
    assert Next(s, check, overwrite).confirms - {p} == s.confirms;
  }

  /**
   An undisturbed upload goes through all four steps. It leaves one new live row, its object
   and a used key, and nothing else, whether storage overwrites or not.
   */
  lemma UploadCompletes(s: State, p: nat, id: Id, row: File, reported: bool, overwrite: bool)
    requires p !in s.confirms && id !in s.files && row.live
    requires row.key !in s.issued && row.key !in s.objects && row.key !in RowKeys(s.files)
    ensures Run(s, UploadSteps(p, id, row, reported), overwrite)
            == Some(s.(issued := s.issued + {row.key}, objects := s.objects[row.key := row.size],
                       files := s.files[id := row],
                       compared := s.compared + if reported then {id} else {}))
  {
    var put := s.(issued := s.issued + {row.key}, objects := s.objects[row.key := row.size]);
    RunTwo(s, IssueKey(row.key), Put(row.key, row.size), overwrite);
    ConfirmRuns(put, p, id, row, reported, overwrite);
    RunConcat(s, [IssueKey(row.key), Put(row.key, row.size)], ConfirmSteps(p, id, row, reported), overwrite);
  }

  /** With a storage that overwrites, a second PUT after confirm makes the sizes disagree. */
  lemma OverwriteBreaksSizes() returns (states: seq<State>, steps: seq<Step>)
    ensures IsExecution(states, steps, true)
    ensures !SizesAgree(states[|states| - 1])
  {
    var id: Id := "a";
    var row := File("b", None, "n", 1, "k", true);
    steps := UploadSteps(0, id, row, true);
    UploadCompletes(START, 0, id, row, true, true);
    states := RunExtends([START], [], steps, true);
    assert [] + steps == steps;
    var uploaded := states[|states| - 1];
    RunOne(uploaded, Put("k", 2), true);
    states := RunExtends(states, steps, [Put("k", 2)], true);
    steps := steps + [Put("k", 2)];
    var last := states[|states| - 1];
    assert LiveFile(last.files, id) && id in last.compared && last.objects["k"] == 2;
  }

  // ---- deletes of one file ----

  /** The outcome of a delete: the row is stamped and its object is gone. */
  function Deleted(s: State, x: Id): State
    requires x in s.files
  {
    s.(files := s.files[x := s.files[x].(live := false)], objects := s.objects - {s.files[x].key})
  }

  /** An undisturbed delete goes through and changes nothing but the row's life and its object. */
  lemma DeleteCompletes(s: State, p: nat, x: Id, overwrite: bool)
    requires p !in s.deletes && p !in s.removals && LiveFile(s.files, x)
    ensures Run(s, [ReadForDelete(p, x), Stamp(p, x), RemoveObject(p)], overwrite) == Some(Deleted(s, x))
  {
    var stamped := ReadAndStamp(s, p, x, overwrite);
    RunOne(stamped, RemoveObject(p), overwrite);
    RunConcat(s, [ReadForDelete(p, x), Stamp(p, x)], [RemoveObject(p)], overwrite);
    assert stamped.removals - {p} == s.removals;
  }

  lemma ReadAndStamp(s: State, p: nat, x: Id, overwrite: bool) returns (t: State)
    requires p !in s.deletes && p !in s.removals && LiveFile(s.files, x)
    ensures t == s.(files := s.files[x := s.files[x].(live := false)],
                    removals := s.removals[p := s.files[x].key])
    ensures Run(s, [ReadForDelete(p, x), Stamp(p, x)], overwrite) == Some(t)
  {
    var read := Next(s, ReadForDelete(p, x), overwrite);
    RunTwo(s, ReadForDelete(p, x), Stamp(p, x), overwrite);
    t := Next(read, Stamp(p, x), overwrite);
    assert read.deletes - {p} == s.deletes;
  }

  /** Steps of deletes of x, each by some process of ps. */
  predicate IsDeleteStep(step: Step, ps: set<nat>, x: Id) {
    match step
    case ReadForDelete(p, y) => p in ps && y == x
    case Stamp(p, y) => p in ps && y == x
    case RemoveObject(p) => p in ps
    case _ => false
  }

  predicate Idle(s: State, ps: set<nat>) {
    forall p :: p in ps ==> p !in s.deletes && p !in s.removals
  }

  /** What deletes of x by ps, which began in s, may have reached. */
  ghost predicate Deleting(s: State, t: State, ps: set<nat>, x: Id)
    requires x in s.files
  {
    && t == s.(files := t.files, objects := t.objects, deletes := t.deletes, removals := t.removals)
    && t.deletes - ps == s.deletes && t.removals - ps == s.removals
    && (forall p :: p in t.deletes && p in ps ==> t.deletes[p] == x)
    && (forall p :: p in t.removals && p in ps ==> t.removals[p] == s.files[x].key)
    && if t.files == s.files then
         t.objects == s.objects && (forall p :: p in ps ==> p !in t.removals)
       else
         && t.files == Deleted(s, x).files
         && (t.objects == Deleted(s, x).objects || (t.objects == s.objects && exists p :: p in ps && p in t.removals))
  }

  lemma WithoutOurs<T>(m: map<nat, T>, ps: set<nat>, p: nat, v: T)
    requires p in ps
    ensures m[p := v] - ps == m - ps && (m - {p}) - ps == m - ps
  {
  }

  lemma NoneOfOurs<T>(m: map<nat, T>, ps: set<nat>)
    requires forall p :: p in ps ==> p !in m
    ensures m - ps == m
  {
  }

  lemma DeletingStep(s: State, t: State, step: Step, ps: set<nat>, x: Id, overwrite: bool)
    requires LiveFile(s.files, x) && Deleting(s, t, ps, x)
    requires IsDeleteStep(step, ps, x) && Enabled(t, step, overwrite)
    ensures Deleting(s, Next(t, step, overwrite), ps, x)
    ensures Idle(Next(t, step, overwrite), ps) ==> Next(t, step, overwrite).files != s.files
  {
    match step
    case ReadForDelete(p, _) => ReadDeleting(s, t, p, ps, x, overwrite);
    case Stamp(p, _) => StampDeleting(s, t, p, ps, x, overwrite);
    case RemoveObject(p) => RemoveDeleting(s, t, p, ps, x, overwrite);
  }

  lemma ReadDeleting(s: State, t: State, p: nat, ps: set<nat>, x: Id, overwrite: bool)
    requires LiveFile(s.files, x) && Deleting(s, t, ps, x)
    requires p in ps && Enabled(t, ReadForDelete(p, x), overwrite)
    ensures var u := Next(t, ReadForDelete(p, x), overwrite);
            Deleting(s, u, ps, x) && !Idle(u, ps)
  {
    WithoutOurs(t.deletes, ps, p, x);
  }

  lemma StampDeleting(s: State, t: State, p: nat, ps: set<nat>, x: Id, overwrite: bool)
    requires LiveFile(s.files, x) && Deleting(s, t, ps, x)
    requires p in ps && Enabled(t, Stamp(p, x), overwrite)
    ensures var u := Next(t, Stamp(p, x), overwrite);
            Deleting(s, u, ps, x) && u.files != s.files
  {
    var u := Next(t, Stamp(p, x), overwrite);
    WithoutOurs(t.deletes, ps, p, x);
    WithoutOurs(t.removals, ps, p, t.files[x].key);
    assert !u.files[x].live && u.files == Deleted(s, x).files;
    assert p in ps && p in u.removals;
  }

  lemma RemoveDeleting(s: State, t: State, p: nat, ps: set<nat>, x: Id, overwrite: bool)
    requires LiveFile(s.files, x) && Deleting(s, t, ps, x)
    requires p in ps && Enabled(t, RemoveObject(p), overwrite)
    ensures var u := Next(t, RemoveObject(p), overwrite);
            Deleting(s, u, ps, x) && u.files != s.files
  {
    var u := Next(t, RemoveObject(p), overwrite);
    WithoutOurs(t.removals, ps, p, "");
    assert t.files != s.files;
    assert u.objects == Deleted(s, x).objects;
  }

  lemma {:induction false} DeletingRun(s: State, t: State, steps: seq<Step>, ps: set<nat>, x: Id, overwrite: bool)
    requires LiveFile(s.files, x) && Deleting(s, t, ps, x)
    requires (forall k :: 0 <= k < |steps| ==> IsDeleteStep(steps[k], ps, x)) && Run(t, steps, overwrite).Some?
    ensures var u := Run(t, steps, overwrite).value;
            Deleting(s, u, ps, x) && (steps != [] && Idle(u, ps) ==> u.files != s.files)
    decreases steps
  {
    if steps == [] {
    } else {
      DeletingStep(s, t, steps[0], ps, x, overwrite);
      DeletingRun(s, Next(t, steps[0], overwrite), steps[1..], ps, x, overwrite);
    }
  }

  /**
   However many deletes of one file run, and in whatever interleaving: once all of them are
   through, the outcome is that of one delete.
   */
  lemma DeletesAreOne(s: State, steps: seq<Step>, ps: set<nat>, x: Id, overwrite: bool)
    requires LiveFile(s.files, x) && Idle(s, ps)
    requires steps != [] && forall k :: 0 <= k < |steps| ==> IsDeleteStep(steps[k], ps, x)
    ensures var run := Run(s, steps, overwrite);
            run.Some? && Idle(run.value, ps) ==> run.value == Deleted(s, x)
  {
    var run := Run(s, steps, overwrite);
    if run.Some? && Idle(run.value, ps) {
      NoneOfOurs(s.deletes, ps);
      NoneOfOurs(s.removals, ps);
      DeletingRun(s, s, steps, ps, x, overwrite);
      NoneOfOurs(run.value.deletes, ps);
      NoneOfOurs(run.value.removals, ps);
    }
  }

  /**
   Two deletes that both read the row before either stamps it: every step goes through, the
   second UPDATE touches nothing, and the outcome is that of one delete.
   */
  lemma DoubleDelete(s: State, p: nat, q: nat, x: Id, overwrite: bool)
    requires p != q && Idle(s, {p, q}) && LiveFile(s.files, x)
    ensures Run(s, [ReadForDelete(p, x), ReadForDelete(q, x)] + [Stamp(p, x), Stamp(q, x)]
                   + [RemoveObject(p), RemoveObject(q)], overwrite) == Some(Deleted(s, x))
  {
    var read := ReadTwice(s, p, q, x, overwrite);
    var stamped := StampTwice(read, p, q, x, overwrite);
    RemoveTwice(stamped, p, q, overwrite);
    RunConcat(s, [ReadForDelete(p, x), ReadForDelete(q, x)], [Stamp(p, x), Stamp(q, x)], overwrite);
    RunConcat(s, [ReadForDelete(p, x), ReadForDelete(q, x)] + [Stamp(p, x), Stamp(q, x)],
              [RemoveObject(p), RemoveObject(q)], overwrite);
    assert read.deletes - {p, q} == s.deletes && stamped.removals - {p, q} == s.removals;
  }

  lemma ReadTwice(s: State, p: nat, q: nat, x: Id, overwrite: bool) returns (t: State)
    requires p != q && Idle(s, {p, q}) && LiveFile(s.files, x)
    ensures t == s.(deletes := s.deletes[p := x][q := x])
    ensures Run(s, [ReadForDelete(p, x), ReadForDelete(q, x)], overwrite) == Some(t)
  {
    var once := Next(s, ReadForDelete(p, x), overwrite);
    t := Next(once, ReadForDelete(q, x), overwrite);
    RunTwo(s, ReadForDelete(p, x), ReadForDelete(q, x), overwrite);
  }

  lemma StampTwice(s: State, p: nat, q: nat, x: Id, overwrite: bool) returns (t: State)
    requires p != q && p !in s.removals && q !in s.removals && x in s.files
    requires p in s.deletes && q in s.deletes && s.deletes[p] == s.deletes[q] == x
    ensures t == s.(files := s.files[x := s.files[x].(live := false)], deletes := s.deletes - {p, q},
                    removals := s.removals[p := s.files[x].key][q := s.files[x].key])
    ensures Run(s, [Stamp(p, x), Stamp(q, x)], overwrite) == Some(t)
  {
    var once := Next(s, Stamp(p, x), overwrite);
    t := Next(once, Stamp(q, x), overwrite);
    RunTwo(s, Stamp(p, x), Stamp(q, x), overwrite);
    assert t.files == once.files && t.deletes == s.deletes - {p, q};
  }

  lemma RemoveTwice(s: State, p: nat, q: nat, overwrite: bool)
    requires p != q && p in s.removals && q in s.removals && s.removals[p] == s.removals[q]
    ensures Run(s, [RemoveObject(p), RemoveObject(q)], overwrite)
            == Some(s.(objects := s.objects - {s.removals[p]}, removals := s.removals - {p, q}))
  {
    var once := Next(s, RemoveObject(p), overwrite);
    RunTwo(s, RemoveObject(p), RemoveObject(q), overwrite);
    assert once.objects - {s.removals[q]} == once.objects && once.removals - {q} == s.removals - {p, q};
  }

  // ---- the requests of the store take these steps ----

  /** The rows that a folder or room delete stamps. */
  ghost function NewlyDead(files: FileTable, more: FileTable): set<Id> {
    set x | x in files && x in more && files[x].live && !more[x].live
  }

  /** The step that takes the file rows from `files` to `more` when `r` is served. */
  ghost function FileStepOf(files: FileTable, more: FileTable, r: Request, p: nat): Step {
    if more == files then StampMany({})
    else
      match r
      case Confirm(_, _, id) => if id in more then Insert(p, id, more[id]) else StampMany({})
      case RenameFile(x, _) => if x in more then Relocate(x, more[x].folder, more[x].name) else StampMany({})
      case MoveFile(x, _) => if x in more then Relocate(x, more[x].folder, more[x].name) else StampMany({})
      case DeleteFile(x) => Stamp(p, x)
      case _ => StampMany(NewlyDead(files, more))
  }

  lemma DyingRows(files: FileTable, more: FileTable)
    requires more.Keys == files.Keys
    requires forall x :: x in files ==> more[x] == files[x] || (files[x].live && more[x] == files[x].(live := false))
    ensures more == NextFiles(files, StampMany(NewlyDead(files, more)))
    ensures more == files ==> more == NextFiles(files, StampMany({}))
  {
  }

  lemma DeletesStampMany(t: Snapshot, r: Request, p: nat)
    requires Inv(t) && (r.DeleteFolder? || r.DeleteRoom?)
    ensures Apply(t, r).files == NextFiles(t.files, FileStepOf(t.files, Apply(t, r).files, r, p))
  {
    var more := Apply(t, r).files;
    forall x | x in t.files
      ensures x in more && (more[x] == t.files[x] || (t.files[x].live && more[x] == t.files[x].(live := false)))
    {
    }
    DyingRows(t.files, more);
  }

  /** Whatever a request does to the file rows is one step of this protocol. */
  lemma RequestsTakeFileSteps(t: Snapshot, r: Request, p: nat)
    requires Inv(t) && Admissible(t, r)
    ensures var more := Apply(t, r).files;
            && FilesEnabled(t.files, FileStepOf(t.files, more, r, p))
            && more == NextFiles(t.files, FileStepOf(t.files, more, r, p))
  {
    if r.DeleteFolder? || r.DeleteRoom? {
      DeletesStampMany(t, r, p);
    } else if r.Confirm? || r.RenameFile? || r.MoveFile? || r.DeleteFile? {
      FileRequests(t, r, p);
    } else {
      TablesLeftAlone(t, r);
      DyingRows(t.files, t.files);
    }
  }

  lemma FileRequests(t: Snapshot, r: Request, p: nat)
    requires Inv(t) && Admissible(t, r) && (r.Confirm? || r.RenameFile? || r.MoveFile? || r.DeleteFile?)
    ensures var more := Apply(t, r).files;
            && FilesEnabled(t.files, FileStepOf(t.files, more, r, p))
            && more == NextFiles(t.files, FileStepOf(t.files, more, r, p))
  {
    DyingRows(t.files, t.files);
    match r
    case Confirm(u, stored, id) =>
      ConfirmIsInsert(t, u, stored, id, p);
    case RenameFile(x, name) =>
      RelocatesOne(t, x, Steps.RenameFile(t, x, name).rows.files);
    case MoveFile(x, folder) =>
      RelocatesOne(t, x, Steps.MoveFile(t, x, folder).rows.files);
    case DeleteFile(x) =>
  }

  lemma RelocatesOne(t: Snapshot, x: Id, more: FileTable)
    requires more == t.files
             || (x in t.files && exists folder, name :: more == t.files[x := t.files[x].(folder := folder, name := name)])
    ensures more == t.files
            || (x in t.files && x in more && more == NextFiles(t.files, Relocate(x, more[x].folder, more[x].name)))
  {
  }

  lemma ConfirmIsInsert(t: Snapshot, u: Steps.Upload, stored: Steps.Head, id: Id, p: nat)
    requires Unused(t, id)
    ensures var files := Steps.Confirm(t, u, stored, id).rows.files;
            files == t.files
            || (id in files && files == t.files[id := files[id]] && FilesEnabled(t.files, Insert(p, id, files[id])))
  {
  }

  /** What head reports is what storage holds; the size may be missing from the report. */
  predicate Reports(objects: map<string, nat>, key: string, stored: Steps.Head) {
    match stored
    case None => key !in objects
    case Some(size) => key in objects && (size.Some? ==> size.value == objects[key])
  }

  /**
   A confirm that the service accepts is a head check and an insert of its own key and size,
   both enabled, and they leave its file rows.
   */
  lemma ConfirmInserts(
    t: Snapshot, u: Steps.Upload, stored: Steps.Head, id: Id, s: State, p: nat, overwrite: bool)
    requires Unused(t, id) && Steps.Confirm(t, u, stored, id).result.Ok?
    requires s.files == t.files && p !in s.confirms && Reports(s.objects, u.key, stored)
    ensures var more := Steps.Confirm(t, u, stored, id).rows.files;
            && id in more && more[id].key == u.key && more[id].size == u.size && more[id].live
            && stored.Some? && Run(s, ConfirmSteps(p, id, more[id], stored.value.Some?), overwrite)
               == Some(s.(files := more, compared := s.compared + if stored.value.Some? then {id} else {}))
  {
    var more := Steps.Confirm(t, u, stored, id).rows.files;
    assert more == t.files[id := more[id]];
    ConfirmRuns(s, p, id, more[id], stored.value.Some?, overwrite);
  }

  /** The steps that the service takes on the file rows while it serves `r`. */
  ghost function StepsOf(files: FileTable, more: FileTable, r: Request, p: nat): seq<Step> {
    if more == files then []
    else
      match r
      case Confirm(_, stored, id) =>
        if id in more then ConfirmSteps(p, id, more[id], stored.Some? && stored.value.Some?) else []
      case DeleteFile(x) => [ReadForDelete(p, x), Stamp(p, x)]
      case _ => [FileStepOf(files, more, r, p)]
  }

  /**
   Every request the service serves is a run of this protocol, from any state with the same
   file rows and honest reports; it leaves the service's file rows and touches no object. So
   if every live row had its object before, every live row has it afterwards.
   */
  lemma RequestsRun(t: Snapshot, r: Request, s: State, p: nat, overwrite: bool)
    requires Inv(t) && Admissible(t, r) && s.files == t.files
    requires p !in s.confirms && p !in s.deletes && p !in s.removals
    requires r.Confirm? ==> Reports(s.objects, r.upload.key, r.stored)
    ensures var more := Apply(t, r).files;
            var run := Run(s, StepsOf(t.files, more, r, p), overwrite);
            && run.Some? && run.value.files == more
            && run.value == s.(files := more, compared := run.value.compared, removals := run.value.removals)
            && run.value.removals == (if r.DeleteFile? && LiveFile(t.files, r.x)
                                      then s.removals[p := t.files[r.x].key] else s.removals)
            && (Good(s, overwrite) ==> Good(run.value, overwrite) && NoPhantom(run.value))
  {
    var more := Apply(t, r).files;
    var steps := StepsOf(t.files, more, r, p);
    if r.Confirm? {
      ConfirmRequestRuns(t, r, s, p, overwrite);
    } else if r.DeleteFile? {
      if more != t.files {
        var stamped := ReadAndStamp(s, p, r.x, overwrite);
      }
    } else {
      RequestsTakeFileSteps(t, r, p);
      RowStepRuns(s, FileStepOf(t.files, more, r, p), overwrite);
    }
    if Good(s, overwrite) {
      RunKeepsGood(s, steps, overwrite);
    }
  }

  lemma RowStepRuns(s: State, step: Step, overwrite: bool)
    requires (step.Relocate? || step.StampMany?) && FilesEnabled(s.files, step)
    ensures Run(s, [step], overwrite) == Some(s.(files := NextFiles(s.files, step)))
  {
    RunOne(s, step, overwrite);
  }

  lemma ConfirmRequestRuns(t: Snapshot, r: Request, s: State, p: nat, overwrite: bool)
    requires Inv(t) && Admissible(t, r) && s.files == t.files && r.Confirm?
    requires p !in s.confirms && Reports(s.objects, r.upload.key, r.stored)
    ensures var more := Apply(t, r).files;
            var run := Run(s, StepsOf(t.files, more, r, p), overwrite);
            run.Some? && run.value == s.(files := more, compared := run.value.compared)
  {
    if Steps.Confirm(t, r.upload, r.stored, r.id).result.Ok? {
      ConfirmInserts(t, r.upload, r.stored, r.id, s, p, overwrite);
    }
  }
}
