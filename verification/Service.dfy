/**
 The service and its storage together: requests served one after the other, with clients
 putting objects and removals going through, or failing, at any time in between.
 */
module Service {
  import opened Base
  import opened Tables
  import opened Integrity
  import opened Histories
  import opened Upload
  import AccessLaws
  import DataRoomsService
  import FoldersService
  import FilesService

  /** One request served by the service itself does to the tables what `Apply` says of it. */
  method Handle(db: Database, r: Request)
    requires Inv(db.Rows()) && Admissible(db.Rows(), r)
    modifies db
    ensures db.Rows() == Apply(old(db.Rows()), r)
    ensures Inv(db.Rows())
  {
    ApplyKeepsInv(db.Rows(), r);
    match r
    case CreateRoom(owner, id) =>
      var answer := DataRoomsService.Create(db, owner, id);
    case DeleteRoom(room) =>
      var answer := DataRoomsService.SoftDelete(db, room);
    case CreateFolder(room, parent, name, id) =>
      var answer := FoldersService.Create(db, room, parent, name, id);
    case RenameFolder(f, name) =>
      var answer := FoldersService.Rename(db, f, name);
    case MoveFolder(f, target) =>
      var answer := FoldersService.Move(db, f, target);
    case DeleteFolder(f) =>
      var answer := FoldersService.SoftDelete(db, f);
    case Confirm(u, stored, id) =>
      var answer := FilesService.Confirm(db, u, stored, id);
    case RenameFile(x, name) =>
      var answer := FilesService.Rename(db, x, name);
    case MoveFile(x, folder) =>
      var answer := FilesService.Move(db, x, folder);
    case DeleteFile(x) =>
      var answer, remove := FilesService.SoftDelete(db, x);
    case Grant(share, id) =>
      db.shares := db.shares[id := share];
    case Revoke(s, actor, now) =>
      var answer := AccessLaws.Revoke(db, actor, s, now);
  }

  datatype World = World(rows: Snapshot, handshake: State)

  /** `p` identifies the process that serves the request. */
  datatype Event = Serve(r: Request, p: nat) | Elsewhere(step: Step)

  predicate LeavesRows(step: Step) {
    step.IssueKey? || step.Put? || step.RemoveObject? || step.RemoveFails?
  }

  predicate Free(s: State, p: nat) {
    p !in s.confirms && p !in s.deletes && p !in s.removals
  }

  /** A request may be served: fresh ids, a process of its own, and a head report that is true. */
  ghost predicate Servable(w: World, r: Request, p: nat) {
    && Admissible(w.rows, r) && Free(w.handshake, p)
    && (r.Confirm? ==> Reports(w.handshake.objects, r.upload.key, r.stored))
  }

  /** Serving a request runs its steps of the handshake; `Apply` asks for the invariant, which always holds. */
  ghost predicate Happens(w: World, e: Event, v: World, overwrite: bool) {
    match e
    case Serve(r, p) =>
      Inv(w.rows) ==>
        && Servable(w, r, p) && v.rows == Apply(w.rows, r)
        && Run(w.handshake, StepsOf(w.rows.files, v.rows.files, r, p), overwrite) == Some(v.handshake)
    case Elsewhere(step) =>
      && LeavesRows(step) && Enabled(w.handshake, step, overwrite)
      && v == w.(handshake := Next(w.handshake, step, overwrite))
  }

  ghost predicate EventAt(worlds: seq<World>, events: seq<Event>, j: nat, overwrite: bool)
    requires j < |events| && |worlds| == |events| + 1
  {
    Happens(worlds[j], events[j], worlds[j + 1], overwrite)
  }

  ghost predicate IsRun(worlds: seq<World>, events: seq<Event>, overwrite: bool) {
    && |worlds| == |events| + 1 && worlds[0] == World(EMPTY, START)
    && forall j :: 0 <= j < |events| ==> EventAt(worlds, events, j, overwrite)
  }

  ghost predicate Sound(w: World, overwrite: bool) {
    Inv(w.rows) && Good(w.handshake, overwrite) && w.handshake.files == w.rows.files
  }

  lemma EventKeepsSound(w: World, e: Event, v: World, overwrite: bool)
    requires Sound(w, overwrite) && Happens(w, e, v, overwrite)
    ensures Sound(v, overwrite)
  {
    match e
    case Serve(r, p) =>
      ApplyKeepsInv(w.rows, r);
      RequestsRun(w.rows, r, w.handshake, p, overwrite);
    case Elsewhere(step) =>
      StepKeepsGood(w.handshake, step, overwrite);
  }

  lemma {:induction false} RunsAreSound(worlds: seq<World>, events: seq<Event>, overwrite: bool, n: nat)
    requires IsRun(worlds, events, overwrite) && n < |worlds|
    ensures Sound(worlds[n], overwrite)
  {
    if n == 0 {
    } else {
      RunsAreSound(worlds, events, overwrite, n - 1);
      assert EventAt(worlds, events, n - 1, overwrite);
      EventKeepsSound(worlds[n - 1], events[n - 1], worlds[n], overwrite);
    }
  }

  /**
   At every moment of every run, each live file row of the store has its object in storage,
   and if storage refuses a second PUT, each size that confirm compared is the object's size.
   */
  lemma LiveFilesHaveObjects(worlds: seq<World>, events: seq<Event>, overwrite: bool, n: nat, x: Id)
    requires IsRun(worlds, events, overwrite) && n < |worlds| && LiveFile(worlds[n].rows.files, x)
    ensures var file, s := worlds[n].rows.files[x], worlds[n].handshake;
            file.key in s.objects && (!overwrite && x in s.compared ==> s.objects[file.key] == file.size)
  {
    RunsAreSound(worlds, events, overwrite, n);
  }

  /** No request gets stuck: whatever may be served is served, by steps that are all enabled. */
  lemma RequestsAreServed(w: World, r: Request, p: nat, overwrite: bool) returns (v: World)
    requires Sound(w, overwrite) && Servable(w, r, p)
    ensures Happens(w, Serve(r, p), v, overwrite) && v.rows == Apply(w.rows, r)
  {
    var more := Apply(w.rows, r).files;
    RequestsRun(w.rows, r, w.handshake, p, overwrite);
    v := World(Apply(w.rows, r), Run(w.handshake, StepsOf(w.rows.files, more, r, p), overwrite).value);
  }
}
