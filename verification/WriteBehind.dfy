/** The server and its disk thread, interleaved in any way and stopped at any moment. */
module WriteBehind {
  import opened UserPersistence
  import opened Notification
  import opened ClientMessageHandler
  import opened DiskRecord
  import opened UserDirectory
  import opened DiskStore
  import opened ServerRun
  import opened DiskHistory
  import opened RestartCondition
  import ServerInvariant
  import ShutdownLoop

  /** How far the snapshot in hand is: not begun; its file opened and so emptied, for a user who is new or not; the file
      of a new user written, but not their directory line. */
  datatype Stage = Between | Opened(added: bool) | Unlisted

  datatype System = System(
    server: Server, events: seq<Event>, loop: ShutdownLoop.Loop<PersistentData>, disk: Disk, stage: Stage)

  datatype Move = Datagram(event: Event) | Stop | DiskWork

  predicate Allowed(s: System, m: Move) {
    match m
    case Datagram(_) => !s.loop.flag
    case Stop => true
    case DiskWork => !s.loop.worker.Exited?
  }

  function Pushed(loop: ShutdownLoop.Loop<PersistentData>, items: seq<PersistentData>): ShutdownLoop.Loop<PersistentData> {
    loop.(queue := loop.queue + items, pushed := loop.pushed + items)
  }

  /** The main thread handles a datagram, and pushes the snapshots it gives rise to. */
  function DatagramStep(s: System, e: Event): System
    requires ServerInvariant.Inv(s.server)
  {
    var server := Handle(s.server, e).0;
    var before := |s.server.users.queued|;
    var items := if before <= |server.users.queued| then server.users.queued[before..] else [];
    s.(server := server, events := s.events + [e], loop := Pushed(s.loop, items))
  }

  /** The disk thread opens a file, makes one write, or makes another step of its loop. */
  function DiskStep(s: System): System {
    if s.loop.worker.Working? && s.loop.worker.rest != [] then
      var data, files, next := s.loop.worker.rest[0], s.disk.files, ShutdownLoop.WorkStep(s.loop);
      match s.stage
      case Between =>
        var added := data.username !in s.disk.known;
        var disk := Disk(Emptied(files, data.username), Noted(s.disk.known, data.username));
        if files.place(data.username).None? then s.(disk := disk, loop := next)
        else s.(disk := disk, stage := Opened(added))
      case Opened(added) =>
        var written := s.(disk := s.disk.(files := Written(files, data)));
        if added then written.(stage := Unlisted) else written.(loop := next, stage := Between)
      case Unlisted =>
        s.(disk := s.disk.(files := Listed(files, data.username)), loop := next, stage := Between)
    else s.(loop := ShutdownLoop.WorkStep(s.loop))
  }

  function Noted(known: seq<string>, name: string): seq<string> {
    if name in known then known else known + [name]
  }

  ghost function Step(s: System, m: Move): System
    requires ServerInvariant.Inv(s.server)
  {
    match m
    case Datagram(e) => DatagramStep(s, e)
    case Stop => s.(loop := s.loop.(flag := true))
    case DiskWork => DiskStep(s)
  }

  /** The disk holds what the finished snapshots make of it, and what has been done for the one in hand. */
  ghost predicate DiskIs(s: System, disk0: Disk) {
    var disk := DiskAfter(disk0, s.loop.done);
    if s.stage.Between? then s.disk == disk
    else
      && s.loop.worker.Working? && s.loop.worker.rest != []
      && var data := s.loop.worker.rest[0];
         && disk.files.place(data.username).Some?
         && s.disk.known == Noted(disk.known, data.username)
         && match s.stage
            case Opened(added) =>
              added == (data.username !in disk.known) && s.disk.files == Emptied(disk.files, data.username)
            case _ => data.username !in disk.known && s.disk.files == Written(disk.files, data)
  }

  ghost predicate Inv(s: System, s0: Server, disk0: Disk) {
    && StartedFrom(s0, disk0) && ServerInvariant.Inv(s0)
    && s.server == StateAfter(s0, s.events)
    && s.loop.pushed == s.server.users.queued
    && ShutdownLoop.Inv(s.loop)
    && DiskIs(s, disk0)
  }

  lemma DatagramKeeps(s: System, s0: Server, disk0: Disk, e: Event)
    requires Inv(s, s0, disk0) && !s.loop.flag
    ensures ServerInvariant.Inv(s.server) && Inv(DatagramStep(s, e), s0, disk0)
  {
    hide ServerInvariant.Inv, Saves, Handle, Represents, Restarted, DiskAfter;
    var saved0 := Loaded(disk0.files);
    QueueSavesRun(s0, s.events, saved0);
    HandleSaves(s.server, e, SavedAfter(saved0, s.server.users.queued));
    var events := s.events + [e];
    assert events[..|events| - 1] == s.events;
    var s' := DatagramStep(s, e);
    assert s'.loop.pushed == s'.server.users.queued;
    LoopPushed(s.loop, s'.server.users.queued[|s.server.users.queued|..]);
  }

  lemma LoopPushed(loop: ShutdownLoop.Loop<PersistentData>, items: seq<PersistentData>)
    requires ShutdownLoop.Inv(loop) && !loop.flag
    ensures ShutdownLoop.Inv(Pushed(loop, items))
  {
    var hand := ShutdownLoop.InHand(loop.worker);
    assert loop.done + hand + loop.queue + items == loop.done + hand + (loop.queue + items);
  }

  lemma DiskKeeps(s: System, s0: Server, disk0: Disk)
    requires Inv(s, s0, disk0) && !s.loop.worker.Exited?
    ensures Inv(DiskStep(s), s0, disk0)
  {
    hide ServerInvariant.Inv, StartedFrom, StateAfter, ShutdownLoop.Inv, DiskIs;
    ShutdownLoop.StepKeeps(s.loop, ShutdownLoop.Work);
    assert DiskIs(DiskStep(s), disk0) by { DiskStepIs(s, disk0); }
  }

  lemma DiskStepIs(s: System, disk0: Disk)
    requires DiskIs(s, disk0)
    ensures DiskIs(DiskStep(s), disk0)
  {
    hide DiskAfter, RecordBytes, DirectoryOf, Line;
    if s.loop.worker.Working? && s.loop.worker.rest != [] {
      DiskNext(disk0, s.loop.done, s.loop.worker.rest[0]);
      EmptiedThenWritten(DiskAfter(disk0, s.loop.done).files, s.loop.worker.rest[0]);
    }
  }

  lemma DiskNext(disk0: Disk, done: seq<PersistentData>, data: PersistentData)
    ensures DiskAfter(disk0, done + [data]) == Updated(DiskAfter(disk0, done), data)
  {
    assert (done + [data])[..|done|] == done;
  }

  ghost function Initial(s0: Server, disk0: Disk): System {
    System(s0, [], ShutdownLoop.Initial(), disk0, Between)
  }

  /** The state after any interleaving. */
  ghost function After(s0: Server, disk0: Disk, moves: seq<Move>): (s: System)
    requires StartedFrom(s0, disk0)
    ensures Inv(s, s0, disk0)
  {
    if moves == [] then
      Initial(s0, disk0)
    else
      var s, m := After(s0, disk0, moves[..|moves| - 1]), moves[|moves| - 1];
      StepKeeps(s, s0, disk0, m);
      if Allowed(s, m) then Step(s, m) else s
  }

  lemma StepKeeps(s: System, s0: Server, disk0: Disk, m: Move)
    requires Inv(s, s0, disk0)
    ensures ServerInvariant.Inv(s.server)
    ensures Allowed(s, m) ==> Inv(Step(s, m), s0, disk0)
  {
    hide DatagramStep, DiskStep;
    if Allowed(s, m) {
      match m
      case Datagram(e) => DatagramKeeps(s, s0, disk0, e);
      case Stop =>
      case DiskWork => DiskKeeps(s, s0, disk0);
    }
  }

  function IsStopped(moves: seq<Move>): bool {
    moves != [] && (moves[|moves| - 1].Stop? || IsStopped(moves[..|moves| - 1]))
  }

  /** The datagrams before the stop. */
  function DatagramsIn(moves: seq<Move>): seq<Event> {
    if moves == [] then []
    else
      var front, m := moves[..|moves| - 1], moves[|moves| - 1];
      DatagramsIn(front) + if m.Datagram? && !IsStopped(front) then [m.event] else []
  }

  /** All datagrams before the stop are handled, in order, and no others. */
  lemma AllAreHandled(s0: Server, disk0: Disk, moves: seq<Move>)
    requires StartedFrom(s0, disk0)
    ensures ServerInvariant.Inv(s0)
    ensures var s := After(s0, disk0, moves);
            && s.events == DatagramsIn(moves) && s.loop.flag == IsStopped(moves)
            && s.server == StateAfter(s0, DatagramsIn(moves))
            && s.loop.pushed == StateAfter(s0, DatagramsIn(moves)).users.queued
  {
    hide StartedFrom, ServerInvariant.Inv, After, StateAfter, ShutdownLoop.Inv, DiskIs;
    MovesAreHandled(s0, disk0, moves);
    assert Inv(After(s0, disk0, moves), s0, disk0);
  }

  lemma {:induction false} MovesAreHandled(s0: Server, disk0: Disk, moves: seq<Move>)
    requires StartedFrom(s0, disk0)
    ensures var s := After(s0, disk0, moves); s.events == DatagramsIn(moves) && s.loop.flag == IsStopped(moves)
  {
    hide StartedFrom, Inv, Step, Allowed;
    if moves != [] {
      var front, m := moves[..|moves| - 1], moves[|moves| - 1];
      MovesAreHandled(s0, disk0, front);
      var s := After(s0, disk0, front);
      StepKeeps(s, s0, disk0, m);
      MoveIsHandled(s, m);
    }
  }

  lemma MoveIsHandled(s: System, m: Move)
    requires ServerInvariant.Inv(s.server)
    ensures var s' := if Allowed(s, m) then Step(s, m) else s;
            && s'.events == s.events + (if m.Datagram? && !s.loop.flag then [m.event] else [])
            && s'.loop.flag == (m.Stop? || s.loop.flag)
  {
    hide ServerInvariant.Inv, Handle;
  }

  function Behind(stage: Stage): nat {
    match stage
    case Between => 2
    case Opened(_) => 1
    case Unlisted => 0
  }

  /** How many steps of the disk thread remain once the flag is raised, at most. */
  function DiskStepsLeft(s: System): nat {
    3 * ShutdownLoop.StepsLeft(s.loop) + Behind(s.stage)
  }

  /** After the stop every step of the disk thread brings its exit nearer, so that the join returns. */
  lemma DiskAdvances(s: System, s0: Server, disk0: Disk)
    requires Inv(s, s0, disk0) && s.loop.flag && !s.loop.worker.Exited?
    ensures DiskStep(s).loop.flag && DiskStepsLeft(DiskStep(s)) < DiskStepsLeft(s)
  {
    hide StartedFrom, ServerInvariant.Inv, DiskIs;
    ShutdownLoop.WorkerExits(s.loop);
  }

  /** Each user has a file of their own, and there are few enough for the files. */
  ghost predicate CanBeKept(s: System) {
    s.server.users.lastId < WORDS / 4 - 2 && Apart(s.disk.files.place, s.server.users.byName.Keys)
  }

  /** The file of a user known before is open and empty. */
  predicate InGap(s: System) {
    s.stage.Opened? && !s.stage.added
  }

  /** Whenever everything stops, loading the disk gives exactly the users, ids and follow lists that memory had after
      some prefix of the datagrams (when the snapshots finished by now were all it had queued), unless a user's file has
      just been opened to be written again: then exactly that user is missing. And exactly if it has not, the next
      process finds good files, and starts from them as the first one did. */
  lemma AnyStopIsAnEarlierState(s0: Server, disk0: Disk, moves: seq<Move>) returns (j: nat)
    requires StartedFrom(s0, disk0)
    ensures ServerInvariant.Inv(s0)
    ensures var s := After(s0, disk0, moves);
            CanBeKept(s) ==>
              && j <= |s.events|
              && StateAfter(s0, s.events[..j]).users.queued == s.loop.done
              && Started(s.disk.files).files.place == disk0.files.place
              && var users, files := Persisted(StateAfter(s0, s.events[..j]).users), s.disk.files;
                 && (Rebuilt(Loaded(files)) == users <==> !InGap(s))
                 && (StartedFrom(ServerFrom(files), Started(files)) <==> !InGap(s))
                 && (InGap(s) ==>
                       && s.loop.worker.Working? && s.loop.worker.rest != []
                       && var name := s.loop.worker.rest[0].username;
                          name in users.byName && Lacks(Rebuilt(Loaded(files)), users, users.byName[name], name))
  {
    hide After, CanBeKept;
    hide StartedFrom;
    var s := After(s0, disk0, moves);
    j := 0;
    if CanBeKept(s) {
      ghost var saved;
      j, saved := EarlierState(s, s0, disk0);
      if InGap(s) {
        GapState(s, s0, disk0, saved, StateAfter(s0, s.events[..j]).users);
      } else {
        var disk := Disk(s.disk.files, NamesOf(saved));
        StartIsGood(disk, saved, StateAfter(s0, s.events[..j]));
        LoadRepresents(disk, saved);
      }
      hide *;
    }
  }

  /** The state of memory whose records the files hold, but for a gap, and these records. */
  lemma EarlierState(s: System, s0: Server, disk0: Disk) returns (j: nat, saved: seq<PersistentData>)
    requires Inv(s, s0, disk0) && CanBeKept(s)
    ensures ServerInvariant.Inv(s0) && j <= |s.events| && s.disk.files.place == disk0.files.place
    ensures StateAfter(s0, s.events[..j]).users.queued == s.loop.done
    ensures saved == SavedAfter(Loaded(disk0.files), s.loop.done) && Saves(saved, StateAfter(s0, s.events[..j]).users)
    ensures Represents(DiskAfter(disk0, s.loop.done), saved) && Apart(disk0.files.place, s.server.users.byName.Keys)
    ensures AllStorable(saved, s.server.users.byName.Keys) && AllStorable(s.loop.pushed, s.server.users.byName.Keys)
    ensures !InGap(s) ==> Represents(Disk(s.disk.files, NamesOf(saved)), saved)
  {
    hide ServerInvariant.Inv, StateAfter, StartedFrom, DiskAfter, Loaded, Rebuilt, Written, Apart, Represents;
    var done, names := s.loop.done, s.server.users.byName.Keys;
    assert s.loop.pushed[..|done|] == done;
    RunIsKeepable(s0, disk0, s.events);
    j := DiskIsAnEarlierState(s0, disk0, s.events, |done|, names);
    saved := SavedAfter(Loaded(disk0.files), done);
    assert forall d <- done :: d in s.loop.pushed;
    StartRepresents(s0, disk0);
    DiskFollows(disk0, Loaded(disk0.files), done, names);
    if !s.stage.Between? && !InGap(s) {
      TornState(s, s0, disk0);
    }
    RepresentedNames(DiskAfter(disk0, done), saved);
  }

  lemma StartRepresents(s0: Server, disk0: Disk)
    requires StartedFrom(s0, disk0)
    ensures Represents(disk0, Loaded(disk0.files))
  {
  }

  lemma TornState(s: System, s0: Server, disk0: Disk)
    requires Inv(s, s0, disk0) && CanBeKept(s) && !s.stage.Between? && !InGap(s)
    requires Keepable(s0, disk0, s.events, s.server.users.byName.Keys)
    ensures Represents(DiskAfter(disk0, s.loop.done).(files := s.disk.files), SavedAfter(Loaded(disk0.files), s.loop.done))
  {
    hide ServerInvariant.Inv, StateAfter, Restarted, Saves, DiskAfter, Loaded, Storable, Written, Emptied, Represents, Apart;
    var done, data := s.loop.done, s.loop.worker.rest[0];
    assert s.loop.pushed[|done|] == data;
    assert s.loop.pushed[..|done| + 1] == done + [data];
    assert forall d <- done + [data] :: d in s.loop.pushed;
    TornUpdateIsInvisible(disk0, Loaded(disk0.files), done, data, s.server.users.byName.Keys);
  }

  /** A known user's file is empty: all records are loaded but this user's, and the directory still lists them. */
  lemma GapState(s: System, s0: Server, disk0: Disk, saved: seq<PersistentData>, users: Users)
    requires DiskIs(s, disk0) && InGap(s) && Represents(DiskAfter(disk0, s.loop.done), saved) && Saves(saved, users)
    requires Apart(disk0.files.place, s.server.users.byName.Keys) && AllStorable(saved, s.server.users.byName.Keys)
    ensures var name, rebuilt := s.loop.worker.rest[0].username, Rebuilt(Loaded(s.disk.files));
            && name in users.byName && Lacks(rebuilt, Persisted(users), users.byName[name], name)
            && rebuilt != Persisted(users)
    ensures !StartedFrom(ServerFrom(s.disk.files), Started(s.disk.files))
  {
    hide DiskAfter, Storable, RecordBytes, Apart, Rebuilt, Loaded, Emptied;
    var disk, name := DiskAfter(disk0, s.loop.done), s.loop.worker.rest[0].username;
    var i :| 0 <= i < |disk.known| && disk.known[i] == name;
    assert saved[i] in saved && saved[i].username == name;
    ApartFromOthers(disk0.files.place, s.server.users.byName.Keys, saved, name);
    TornOpen(disk, saved, i);
    RebuiltWithout(saved, i);
    RebuiltHolds(saved, i);
    NamedAs(saved, i);
  }

  /** The name of a record leads to its id. */
  lemma NamedAs(saved: seq<PersistentData>, i: nat)
    requires i < |saved|
    requires forall j, k :: 0 <= j < k < |saved| ==> saved[j].username != saved[k].username
    ensures saved[i].username in Rebuilt(saved).byName && Rebuilt(saved).byName[saved[i].username] == saved[i].id
  {
    RebuiltHolds(saved, i);
    var d := RebuiltIsNamed(saved, saved[i].username);
    var j :| 0 <= j < |saved| && saved[j] == d;
    assert j == i;
  }

  /** After a clean shutdown nothing is lost, and the restart rebuilds the same users, names and last id, exactly when
      each user has a file of their own. */
  lemma CleanRestart(s0: Server, disk0: Disk, moves: seq<Move>)
    requires StartedFrom(s0, disk0)
    ensures var s := After(s0, disk0, moves);
            s.loop.worker.Exited? && s.server.users.lastId < WORDS / 4 - 2 ==>
              (Rebuilt(Loaded(s.disk.files)) == Persisted(s.server.users)
               <==> Apart(disk0.files.place, s.server.users.byName.Keys))
  {
    var s := After(s0, disk0, moves);
    hide ServerInvariant.Inv, After, StateAfter, StartedFrom, Loaded, Rebuilt, Persisted, Apart;
    if s.loop.worker.Exited? && s.server.users.lastId < WORDS / 4 - 2 {
      assert s.loop.done == s.loop.pushed;
      RunSurvives(s0, disk0, s.events);
    }
  }
}
