/** Write-behind: the snapshots queued over a run, applied one by one, take the disk through the states of memory. */
module DiskHistory {
  import opened ServerTypes
  import opened UserConnection
  import opened UserPersistence
  import opened Notification
  import opened ClientMessageHandler
  import opened ServerInvariant
  import opened ServerRun
  import opened DiskRecord
  import opened DiskStore

  /** What is meant to survive a restart: the users without their pending lists. */
  function Persisted(users: Users): Users {
    Users(map u | u in users.byId :: UserData(users.byId[u].data, []), users.byName, users.lastId, [])
  }

  function SavedAfter(saved: seq<PersistentData>, queued: seq<PersistentData>): seq<PersistentData> {
    if queued == [] then saved else Mutated(SavedAfter(saved, queued[..|queued| - 1]), queued[|queued| - 1])
  }

  // ---------- Records and the users rebuilt from them ----------

  /** One record for each user, from which the users are rebuilt. */
  ghost predicate Saves(saved: seq<PersistentData>, users: Users) {
    && Rebuilt(saved) == Persisted(users)
    && forall i, j :: 0 <= i < j < |saved| ==> saved[i].id != saved[j].id && saved[i].username != saved[j].username
  }

  lemma {:induction false} RebuiltHolds(saved: seq<PersistentData>, i: nat)
    requires i < |saved|
    ensures var users := Rebuilt(saved);
            saved[i].id in users.byId && saved[i].username in users.byName && saved[i].id <= users.lastId
  {
    if i < |saved| - 1 {
      RebuiltHolds(saved[..|saved| - 1], i);
    }
  }

  lemma {:induction false} RebuiltFrom(saved: seq<PersistentData>, u: UserId) returns (i: nat)
    requires u in Rebuilt(saved).byId
    ensures i < |saved| && saved[i].id == u && Rebuilt(saved).byId[u] == UserData(saved[i], [])
  {
    i := |saved| - 1;
    if saved[i].id != u {
      i := RebuiltFrom(saved[..i], u);
    }
  }

  lemma {:induction false} RebuiltIsNamed(saved: seq<PersistentData>, name: string) returns (d: PersistentData)
    requires name in Rebuilt(saved).byName
    ensures d in saved && d.username == name && d.id == Rebuilt(saved).byName[name]
  {
    d := saved[|saved| - 1];
    if d.username != name {
      d := RebuiltIsNamed(saved[..|saved| - 1], name);
    }
  }

  function Replaced(users: Users, data: PersistentData): Users {
    users.(byId := users.byId[data.id := UserData(data, [])])
  }

  /** A newer record of the same user changes that user only. */
  lemma {:induction false} RebuiltReplaced(saved: seq<PersistentData>, i: nat, data: PersistentData)
    requires i < |saved| && saved[i].id == data.id && saved[i].username == data.username
    requires forall j, k :: 0 <= j < k < |saved| ==> saved[j].id != saved[k].id
    ensures Rebuilt(saved[i := data]) == Replaced(Rebuilt(saved), data)
  {
    var front, last := saved[..|saved| - 1], saved[|saved| - 1];
    hide Rebuilt, Extended, Replaced;
    assert saved == front + [last];
    RebuiltAppended(front, last);
    if i < |front| {
      assert saved[i := data] == front[i := data] + [last];
      assert last.id != data.id;
      RebuiltAppended(front[i := data], last);
      RebuiltReplaced(front, i, data);
      ExtendReplaced(Rebuilt(front), data, last);
    } else {
      RebuiltAppended(front, data);
      ReplaceExtended(Rebuilt(front), data, last);
      assert saved[i := data] == front + [data];
    }
  }

  lemma ExtendReplaced(users: Users, data: PersistentData, last: PersistentData)
    requires last.id != data.id
    ensures Extended(Replaced(users, data), last) == Replaced(Extended(users, last), data)
  {
    assert Extended(Replaced(users, data), last).byId == Replaced(Extended(users, last), data).byId;
  }

  lemma ReplaceExtended(users: Users, data: PersistentData, last: PersistentData)
    requires last.id == data.id && last.username == data.username
    ensures Extended(users, data) == Replaced(Extended(users, last), data)
  {
    assert Extended(users, data).byId == Replaced(Extended(users, last), data).byId;
  }

  ghost predicate Lacks(others: Users, users: Users, id: UserId, name: string) {
    others.byId == users.byId - {id} && others.byName == users.byName - {name}
  }

  lemma ExtendedLacks(others: Users, users: Users, id: UserId, name: string, last: PersistentData)
    requires Lacks(others, users, id, name) && last.id != id && last.username != name
    ensures Lacks(Extended(others, last), Extended(users, last), id, name)
  {
  }

  lemma LastLacks(users: Users, last: PersistentData)
    requires last.id !in users.byId && last.username !in users.byName
    ensures Lacks(users, Extended(users, last), last.id, last.username)
  {
  }

  /** Without the record of one user, exactly that user is missing. */
  lemma {:induction false} RebuiltWithout(saved: seq<PersistentData>, i: nat)
    requires i < |saved|
    requires forall j, k :: 0 <= j < k < |saved| ==> saved[j].id != saved[k].id && saved[j].username != saved[k].username
    ensures Lacks(Rebuilt(saved[..i] + saved[i + 1..]), Rebuilt(saved), saved[i].id, saved[i].username)
  {
    hide Rebuilt, Extended, Lacks;
    var front, last := saved[..|saved| - 1], saved[|saved| - 1];
    assert saved == front + [last];
    RebuiltAppended(front, last);
    if i < |front| {
      var others := front[..i] + front[i + 1..];
      assert saved[..i] + saved[i + 1..] == others + [last];
      RebuiltAppended(others, last);
      RebuiltWithout(front, i);
      ExtendedLacks(Rebuilt(others), Rebuilt(front), saved[i].id, saved[i].username, last);
    } else {
      assert saved[..i] + saved[i + 1..] == front;
      LastIsNew(saved);
      LastLacks(Rebuilt(front), last);
    }
  }

  lemma LastIsNew(saved: seq<PersistentData>)
    requires saved != []
    requires forall j, k :: 0 <= j < k < |saved| ==> saved[j].id != saved[k].id && saved[j].username != saved[k].username
    ensures var front, last := saved[..|saved| - 1], saved[|saved| - 1];
            last.id !in Rebuilt(front).byId && last.username !in Rebuilt(front).byName
  {
    var front, last := saved[..|saved| - 1], saved[|saved| - 1];
    if last.id in Rebuilt(front).byId {
      var i := RebuiltFrom(front, last.id);
    }
    if last.username in Rebuilt(front).byName {
      var d := RebuiltIsNamed(front, last.username);
    }
  }

  lemma SameIsPersisted(a: Users, b: Users)
    requires SameButPending(a, b)
    ensures Persisted(a) == Persisted(b)
  {
    forall u ensures u in Persisted(a).byId <==> u in Persisted(b).byId {
      assert u in a.byId.Keys <==> u in b.byId.Keys;
    }
    forall u | u in Persisted(a).byId ensures Persisted(a).byId[u] == Persisted(b).byId[u] {
      assert u in a.byId && a.byId[u].data == b.byId[u].data;
    }
    assert Persisted(a).byId == Persisted(b).byId;
  }

  /** The snapshot of a new user saves the new users. */
  lemma RegisteredSaves(users: Users, saved: seq<PersistentData>, username: string)
    requires Identities(users) && Saves(saved, users) && IdOf(users, username) == INVALID_ID
    ensures Saves(Mutated(saved, PersistentData(users.lastId + 1, username, [])), Registered(users, username))
  {
    var data := PersistentData(users.lastId + 1, username, []);
    forall i | 0 <= i < |saved| ensures saved[i].username != username && saved[i].id != data.id {
      RebuiltHolds(saved, i);
    }
    hide Rebuilt, Identities;
    MutatedNew(saved, data);
    RebuiltAppended(saved, data);
    PersistedNew(users, username);
  }

  lemma PersistedNew(users: Users, username: string)
    requires IdOf(users, username) == INVALID_ID
    ensures var data := PersistentData(users.lastId + 1, username, []);
            Persisted(Registered(users, username))
            == Users(Persisted(users).byId[data.id := UserData(data, [])], users.byName[username := data.id], data.id, [])
  {
    var data := PersistentData(users.lastId + 1, username, []);
    assert Persisted(Registered(users, username)).byId == Persisted(users).byId[data.id := UserData(data, [])];
  }

  lemma RebuiltAppended(saved: seq<PersistentData>, data: PersistentData)
    ensures Rebuilt(saved + [data]) == Extended(Rebuilt(saved), data)
  {
    assert (saved + [data])[..|saved|] == saved;
  }

  /** The snapshot of a follow saves the new follow lists. */
  lemma FollowedSaves(users: Users, saved: seq<PersistentData>, followed: UserId, follower: UserId)
    requires Identities(users) && Saves(saved, users)
    requires followed in users.byId && follower in users.byId && follower !in FollowersOf(users, followed)
    ensures var data := users.byId[followed].data.(followedBy := FollowersOf(users, followed) + [follower]);
            Saves(Mutated(saved, data), Followed(users, followed, follower))
  {
    var data := users.byId[followed].data.(followedBy := FollowersOf(users, followed) + [follower]);
    hide Rebuilt, Identities, Followed;
    var i := RebuiltFrom(saved, followed);
    MutatedKnown(saved, i, data);
    RebuiltReplaced(saved, i, data);
  }

  // ---------- Steps ----------

  /** At most one snapshot is queued, and with it the records again save the users. A snapshot with followers is of a
      user known before. */
  ghost predicate StepSaves(before: Users, after: Users, saved: seq<PersistentData>) {
    || (after.queued == before.queued && Saves(saved, after))
    || (&& |after.queued| == |before.queued| + 1 && after.queued[..|before.queued|] == before.queued
        && var data := after.queued[|before.queued|];
           Saves(Mutated(saved, data), after) && (data.followedBy == [] || data.username in before.byName))
  }

  lemma RegisteredStep(users: Users, saved: seq<PersistentData>, username: string)
    requires Identities(users) && Saves(saved, users)
    ensures StepSaves(users, Registered(users, username), saved)
  {
    if IdOf(users, username) == INVALID_ID {
      RegisteredSaves(users, saved, username);
    }
  }

  lemma FollowedStep(users: Users, saved: seq<PersistentData>, followed: UserId, follower: UserId)
    requires Identities(users) && Saves(saved, users)
    ensures StepSaves(users, Followed(users, followed, follower), saved)
  {
    if followed in users.byId && follower in users.byId && follower !in FollowersOf(users, followed) {
      FollowedSaves(users, saved, followed, follower);
    }
  }

  lemma SameStep(before: Users, a: Users, b: Users, saved: seq<PersistentData>)
    requires StepSaves(before, a, saved) && SameButPending(a, b)
    ensures StepSaves(before, b, saved)
  {
    SameIsPersisted(a, b);
  }

  lemma LoginSaves(s: Server, a: Address, username: string, saved: seq<PersistentData>)
    requires Inv(s) && Saves(saved, s.users)
    ensures StepSaves(s.users, HandleLogin(s, a, username).0.users, saved)
  {
    hide Saves, Delivered, Entries, Registered, Added, Agree, FollowGraph;
    if IsValidUsername(username) {
      RegisteredStep(s.users, saved, username);
      RegisteredInv(s, username);
      var users := Registered(s.users, username);
      var user := IdOf(users, username);
      var s' := HandleLogin(s, a, username).0;
      if !Online(s.conns, user) && UserAt(s.conns, a) in {INVALID_ID, user} {
        var drained := Server(Counted(Added(s.conns, user, a), user), SetPending(users, user, []), s.notes);
        EntriesAreStored(s.(users := users), user);
        hide PendingBacked, CountsMatch, Identities;
        DeliveredState(drained, user, PendingOf(users, user));
        assert s'.users == SetPending(users, user, []);
        SameStep(s.users, users, s'.users, saved);
      }
    }
  }

  lemma SendSaves(s: Server, a: Address, body: string, now: Time, saved: seq<PersistentData>)
    requires Inv(s) && Saves(saved, s.users)
    ensures StepSaves(s.users, HandleSend(s, a, body, now).0.users, saved)
  {
    hide Saves, Entries, Agree, Notified;
    var author := UserAt(s.conns, a);
    var followers := FollowersOf(s.users, author);
    if author != INVALID_ID && IsValidMessage(body) && |followers| > 0 {
      var counted := s.(conns := Counted(s.conns, author));
      NotifiedState(counted, author, now, followers, body);
      SameStep(s.users, s.users, Notified(counted, author, now, followers, body).0.users, saved);
    }
  }

  lemma HandleSaves(s: Server, e: Event, saved: seq<PersistentData>)
    requires Inv(s) && Saves(saved, s.users)
    ensures StepSaves(s.users, Handle(s, e).0.users, saved)
  {
    hide HandleLogin, HandleSend, Followed, Saves, Entries, Agree;
    match e.message
    case Login(username) => LoginSaves(s, e.address, username, saved);
    case Logout =>
    case Send(body) => SendSaves(s, e.address, body, e.now, saved);
    case Follow(username) =>
      FollowedStep(s.users, saved, IdOf(s.users, username), UserAt(s.conns, e.address));
    case Invalid =>
  }

  // ---------- Runs ----------

  /** A start from these files: the users they hold, which are in order. */
  ghost predicate StartedFrom(s0: Server, disk0: Disk) {
    && Restarted(s0)
    && s0.users == Rebuilt(Loaded(disk0.files))
    && Represents(disk0, Loaded(disk0.files))
    && Saves(Loaded(disk0.files), s0.users)
  }

  /** Applied to the records of the start, the snapshots queued give the users of the end. */
  lemma {:induction false} QueueSavesRun(s0: Server, events: seq<Event>, saved0: seq<PersistentData>)
    requires Inv(s0) && s0.users.queued == [] && Saves(saved0, s0.users)
    ensures Saves(SavedAfter(saved0, StateAfter(s0, events).users.queued), StateAfter(s0, events).users)
  {
    hide Inv, Saves, Handle;
    if events != [] {
      var front, last := events[..|events| - 1], events[|events| - 1];
      QueueSavesRun(s0, front, saved0);
      var before, after := StateAfter(s0, front).users, StateAfter(s0, events).users;
      HandleSaves(StateAfter(s0, front), last, SavedAfter(saved0, before.queued));
    }
  }

  /** The queue only grows, by one snapshot at a time, so each of its prefixes was the whole queue at some point. */
  lemma {:induction false} QueueGrows(s0: Server, events: seq<Event>, saved0: seq<PersistentData>, k: nat) returns (j: nat)
    requires Inv(s0) && s0.users.queued == [] && Saves(saved0, s0.users)
    requires k <= |StateAfter(s0, events).users.queued|
    ensures j <= |events| && StateAfter(s0, events[..j]).users.queued == StateAfter(s0, events).users.queued[..k]
  {
    hide Inv, Saves, Handle;
    var queued := StateAfter(s0, events).users.queued;
    if k == |queued| {
      j := |events|;
      assert events[..j] == events && queued[..k] == queued;
    } else {
      assert events != [];
      var front, last := events[..|events| - 1], events[|events| - 1];
      QueueSavesRun(s0, front, saved0);
      var before := StateAfter(s0, front).users;
      HandleSaves(StateAfter(s0, front), last, SavedAfter(saved0, before.queued));
      j := QueueGrows(s0, front, saved0, k);
      assert events[..j] == front[..j] && before.queued[..k] == queued[..k];
    }
  }

  /** The disk and the records it holds go on together, as long as the names have files of their own. */
  lemma {:induction false} DiskFollows(
      disk: Disk, saved: seq<PersistentData>, queued: seq<PersistentData>, names: set<string>)
    requires Represents(disk, saved) && Apart(disk.files.place, names)
    requires AllStorable(saved, names) && AllStorable(queued, names)
    ensures Represents(DiskAfter(disk, queued), SavedAfter(saved, queued))
    ensures AllStorable(SavedAfter(saved, queued), names)
  {
    hide Represents, Storable, Updated, Apart;
    if queued != [] {
      var front, last := queued[..|queued| - 1], queued[|queued| - 1];
      assert last in queued;
      DiskFollows(disk, saved, front, names);
      var before := SavedAfter(saved, front);
      ApartFromOthers(disk.files.place, names, before, last.username);
      UpdatedRepresents(DiskAfter(disk, front), before, last);
      forall d | d in Mutated(before, last) ensures Storable(d) && d.username in names {
        MutatedHas(before, last, d);
      }
    }
  }

  lemma {:induction false} MutatedHas(saved: seq<PersistentData>, data: PersistentData, d: PersistentData)
    requires d in Mutated(saved, data)
    ensures d == data || d in saved
  {
    if saved != [] && saved[0].username != data.username && d != saved[0] {
      MutatedHas(saved[1..], data, d);
    }
  }

  /** The records of a start and all snapshots of a run can be kept together. */
  ghost predicate Keepable(s0: Server, disk0: Disk, events: seq<Event>, names: set<string>)
    requires Inv(s0)
  {
    && Apart(disk0.files.place, names)
    && AllStorable(Loaded(disk0.files), names)
    && AllStorable(StateAfter(s0, events).users.queued, names)
  }

  /** With the first k snapshots of a run applied, loading the disk gives exactly the users that memory had when
      these were all it had queued. */
  lemma DiskIsAnEarlierState(s0: Server, disk0: Disk, events: seq<Event>, k: nat, names: set<string>) returns (j: nat)
    requires StartedFrom(s0, disk0) && Inv(s0) && Keepable(s0, disk0, events, names)
    requires k <= |StateAfter(s0, events).users.queued|
    ensures var queued := StateAfter(s0, events).users.queued;
            && j <= |events|
            && StateAfter(s0, events[..j]).users.queued == queued[..k]
            && Rebuilt(Loaded(DiskAfter(disk0, queued[..k]).files)) == Persisted(StateAfter(s0, events[..j]).users)
            && Represents(DiskAfter(disk0, queued[..k]), SavedAfter(Loaded(disk0.files), queued[..k]))
            && Saves(SavedAfter(Loaded(disk0.files), queued[..k]), StateAfter(s0, events[..j]).users)
  {
    hide Inv, Represents, Storable, Restarted, Apart;
    var saved0, queued := Loaded(disk0.files), StateAfter(s0, events).users.queued;
    j := QueueGrows(s0, events, saved0, k);
    QueueSavesRun(s0, events[..j], saved0);
    DiskFollows(disk0, saved0, queued[..k], names);
    LoadRepresents(DiskAfter(disk0, queued[..k]), SavedAfter(saved0, queued[..k]));
  }

  /** When the next snapshot is of a new user and its directory line is missing, the records are still those before,
      whether the user's file is written or only opened. */
  lemma TornUpdateIsInvisible(
      disk0: Disk, saved0: seq<PersistentData>, queued: seq<PersistentData>, data: PersistentData, names: set<string>)
    requires Represents(disk0, saved0) && Apart(disk0.files.place, names)
    requires AllStorable(saved0, names) && AllStorable(queued + [data], names)
    requires data.username !in DiskAfter(disk0, queued).known
    ensures var disk := DiskAfter(disk0, queued);
            && Represents(disk.(files := Written(disk.files, data)), SavedAfter(saved0, queued))
            && Represents(disk.(files := Emptied(disk.files, data.username)), SavedAfter(saved0, queued))
  {
    hide Represents, Storable, Apart;
    assert forall d <- queued :: d in queued + [data];
    assert data in queued + [data];
    DiskFollows(disk0, saved0, queued, names);
    ApartFromOthers(disk0.files.place, names, SavedAfter(saved0, queued), data.username);
    TornWrite(DiskAfter(disk0, queued), SavedAfter(saved0, queued), data);
    TornNew(DiskAfter(disk0, queued), SavedAfter(saved0, queued), data.username, "");
  }

  /** The server that starts from these files. */
  function ServerFrom(files: Files): Server {
    Server(Connections(map[], map[]), Rebuilt(Loaded(files)), Notifications(map[], INVALID_ID))
  }

  /** A start from files that hold the records of users once in memory is a start from good files. */
  lemma StartIsGood(disk: Disk, saved: seq<PersistentData>, s: Server)
    requires Represents(disk, saved) && Saves(saved, s.users) && Inv(s)
    ensures StartedFrom(ServerFrom(disk.files), Started(disk.files))
  {
    hide Inv, Represents, Rebuilt, Loaded, Started, Identities, FollowGraph;
    LoadRepresents(disk, saved);
    LoadingKeeps(disk, saved);
    InvIdentities(s);
    SavesPersisted(saved, s.users);
    hide Saves;
  }

  /** What the records save are the users rebuilt from them. */
  lemma SavesPersisted(saved: seq<PersistentData>, users: Users)
    requires Saves(saved, users) && Identities(users) && FollowGraph(users)
    ensures Saves(saved, Rebuilt(saved)) && Identities(Rebuilt(saved)) && FollowGraph(Rebuilt(saved))
  {
    hide Rebuilt;
  }

  lemma InvIdentities(s: Server)
    requires Inv(s)
    ensures Identities(s.users) && FollowGraph(s.users)
  {
  }

  // ---------- Which runs can be kept ----------

  /** All names are valid, and every snapshot is of a user known by now, with followers known by now, each once. */
  ghost predicate QueueKnown(users: Users) {
    && (forall name <- users.byName :: IsValidUsername(name))
    && (forall d <- users.queued ::
          && d.username in users.byName
          && 1 <= d.id <= users.lastId
          && Distinct(d.followedBy) && forall f <- d.followedBy :: 1 <= f <= users.lastId)
  }

  lemma QueueKnownSame(a: Users, b: Users)
    requires QueueKnown(a) && SameButPending(a, b)
    ensures QueueKnown(b)
  {
  }

  lemma RegisteredQueue(users: Users, username: string)
    requires Identities(users) && QueueKnown(users) && IsValidUsername(username)
    ensures QueueKnown(Registered(users, username))
  {
    hide IsValidUsername;
    var users' := Registered(users, username);
    forall d | d in users'.queued
      ensures d.username in users'.byName && 1 <= d.id <= users'.lastId
      ensures Distinct(d.followedBy) && forall f <- d.followedBy :: 1 <= f <= users'.lastId
    {
      assert d in users.queued || d.followedBy == [];
    }
  }

  lemma LoginQueue(s: Server, a: Address, username: string)
    requires Inv(s) && QueueKnown(s.users)
    ensures QueueKnown(HandleLogin(s, a, username).0.users)
  {
    hide Delivered, Entries, Added, Agree, FollowGraph, Distinct;
    if IsValidUsername(username) {
      RegisteredInv(s, username);
      var users := Registered(s.users, username);
      RegisteredQueue(s.users, username);
      var user := IdOf(users, username);
      var s' := HandleLogin(s, a, username).0;
      hide QueueKnown, Registered;
      if !Online(s.conns, user) && UserAt(s.conns, a) in {INVALID_ID, user} {
        var drained := Server(Counted(Added(s.conns, user, a), user), SetPending(users, user, []), s.notes);
        EntriesAreStored(s.(users := users), user);
        hide PendingBacked, CountsMatch, Identities;
        DeliveredState(drained, user, PendingOf(users, user));
        QueueKnownSame(users, s'.users);
      }
    }
  }

  lemma FollowQueue(s: Server, a: Address, username: string)
    requires Inv(s) && QueueKnown(s.users)
    ensures QueueKnown(HandleFollow(s, a, username).0.users)
  {
    hide Entries, PendingBacked, CountsMatch, Distinct;
    KnownAddress(s, a);
    hide Agree;
    var follower, followed := UserAt(s.conns, a), IdOf(s.users, username);
    if follower != INVALID_ID && followed != INVALID_ID && NameOf(s.users, follower) != username {
      FollowedKeeps(s.users, followed, follower);
      FollowedQueue(s.users, followed, follower);
    }
  }

  lemma FollowedQueue(users: Users, followed: UserId, follower: UserId)
    requires Identities(users) && QueueKnown(users) && followed in users.byId && follower in users.byId
    requires Identities(Followed(users, followed, follower)) && FollowGraph(Followed(users, followed, follower))
    ensures QueueKnown(Followed(users, followed, follower))
  {
    hide Distinct;
    var users' := Followed(users, followed, follower);
    var data := users'.byId[followed].data;
    forall d | d in users'.queued
      ensures d.username in users'.byName && 1 <= d.id <= users'.lastId
      ensures Distinct(d.followedBy) && forall f <- d.followedBy :: 1 <= f <= users'.lastId
    {
      assert d in users.queued || d == data;
    }
  }

  lemma HandleQueue(s: Server, e: Event)
    requires Inv(s) && QueueKnown(s.users)
    ensures QueueKnown(Handle(s, e).0.users)
  {
    hide HandleLogin, HandleFollow, Entries, Agree, QueueKnown, Notified, PendingBacked;
    match e.message
    case Login(username) => LoginQueue(s, e.address, username);
    case Logout =>
    case Send(body) =>
      var author := UserAt(s.conns, e.address);
      var followers := FollowersOf(s.users, author);
      if author != INVALID_ID && IsValidMessage(body) && |followers| > 0 {
        NotifiedState(s.(conns := Counted(s.conns, author)), author, e.now, followers, body);
        QueueKnownSame(s.users, Handle(s, e).0.users);
      }
    case Follow(username) => FollowQueue(s, e.address, username);
    case Invalid =>
  }

  lemma {:induction false} RunQueue(s0: Server, events: seq<Event>)
    requires Inv(s0) && QueueKnown(s0.users)
    ensures QueueKnown(StateAfter(s0, events).users)
  {
    hide Inv, Handle;
    if events != [] {
      var front := events[..|events| - 1];
      RunQueue(s0, front);
      hide QueueKnown;
      HandleQueue(StateAfter(s0, front), events[|events| - 1]);
    }
  }

  lemma StartNames(s0: Server, disk0: Disk)
    requires StartedFrom(s0, disk0)
    ensures QueueKnown(s0.users)
  {
    var saved := Loaded(disk0.files);
    hide Loaded, Rebuilt, Restarted, Saves, IsValidUsername;
    forall name | name in s0.users.byName ensures IsValidUsername(name) {
      var d := RebuiltIsNamed(saved, name);
    }
  }

  function UpTo(n: nat): (s: set<int>)
    ensures |s| == n && forall x :: x in s <==> 1 <= x <= n
  {
    if n == 0 then {} else UpTo(n - 1) + {n}
  }

  lemma {:induction false} DistinctFits(list: seq<int>, s: set<int>)
    requires Distinct(list) && forall x <- list :: x in s
    ensures |list| <= |s|
  {
    if list != [] {
      var front, last := list[..|list| - 1], list[|list| - 1];
      assert last in list && last !in front;
      DistinctFits(front, s - {last});
    }
  }

  /** The records and snapshots of a run can be kept together, as long as there are fewer than 2^30 - 2 users and each
      has a file of their own. */
  lemma RunIsKeepable(s0: Server, disk0: Disk, events: seq<Event>)
    requires StartedFrom(s0, disk0) && Inv(s0)
    requires StateAfter(s0, events).users.lastId < WORDS / 4 - 2
    requires Apart(disk0.files.place, StateAfter(s0, events).users.byName.Keys)
    ensures Keepable(s0, disk0, events, StateAfter(s0, events).users.byName.Keys)
  {
    var saved0, users := Loaded(disk0.files), StateAfter(s0, events).users;
    StartNames(s0, disk0);
    RunQueue(s0, events);
    QueueSavesRun(s0, events, saved0);
    hide Inv, StateAfter, Apart, Loaded, QueueKnown, Saves, Restarted;
    KnownIsStorable(users);
    forall d | d in saved0 ensures Storable(d) && d.username in users.byName.Keys {
      NameStays(saved0, users.queued, d.username);
      SavedIsNamed(SavedAfter(saved0, users.queued), users, d.username);
    }
  }

  lemma KnownIsStorable(users: Users)
    requires QueueKnown(users) && users.lastId < WORDS / 4 - 2
    ensures AllStorable(users.queued, users.byName.Keys)
  {
    forall d | d in users.queued ensures Storable(d) {
      DistinctFits(d.followedBy, UpTo(users.lastId));
    }
  }

  ghost predicate IsSaved(saved: seq<PersistentData>, name: string) {
    exists d <- saved :: d.username == name
  }

  /** A name once saved stays saved. */
  lemma {:induction false} NameStays(saved: seq<PersistentData>, queued: seq<PersistentData>, name: string)
    requires IsSaved(saved, name)
    ensures IsSaved(SavedAfter(saved, queued), name)
  {
    if queued != [] {
      NameStays(saved, queued[..|queued| - 1], name);
      MutatedKeepsName(SavedAfter(saved, queued[..|queued| - 1]), queued[|queued| - 1], name);
    }
  }

  lemma {:induction false} MutatedKeepsName(saved: seq<PersistentData>, data: PersistentData, name: string)
    requires IsSaved(saved, name) || data.username == name
    ensures IsSaved(Mutated(saved, data), name)
  {
    var after := Mutated(saved, data);
    if saved == [] || saved[0].username == data.username {
      assert data in after;
      if data.username != name {
        var d :| d in saved && d.username == name;
        assert d in saved[1..];
        assert d in after;
      }
    } else if saved[0].username == name {
      assert saved[0] in after;
    } else {
      MutatedKeepsName(saved[1..], data, name);
      var d :| d in Mutated(saved[1..], data) && d.username == name;
      assert d in after;
    }
  }

  lemma SavedIsNamed(saved: seq<PersistentData>, users: Users, name: string)
    requires Saves(saved, users) && IsSaved(saved, name)
    ensures name in users.byName
  {
    var i :| 0 <= i < |saved| && saved[i].username == name;
    RebuiltHolds(saved, i);
    assert name in Persisted(users).byName;
  }

  /** The first start of all, without any file. */
  lemma FirstStart(place: Places)
    ensures StartedFrom(ServerFrom(Files(place, map[])), Disk(Files(place, map[]), []))
  {
    LoadRepresents(Disk(Files(place, map[]), []), []);
  }

  /** load_user_persistence */
  method LoadUserPersistence(disk: DiskOperationsManagement) returns (users: UserPersistence)
    modifies disk, disk.userDirectory
    ensures fresh(users) && users.View() == ServerFrom(old(disk.View()).files).users
    ensures disk.View() == Started(old(disk.View()).files)
  {
    var records := disk.LoadAndUpdatePersistentData();
    users := new UserPersistence(records);
  }
}
