/** Exactly when the users of a run survive a restart: when each has a file of their own. */
module RestartCondition {
  import opened Options
  import opened Sequences
  import opened ServerTypes
  import opened Notification
  import opened ServerInvariant
  import opened ClientMessageHandler
  import opened ServerRun
  import opened UserPersistence
  import opened DiskRecord
  import opened UserDirectory
  import opened SpoiltDirectory
  import opened DiskStore
  import opened DiskHistory

  // ---------- A file that cannot be opened, or that is shared ----------

  /** A name rebuilt from the files has the id in its file. */
  lemma RebuiltFromFile(files: Files, name: string) returns (d: PersistentData)
    requires name in Rebuilt(Loaded(files)).byName
    ensures d.username == name && d.id == Rebuilt(Loaded(files)).byName[name] && LoadedUser(files, name) == [d]
  {
    d := RebuiltIsNamed(Loaded(files), name);
    LoadedHas(files, Names(DirectoryOf(files)), d);
  }

  lemma UnopenedIsLost(files: Files, users: Users, name: string)
    requires name in users.byName && files.place(name).None?
    ensures Rebuilt(Loaded(files)) != Persisted(users)
  {
    if name in Rebuilt(Loaded(files)).byName {
      var d := RebuiltFromFile(files, name);
      assert false;
    }
  }

  /** One file cannot hold the ids of two users. */
  lemma SharedIsLost(files: Files, users: Users, a: string, b: string)
    requires Identities(users) && a in users.byName && b in users.byName && a != b
    requires files.place(a) == files.place(b)
    ensures Rebuilt(Loaded(files)) != Persisted(users)
  {
    var rebuilt := Rebuilt(Loaded(files));
    if a in rebuilt.byName && b in rebuilt.byName {
      var x := RebuiltFromFile(files, a);
      var y := RebuiltFromFile(files, b);
      assert x.id == y.id;
      hide Rebuilt, Loaded, LoadedUser;
      assert users.byName[a] != users.byName[b];
    }
  }

  // ---------- A file that is the directory ----------

  /** The directory is a user's record and lines added since, fewer than there are names known to the disk. */
  ghost predicate Spoilt(disk: Disk) {
    exists data, names :: DirectoryOf(disk.files) == RecordBytes(data) + DirectoryText(names)
                          && SpoiltBy(data, names, |disk.known|)
  }

  ghost predicate SpoiltBy(data: PersistentData, names: seq<string>, users: nat) {
    && (forall name <- names :: IsValidUsername(name))
    && users >= 1
    && (if data.followedBy == [] then |names| else |data.followedBy| + 1 + |names|) <= users
  }

  predicate Owns(disk: Disk, name: string) {
    disk.files.place(name) == Some(DIRECTORY)
  }

  /** A snapshot comes after those of its followers; the first one of a user has none. */
  ghost predicate Plausible(disk: Disk, data: PersistentData) {
    && IsValidUsername(data.username)
    && (data.followedBy != [] ==> data.username in disk.known && |data.followedBy| + 1 <= |disk.known|)
  }

  lemma BecomesSpoilt(disk: Disk, data: PersistentData)
    requires Owns(disk, data.username) && Plausible(disk, data)
    ensures Spoilt(Updated(disk, data))
  {
    hide RecordBytes, IsValidUsername;
    var disk', words := Updated(disk, data), RecordBytes(data);
    if data.username in disk.known {
      assert DirectoryOf(disk'.files) == words + DirectoryText([]);
      assert SpoiltBy(data, [], |disk'.known|);
    } else {
      FlatOne(data.username, name => Line(name));
      assert DirectoryOf(disk'.files) == words + DirectoryText([data.username]);
      assert SpoiltBy(data, [data.username], |disk'.known|);
    }
  }

  lemma StaysSpoilt(disk: Disk, data: PersistentData)
    requires Spoilt(disk) && Plausible(disk, data)
    ensures Spoilt(Updated(disk, data))
  {
    if Owns(disk, data.username) {
      BecomesSpoilt(disk, data);
    } else {
      hide RecordBytes, IsValidUsername, Updated;
      var owner, names :| DirectoryOf(disk.files) == RecordBytes(owner) + DirectoryText(names)
                          && SpoiltBy(owner, names, |disk.known|);
      var longer := if Lists(disk, data) then names + [data.username] else names;
      OthersAreListed(disk, data, RecordBytes(owner), names);
      assert SpoiltBy(owner, longer, |Updated(disk, data).known|);
    }
  }

  predicate Lists(disk: Disk, data: PersistentData) {
    data.username !in disk.known && disk.files.place(data.username).Some?
  }

  /** What the snapshot of another user does to the directory. */
  lemma OthersAreListed(disk: Disk, data: PersistentData, words: string, names: seq<string>)
    requires !Owns(disk, data.username) && DirectoryOf(disk.files) == words + DirectoryText(names)
    ensures DirectoryOf(Updated(disk, data).files)
         == words + DirectoryText(if Lists(disk, data) then names + [data.username] else names)
    ensures |Updated(disk, data).known| == |disk.known| + (if data.username in disk.known then 0 else 1)
  {
    hide RecordBytes, DirectoryText, Line;
    DirectoryAppend(names, data.username);
    assert words + DirectoryText(names) + Line(data.username) == words + (DirectoryText(names) + Line(data.username));
  }

  ghost predicate AllPlausible(disk: Disk, queued: seq<PersistentData>) {
    forall i :: 0 <= i < |queued| ==> Plausible(DiskAfter(disk, queued[..i]), queued[i])
  }

  /** Once the owner of the directory has been written, the directory stays spoilt. */
  lemma {:induction false} OwnerSpoils(disk: Disk, queued: seq<PersistentData>, i: nat)
    requires i < |queued| && Owns(disk, queued[i].username) && AllPlausible(disk, queued)
    ensures Spoilt(DiskAfter(disk, queued))
  {
    hide Plausible, Updated, Spoilt;
    var front, last := queued[..|queued| - 1], queued[|queued| - 1];
    if i == |front| {
      BecomesSpoilt(DiskAfter(disk, front), last);
    } else {
      assert forall k :: 0 <= k < |front| ==> front[..k] == queued[..k];
      OwnerSpoils(disk, front, i);
      StaysSpoilt(DiskAfter(disk, front), last);
    }
  }

  lemma {:induction false} RebuiltNamesAtMost(saved: seq<PersistentData>)
    ensures |Rebuilt(saved).byName| <= |saved|
  {
    if saved != [] {
      RebuiltNamesAtMost(saved[..|saved| - 1]);
    }
  }

  lemma {:induction false} RebuiltNamesAll(saved: seq<PersistentData>)
    requires forall i, j :: 0 <= i < j < |saved| ==> saved[i].username != saved[j].username
    ensures |Rebuilt(saved).byName| == |saved|
  {
    if saved != [] {
      var front, last := saved[..|saved| - 1], saved[|saved| - 1];
      RebuiltNamesAll(front);
      assert forall d <- front :: d.username != last.username;
      if last.username in Rebuilt(front).byName {
        var d := RebuiltIsNamed(front, last.username);
        assert false;
      }
    }
  }

  lemma {:induction false} LoadedAtMost(files: Files, names: seq<string>)
    ensures |LoadedUsers(files, names)| <= |names|
  {
    if names != [] {
      LoadedAtMost(files, names[..|names| - 1]);
      LoadedUsersNext(files, names);
    }
  }

  /** A spoilt directory lists too few names for all users. */
  lemma SpoiltIsLost(disk: Disk, saved: seq<PersistentData>, users: Users)
    requires Spoilt(disk) && |disk.known| == |saved| && Saves(saved, users)
    ensures Rebuilt(Loaded(disk.files)) != Persisted(users)
  {
    var data, names :| DirectoryOf(disk.files) == RecordBytes(data) + DirectoryText(names)
                       && SpoiltBy(data, names, |disk.known|);
    FewNames(data, names);
    LoadedAtMost(disk.files, Names(DirectoryOf(disk.files)));
    RebuiltNamesAtMost(Loaded(disk.files));
    RebuiltNamesAll(saved);
    hide Rebuilt, Names, LoadedUsers;
    assert |Rebuilt(Loaded(disk.files)).byName| < |Persisted(users).byName|;
  }

  // ---------- The snapshots of a run are plausible ----------

  /** The names known to the disk are those of the records, whether or not their files can be opened. */
  lemma {:induction false} KnownFollows(disk: Disk, saved: seq<PersistentData>, queued: seq<PersistentData>)
    requires disk.known == NamesOf(saved)
    ensures DiskAfter(disk, queued).known == NamesOf(SavedAfter(saved, queued))
  {
    if queued != [] {
      var front, last := queued[..|queued| - 1], queued[|queued| - 1];
      KnownFollows(disk, saved, front);
      KnownMutated(DiskAfter(disk, front), SavedAfter(saved, front), last);
    }
  }

  lemma KnownMutated(disk: Disk, saved: seq<PersistentData>, data: PersistentData)
    requires disk.known == NamesOf(saved)
    ensures Updated(disk, data).known == NamesOf(Mutated(saved, data))
  {
    if data.username in disk.known {
      var i := FirstNamed(saved, data.username);
      MutatedKnown(saved, i, data);
      assert NamesOf(saved[i := data]) == NamesOf(saved);
    } else {
      forall d | d in saved ensures d.username != data.username {
        var i :| 0 <= i < |saved| && saved[i] == d;
        assert disk.known[i] == d.username;
      }
      MutatedNew(saved, data);
      assert NamesOf(saved + [data]) == NamesOf(saved) + [data.username];
    }
  }

  lemma {:induction false} FirstNamed(saved: seq<PersistentData>, name: string) returns (i: nat)
    requires name in NamesOf(saved)
    ensures i < |saved| && saved[i].username == name && forall j :: 0 <= j < i ==> saved[j].username != name
  {
    i := 0;
    if saved[0].username != name {
      assert NamesOf(saved)[1..] == NamesOf(saved[1..]);
      i := FirstNamed(saved[1..], name);
      i := i + 1;
    }
  }

  /** A snapshot with followers is of a user saved before, among records of all the followers. */
  ghost predicate Follows(saved: seq<PersistentData>, data: PersistentData) {
    data.followedBy != [] ==> IsSaved(saved, data.username) && |data.followedBy| + 1 <= |saved|
  }

  lemma {:induction false} RebuiltIdsAtMost(saved: seq<PersistentData>)
    ensures |Rebuilt(saved).byId| <= |saved|
  {
    if saved != [] {
      RebuiltIdsAtMost(saved[..|saved| - 1]);
    }
  }

  /** Followers exist, are distinct, and are not the user followed. */
  lemma FollowersAreSaved(saved: seq<PersistentData>, users: Users, i: nat)
    requires Identities(users) && FollowGraph(users) && Saves(saved, users) && i < |saved|
    ensures |saved[i].followedBy| + 1 <= |saved|
  {
    var d := saved[i];
    RebuiltHolds(saved, i);
    RebuiltIdsAtMost(saved);
    var k := RebuiltFrom(saved, d.id);
    var persisted := Persisted(users);
    hide Rebuilt;
    assert k == i;
    assert persisted.byId[d.id] == UserData(d, []) && d.id in users.byId && users.byId[d.id].data == d;
    var all := d.followedBy + [d.id];
    forall x | x in all ensures x in persisted.byId.Keys {
      assert x in d.followedBy || x == d.id;
    }
    DistinctFits(all, persisted.byId.Keys);
  }

  lemma StepFollows(saved: seq<PersistentData>, before: Users, after: Users)
    requires Saves(saved, before) && StepSaves(before, after, saved) && |after.queued| > |before.queued|
    requires Identities(after) && FollowGraph(after)
    ensures Follows(saved, after.queued[|before.queued|])
  {
    var data := after.queued[|before.queued|];
    if data.followedBy != [] {
      assert data.username in Persisted(before).byName;
      var d := RebuiltIsNamed(saved, data.username);
      var k :| 0 <= k < |saved| && saved[k] == d;
      assert NamesOf(saved)[k] == data.username;
      var i := FirstNamed(saved, data.username);
      MutatedKnown(saved, i, data);
      hide Saves, Identities, FollowGraph;
      FollowersAreSaved(saved[i := data], after, i);
    }
  }

  lemma {:induction false} RunFollows(s0: Server, events: seq<Event>, saved0: seq<PersistentData>)
    requires Inv(s0) && s0.users.queued == [] && Saves(saved0, s0.users)
    ensures var queued := StateAfter(s0, events).users.queued;
            forall i :: 0 <= i < |queued| ==> Follows(SavedAfter(saved0, queued[..i]), queued[i])
  {
    hide Inv, Handle, Follows, Saves, Identities, FollowGraph;
    if events != [] {
      var front, last := events[..|events| - 1], events[|events| - 1];
      RunFollows(s0, front, saved0);
      QueueSavesRun(s0, front, saved0);
      var s := StateAfter(s0, front);
      HandleSaves(s, last, SavedAfter(saved0, s.users.queued));
      InvIdentities(StateAfter(s0, events));
      NextFollows(s.users, StateAfter(s0, events).users, saved0);
    }
  }

  lemma NextFollows(before: Users, after: Users, saved0: seq<PersistentData>)
    requires forall i :: 0 <= i < |before.queued| ==> Follows(SavedAfter(saved0, before.queued[..i]), before.queued[i])
    requires Saves(SavedAfter(saved0, before.queued), before)
    requires StepSaves(before, after, SavedAfter(saved0, before.queued)) && Identities(after) && FollowGraph(after)
    ensures forall i :: 0 <= i < |after.queued| ==> Follows(SavedAfter(saved0, after.queued[..i]), after.queued[i])
  {
    hide Follows, Saves, Identities, FollowGraph, Mutated, SavedAfter;
    var n := |before.queued|;
    forall i | 0 <= i < |after.queued| ensures Follows(SavedAfter(saved0, after.queued[..i]), after.queued[i]) {
      if i < n {
        assert after.queued[..i] == before.queued[..i] && after.queued[i] == before.queued[i];
      } else {
        assert after.queued[..i] == before.queued;
        StepFollows(SavedAfter(saved0, before.queued), before, after);
      }
    }
  }

  /** So the disk thread only meets plausible snapshots. */
  lemma RunIsPlausible(disk0: Disk, saved0: seq<PersistentData>, users: Users)
    requires disk0.known == NamesOf(saved0) && QueueKnown(users)
    requires forall i :: 0 <= i < |users.queued| ==> Follows(SavedAfter(saved0, users.queued[..i]), users.queued[i])
    ensures AllPlausible(disk0, users.queued)
  {
    var queued := users.queued;
    forall i | 0 <= i < |queued| ensures Plausible(DiskAfter(disk0, queued[..i]), queued[i]) {
      KnownFollows(disk0, saved0, queued[..i]);
      var saved := SavedAfter(saved0, queued[..i]);
      hide SavedAfter, DiskAfter;
      assert queued[i] in queued;
      if IsSaved(saved, queued[i].username) {
        var k :| 0 <= k < |saved| && saved[k].username == queued[i].username;
        assert NamesOf(saved)[k] == queued[i].username;
      }
    }
  }

  // ---------- The condition ----------

  /** Memory's users after a run are lost if one of them owns the directory. */
  lemma OwnerIsLost(disk0: Disk, saved0: seq<PersistentData>, users: Users, name: string)
    requires Represents(disk0, saved0) && AllPlausible(disk0, users.queued)
    requires Saves(SavedAfter(saved0, users.queued), users)
    requires name in users.byName && Owns(disk0, name)
    ensures Rebuilt(Loaded(DiskAfter(disk0, users.queued).files)) != Persisted(users)
  {
    var i := OwnerIsQueued(disk0, saved0, users, name);
    hide Represents, AllPlausible, Saves, Spoilt, Rebuilt, Loaded;
    OwnerSpoils(disk0, users.queued, i);
    assert disk0.known == NamesOf(saved0) by { RepresentedNames(disk0, saved0); }
    KnownFollows(disk0, saved0, users.queued);
    SpoiltIsLost(DiskAfter(disk0, users.queued), SavedAfter(saved0, users.queued), users);
  }

  lemma RepresentedNames(disk: Disk, saved: seq<PersistentData>)
    requires Represents(disk, saved)
    ensures disk.known == NamesOf(saved) && forall d <- saved :: !Owns(disk, d.username)
  {
    forall d | d in saved ensures !Owns(disk, d.username) {
      assert Holds(disk.files, d);
    }
  }

  lemma OwnerIsQueued(disk0: Disk, saved0: seq<PersistentData>, users: Users, name: string) returns (i: nat)
    requires Represents(disk0, saved0) && Saves(SavedAfter(saved0, users.queued), users)
    requires name in users.byName && Owns(disk0, name)
    ensures i < |users.queued| && users.queued[i].username == name
  {
    RepresentedNames(disk0, saved0);
    assert name in Persisted(users).byName;
    var d := RebuiltIsNamed(SavedAfter(saved0, users.queued), name);
    hide Represents, Saves, Rebuilt;
    i := SavedFrom(saved0, users.queued, d);
  }

  /** A record is an old one or a snapshot. */
  lemma {:induction false} SavedFrom(saved0: seq<PersistentData>, queued: seq<PersistentData>, d: PersistentData)
    returns (i: nat)
    requires d in SavedAfter(saved0, queued) && d !in saved0
    ensures i < |queued| && queued[i] == d
  {
    i := |queued| - 1;
    if queued[i] != d {
      MutatedHas(SavedAfter(saved0, queued[..i]), queued[i], d);
      i := SavedFrom(saved0, queued[..i], d);
    }
  }

  /** With fewer than 2^30 - 2 users, a run survives a restart exactly when each user has a file of their own. */
  lemma RunSurvives(s0: Server, disk0: Disk, events: seq<Event>)
    requires StartedFrom(s0, disk0) && Inv(s0)
    requires StateAfter(s0, events).users.lastId < WORDS / 4 - 2
    ensures var users := StateAfter(s0, events).users;
            Rebuilt(Loaded(DiskAfter(disk0, users.queued).files)) == Persisted(users)
            <==> Apart(disk0.files.place, users.byName.Keys)
  {
    hide Inv, StateAfter, Represents, Loaded, Saves, Restarted, Rebuilt, Persisted, DiskAfter, Apart;
    var users := StateAfter(s0, events).users;
    if Apart(disk0.files.place, users.byName.Keys) {
      RunIsKept(s0, disk0, events);
    } else {
      RunIsLost(s0, disk0, events);
    }
  }

  lemma RunIsKept(s0: Server, disk0: Disk, events: seq<Event>)
    requires StartedFrom(s0, disk0) && Inv(s0)
    requires StateAfter(s0, events).users.lastId < WORDS / 4 - 2
    requires Apart(disk0.files.place, StateAfter(s0, events).users.byName.Keys)
    ensures var users := StateAfter(s0, events).users;
            Rebuilt(Loaded(DiskAfter(disk0, users.queued).files)) == Persisted(users)
  {
    hide Inv, StateAfter, Represents, Loaded, Restarted, Rebuilt, Persisted, DiskAfter, Apart;
    var saved0, users := Loaded(disk0.files), StateAfter(s0, events).users;
    RunIsKeepable(s0, disk0, events);
    QueueSavesRun(s0, events, saved0);
    DiskFollows(disk0, saved0, users.queued, users.byName.Keys);
    LoadRepresents(DiskAfter(disk0, users.queued), SavedAfter(saved0, users.queued));
  }

  lemma RunIsLost(s0: Server, disk0: Disk, events: seq<Event>)
    requires StartedFrom(s0, disk0) && Inv(s0)
    requires !Apart(disk0.files.place, StateAfter(s0, events).users.byName.Keys)
    ensures var users := StateAfter(s0, events).users;
            Rebuilt(Loaded(DiskAfter(disk0, users.queued).files)) != Persisted(users)
  {
    var saved0, users := Loaded(disk0.files), StateAfter(s0, events).users;
    var files := DiskAfter(disk0, users.queued).files;
    StartNames(s0, disk0);
    RunQueue(s0, events);
    QueueSavesRun(s0, events, saved0);
    RunFollows(s0, events, saved0);
    InvIdentities(StateAfter(s0, events));
    hide Inv, StateAfter, Loaded, Saves, Restarted, Rebuilt, Persisted, DiskAfter, QueueKnown, Identities, FollowGraph, Represents;
    if a, b :| a in users.byName && b in users.byName && a != b && files.place(a) == files.place(b) {
      SharedIsLost(files, users, a, b);
    } else {
      var name :| name in users.byName && (files.place(name) == None || files.place(name) == Some(DIRECTORY));
      if files.place(name) == None {
        UnopenedIsLost(files, users, name);
      } else {
        RepresentedNames(disk0, saved0);
        RunIsPlausible(disk0, saved0, users);
        OwnerIsLost(disk0, saved0, users, name);
      }
    }
  }

  /** The id of a new user whose file could not be opened is given to somebody else after the restart. */
  lemma LostIdIsReissued(disk: Disk, saved: seq<PersistentData>, users: Users, lost: string, next: string)
    requires Represents(disk, saved) && Saves(saved, users) && Identities(users) && IsInt(users.lastId + 1)
    requires IsValidUsername(lost) && lost !in users.byName && next !in users.byName && disk.files.place(lost).None?
    ensures var data := PersistentData(users.lastId + 1, lost, []);
            var restarted := Rebuilt(Loaded(Updated(disk, data).files));
            && Registered(users, lost).queued == users.queued + [data]
            && IdOf(Registered(restarted, next), next) == IdOf(Registered(users, lost), lost)
  {
    var data := PersistentData(users.lastId + 1, lost, []);
    assert lost !in disk.known && forall d <- saved :: d.id != data.id by {
      RepresentedNames(disk, saved);
      SavedAreUsers(saved, users);
    }
    NewUserIsKept(disk, saved, data.id, lost);
    assert Rebuilt(saved) == Persisted(users);
    hide Saves, Rebuilt, Loaded, Represents, IsValidUsername, Identities, Updated, Registered, Persisted;
  }

  lemma SavedAreUsers(saved: seq<PersistentData>, users: Users)
    requires Saves(saved, users) && Identities(users)
    ensures forall d <- saved :: d.id <= users.lastId && d.username in users.byName
  {
    forall d | d in saved ensures d.id <= users.lastId && d.username in users.byName {
      var i :| 0 <= i < |saved| && saved[i] == d;
      RebuiltHolds(saved, i);
      assert d.username in Persisted(users).byName;
    }
  }
}
