/** What every datagram keeps true of the server. */
module ServerInvariant {
  import opened ServerTypes
  import opened UserConnection
  import opened UserPersistence
  import opened Notification
  import opened ClientMessageHandler
  import opened ServerPayload

  // ---------- The invariant ----------

  /** The pending entries, over all users, that name a notification; each as its user and position. */
  ghost function Entries(users: Users, n: NotificationId): set<(UserId, int)> {
    set u, i | u in users.byId && 0 <= i < |users.byId[u].pending| && users.byId[u].pending[i].notification == n :: (u, i)
  }

  /** The ids in a pending list go up, so no notification waits twice. */
  ghost predicate Increasing(pending: seq<Pending>) {
    forall i, j :: 0 <= i < j < |pending| ==> pending[i].notification < pending[j].notification
  }

  /** Every entry names a stored notification by the same, existing author. */
  ghost predicate Backed(pending: seq<Pending>, users: Users, stored: map<NotificationId, Notification>) {
    forall p <- pending ::
      p.notification in stored && stored[p.notification].author == p.author && p.author in users.byId
  }

  ghost predicate PendingBacked(s: Server) {
    forall u :: u in s.users.byId ==>
      Increasing(s.users.byId[u].pending) && Backed(s.users.byId[u].pending, s.users, s.notes.stored)
  }

  /** Each count is positive and is the number of entries that name the notification. */
  ghost predicate CountsMatch(s: Server) {
    forall n :: n in s.notes.stored ==>
      && n <= s.notes.lastId
      && s.notes.stored[n].pendingUsers > 0
      && s.notes.stored[n].pendingUsers == |Entries(s.users, n)|
  }

  /** A connected user exists, and nothing waits for them. */
  ghost predicate OnlineAreServed(s: Server) {
    forall u :: Online(s.conns, u) ==> u in s.users.byId && PendingOf(s.users, u) == []
  }

  ghost predicate Inv(s: Server) {
    && Agree(s.conns)
    && Identities(s.users)
    && FollowGraph(s.users)
    && OnlineAreServed(s)
    && PendingBacked(s)
    && CountsMatch(s)
  }

  lemma InvAgrees(s: Server)
    requires Inv(s)
    ensures Agree(s.conns)
  {
  }

  // ---------- Adding an entry to many lists ----------

  lemma {:induction false} WithPendingForEach(users: Users, targets: seq<UserId>, p: Pending)
    requires Distinct(targets) && forall u <- targets :: u in users.byId
    ensures var users' := WithPendingFor(users, targets, p);
            && SameButPending(users, users')
            && forall u :: PendingOf(users', u) == PendingOf(users, u) + (if u in targets then [p] else [])
  {
    if targets != [] {
      var front, last := targets[..|targets| - 1], targets[|targets| - 1];
      WithPendingForEach(users, front, p);
      assert last !in front;
      assert forall u :: u in targets <==> u in front || u == last;
    }
  }

  /** One more entry in one list is one more entry for its notification. */
  lemma OneMoreEntry(users: Users, u: UserId, p: Pending, n: NotificationId)
    requires u in users.byId
    ensures |Entries(WithPending(users, u, p), n)| == |Entries(users, n)| + (if n == p.notification then 1 else 0)
  {
    var users' := WithPending(users, u, p);
    var position := |users.byId[u].pending|;
    var expected := Entries(users, n) + (if n == p.notification then {(u, position)} else {});
    forall v, i ensures (v, i) in Entries(users', n) <==> (v, i) in expected {
    }
    assert Entries(users', n) == expected;
    assert (u, position) !in Entries(users, n);
    hide Entries;
  }

  lemma {:induction false} MoreEntries(users: Users, targets: seq<UserId>, p: Pending, n: NotificationId)
    requires Distinct(targets) && forall u <- targets :: u in users.byId
    ensures |Entries(WithPendingFor(users, targets, p), n)|
         == |Entries(users, n)| + (if n == p.notification then |targets| else 0)
  {
    if targets != [] {
      var front, last := targets[..|targets| - 1], targets[|targets| - 1];
      WithPendingForEach(users, front, p);
      MoreEntries(users, front, p, n);
      OneMoreEntry(WithPendingFor(users, front, p), last, p, n);
    }
  }

  // ---------- Fan-out ----------

  /** Only message counters differ. */
  ghost predicate SameSessions(c: Connections, d: Connections) {
    && c.byAddress == d.byAddress
    && c.byUser.Keys == d.byUser.Keys
    && forall u :: u in c.byUser ==> c.byUser[u].one == d.byUser[u].one && c.byUser[u].two == d.byUser[u].two
  }

  lemma SameSessionsKeep(c: Connections, d: Connections)
    requires SameSessions(c, d)
    ensures Agree(c) ==> Agree(d)
    ensures forall u :: SessionsOf(c, u) == SessionsOf(d, u)
  {
    if Agree(c) {
      forall u | u in d.byUser ensures d.byUser[u].one.Some? ==> PointsTo(d, d.byUser[u].one.value, u) {
        assert u in c.byUser;
        assert c.byUser[u].one.Some? ==> PointsTo(c, c.byUser[u].one.value, u);
      }
      forall u | u in d.byUser ensures d.byUser[u].two.Some? ==> PointsTo(d, d.byUser[u].two.value, u) {
        assert u in c.byUser;
        assert c.byUser[u].two.Some? ==> PointsTo(c, c.byUser[u].two.value, u);
      }
      forall a | a in d.byAddress ensures d.byAddress[a] in d.byUser && d.byUser[d.byAddress[a]].Has(a) {
        var u := c.byAddress[a];
        assert u in c.byUser && c.byUser[u].Has(a);
        assert u in d.byUser.Keys && d.byUser[u].Has(a);
      }
    }
  }

  /** The followers found offline are exactly those, each once. */
  lemma {:induction false} FannedOutState(conns: Connections, users: Users, notice: Notice, followers: seq<UserId>)
    requires Distinct(followers) && forall u <- followers :: u in users.byId
    ensures var f := FannedOut(conns, users, notice, followers);
            && SameSessions(conns, f.conns)
            && Distinct(f.offline)
            && forall u :: u in f.offline <==> u in followers && !Online(conns, u)
  {
    if followers != [] {
      var front, last := followers[..|followers| - 1], followers[|followers| - 1];
      FannedOutState(conns, users, notice, front);
      assert last in followers && last !in front;
      assert forall u :: u in followers <==> u in front || u == last;
    }
  }

  // ---------- A message sent ----------

  lemma NotifiedState(s: Server, author: UserId, time: Time, followers: seq<UserId>, message: string)
    requires Distinct(followers) && forall u <- followers :: u in s.users.byId
    requires forall n :: n in s.notes.stored ==> n <= s.notes.lastId
    ensures var s' := Notified(s, author, time, followers, message).0;
            && SameSessions(s.conns, s'.conns)
            && SameButPending(s.users, s'.users)
            && (forall u :: PendingOf(s'.users, u) == PendingOf(s.users, u)
                  + (if u in followers && !Online(s.conns, u) then [Pending(author, s.notes.lastId + 1)] else []))
            && (forall n :: n in s.notes.stored ==> n in s'.notes.stored && s'.notes.stored[n] == s.notes.stored[n])
            && ((exists u :: u in followers && !Online(s.conns, u)) ==>
                  && s'.notes.lastId == s.notes.lastId + 1 && s'.notes.lastId in s'.notes.stored
                  && s'.notes.stored[s'.notes.lastId].author == author
                  && s'.notes.stored[s'.notes.lastId].message == message
                  && s'.notes.stored[s'.notes.lastId].time == time)
  {
    NotifiedUsers(s, author, time, followers, message);
    NotifiedNotes(s, author, time, followers, message);
    hide Notified, SameSessions, SameButPending, Distinct;
  }

  lemma NotifiedUsers(s: Server, author: UserId, time: Time, followers: seq<UserId>, message: string)
    requires Distinct(followers) && forall u <- followers :: u in s.users.byId
    ensures var s' := Notified(s, author, time, followers, message).0;
            && SameSessions(s.conns, s'.conns)
            && SameButPending(s.users, s'.users)
            && forall u :: PendingOf(s'.users, u) == PendingOf(s.users, u)
                 + (if u in followers && !Online(s.conns, u) then [Pending(author, s.notes.lastId + 1)] else [])
  {
    hide Copied, FannedOut, WithPendingFor, SameSessions, Distinct;
    var f := FannedOut(s.conns, s.users, Copied(NameOf(s.users, author), message, time), followers);
    FannedOutState(s.conns, s.users, Copied(NameOf(s.users, author), message, time), followers);
    WithPendingForEach(s.users, f.offline, Pending(author, s.notes.lastId + 1));
  }

  lemma NotifiedNotes(s: Server, author: UserId, time: Time, followers: seq<UserId>, message: string)
    requires Distinct(followers) && forall u <- followers :: u in s.users.byId
    requires forall n :: n in s.notes.stored ==> n <= s.notes.lastId
    ensures var notes := Notified(s, author, time, followers, message).0.notes;
            && (forall n :: n in s.notes.stored ==> n in notes.stored && notes.stored[n] == s.notes.stored[n])
            && ((exists u :: u in followers && !Online(s.conns, u)) ==>
                  && notes.lastId == s.notes.lastId + 1 && notes.lastId in notes.stored
                  && notes.stored[notes.lastId].author == author
                  && notes.stored[notes.lastId].message == message
                  && notes.stored[notes.lastId].time == time)
  {
    hide Copied, FannedOut, WithPendingFor, SameSessions, Distinct;
    FannedOutState(s.conns, s.users, Copied(NameOf(s.users, author), message, time), followers);
  }

  lemma NotifiedCounts(s: Server, author: UserId, time: Time, followers: seq<UserId>, message: string)
    requires Distinct(followers) && forall u <- followers :: u in s.users.byId
    requires CountsMatch(s) && PendingBacked(s)
    ensures CountsMatch(Notified(s, author, time, followers, message).0)
  {
    var s' := Notified(s, author, time, followers, message).0;
    var notice := Copied(NameOf(s.users, author), message, time);
    var f := FannedOut(s.conns, s.users, notice, followers);
    hide Copied, FannedOut;
    FannedOutState(s.conns, s.users, notice, followers);
    var next := s.notes.lastId + 1;
    if f.offline != [] {
      assert Entries(s.users, next) == {} by {
        forall u, i ensures (u, i) !in Entries(s.users, next) {
          if u in s.users.byId && 0 <= i < |s.users.byId[u].pending| {
            assert s.users.byId[u].pending[i] in s.users.byId[u].pending;
          }
        }
      }
      forall n | n in s'.notes.stored ensures s'.notes.stored[n].pendingUsers == |Entries(s'.users, n)| {
        MoreEntries(s.users, f.offline, Pending(author, next), n);
      }
    }
  }

  lemma NotifiedBacked(s: Server, author: UserId, time: Time, followers: seq<UserId>, message: string)
    requires PendingBacked(s) && author in s.users.byId
    requires forall n :: n in s.notes.stored ==> n <= s.notes.lastId
    requires Distinct(followers) && forall u <- followers :: u in s.users.byId
    ensures PendingBacked(Notified(s, author, time, followers, message).0)
  {
    hide Notified, Distinct, Increasing, Backed;
    var s' := Notified(s, author, time, followers, message).0;
    NotifiedState(s, author, time, followers, message);
    var p := Pending(author, s.notes.lastId + 1);
    forall u | u in s'.users.byId
      ensures Increasing(s'.users.byId[u].pending) && Backed(s'.users.byId[u].pending, s'.users, s'.notes.stored)
    {
      var before, after := PendingOf(s.users, u), PendingOf(s'.users, u);
      assert Increasing(before) && Backed(before, s.users, s.notes.stored);
      StillBacked(before, s, s');
      if u in followers && !Online(s.conns, u) {
        OneMoreBacked(before, p, s');
        assert forall i :: 0 <= i < |before| ==> before[i].notification < p.notification by { Earlier(before, s); }
        OneMoreIncreases(before, p);
      } else {
        assert after == before;
      }
    }
  }

  lemma Earlier(pending: seq<Pending>, s: Server)
    requires Backed(pending, s.users, s.notes.stored) && forall n :: n in s.notes.stored ==> n <= s.notes.lastId
    ensures forall i :: 0 <= i < |pending| ==> pending[i].notification < s.notes.lastId + 1
  {
    assert forall i :: 0 <= i < |pending| ==> pending[i] in pending;
  }

  lemma StillBacked(pending: seq<Pending>, s: Server, s': Server)
    requires Backed(pending, s.users, s.notes.stored) && SameButPending(s.users, s'.users)
    requires forall n :: n in s.notes.stored ==> n in s'.notes.stored && s'.notes.stored[n] == s.notes.stored[n]
    ensures Backed(pending, s'.users, s'.notes.stored)
  {
    forall p | p in pending ensures p.author in s'.users.byId {
      assert p.author in s.users.byId.Keys;
    }
  }

  lemma OneMoreBacked(pending: seq<Pending>, p: Pending, s: Server)
    requires Backed(pending, s.users, s.notes.stored) && p.author in s.users.byId
    requires p.notification in s.notes.stored && s.notes.stored[p.notification].author == p.author
    ensures Backed(pending + [p], s.users, s.notes.stored)
  {
  }

  lemma OneMoreIncreases(pending: seq<Pending>, p: Pending)
    requires Increasing(pending) && forall i :: 0 <= i < |pending| ==> pending[i].notification < p.notification
    ensures Increasing(pending + [p])
  {
  }

  lemma NotifiedKeeps(s: Server, author: UserId, time: Time, followers: seq<UserId>, message: string)
    requires Inv(s) && author in s.users.byId
    requires Distinct(followers) && forall u <- followers :: u in s.users.byId
    ensures Inv(Notified(s, author, time, followers, message).0)
  {
    hide Notified, Entries, PendingBacked, Agree, Distinct;
    var s' := Notified(s, author, time, followers, message).0;
    assert forall n :: n in s.notes.stored ==> n <= s.notes.lastId;
    NotifiedState(s, author, time, followers, message);
    NotifiedCounts(s, author, time, followers, message);
    NotifiedBacked(s, author, time, followers, message);
    SameSessionsKeep(s.conns, s'.conns);
    hide Identities, FollowGraph, CountsMatch;
    SameButPendingKeeps(s.users, s'.users);
  }

  // ---------- Pending entries delivered ----------

  ghost predicate Named(entries: seq<Pending>, n: NotificationId) {
    exists i :: 0 <= i < |entries| && entries[i].notification == n
  }

  /** Each named notification has lost one pending user, and is gone if that was the last. */
  ghost predicate CountedDown(before: Notifications, after: Notifications, entries: seq<Pending>) {
    && after.lastId == before.lastId
    && (forall n :: n in after.stored <==> n in before.stored && !(Named(entries, n) && before.stored[n].pendingUsers == 1))
    && (forall n :: n in after.stored ==>
          && SameMessage(before.stored[n], after.stored[n])
          && after.stored[n].pendingUsers == before.stored[n].pendingUsers - (if Named(entries, n) then 1 else 0))
  }

  predicate SameMessage(a: Notification, b: Notification) {
    a.author == b.author && a.time == b.time && a.message == b.message
  }

  lemma DecrementedState(notes: Notifications, n: NotificationId)
    requires n in notes.stored && notes.stored[n].pendingUsers > 0
    ensures CountedDown(notes, Decremented(notes, n), [Pending(0, n)])
  {
    assert [Pending(0, n)][0].notification == n;
  }

  lemma NamedLast(entries: seq<Pending>, n: NotificationId)
    requires entries != []
    ensures Named(entries, n) <==> Named(entries[..|entries| - 1], n) || entries[|entries| - 1].notification == n
  {
    if Named(entries, n) {
      var i :| 0 <= i < |entries| && entries[i].notification == n;
      assert i < |entries| - 1 ==> entries[..|entries| - 1][i].notification == n;
    }
  }

  /** No entry is skipped: the branch for a notification that is gone is never taken. */
  lemma {:induction false} DeliveredState(s: Server, user: UserId, entries: seq<Pending>)
    requires Increasing(entries)
    requires forall p <- entries :: p.notification in s.notes.stored && s.notes.stored[p.notification].pendingUsers > 0
    ensures var s' := Delivered(s, user, entries).0;
            s'.users == s.users && SameSessions(s.conns, s'.conns) && CountedDown(s.notes, s'.notes, entries)
  {
    if entries != [] {
      var front, last := entries[..|entries| - 1], entries[|entries| - 1];
      DeliveredState(s, user, front);
      var t := Delivered(s, user, front).0;
      assert last in entries;
      assert !Named(front, last.notification);
      DecrementedState(t.notes, last.notification);
      CountedDownOnce(s.notes, t.notes, entries);
    }
  }

  /** Counting down by all entries but the last, and then by the last. */
  lemma CountedDownOnce(before: Notifications, middle: Notifications, entries: seq<Pending>)
    requires entries != []
    requires var front, n := entries[..|entries| - 1], entries[|entries| - 1].notification;
             && CountedDown(before, middle, front) && !Named(front, n)
             && n in before.stored && before.stored[n].pendingUsers > 0
    ensures CountedDown(before, Decremented(middle, entries[|entries| - 1].notification), entries)
  {
    hide Named;
    forall n ensures Named(entries, n) <==> Named(entries[..|entries| - 1], n) || entries[|entries| - 1].notification == n {
      NamedLast(entries, n);
    }
  }

  /** Clearing a list takes away one entry for each notification it names. */
  lemma EntriesCleared(users: Users, u: UserId, n: NotificationId)
    requires u in users.byId && Increasing(users.byId[u].pending)
    ensures |Entries(SetPending(users, u, []), n)|
         == |Entries(users, n)| - (if Named(users.byId[u].pending, n) then 1 else 0)
  {
    var pending := users.byId[u].pending;
    var cleared := SetPending(users, u, []);
    if Named(pending, n) {
      var i :| 0 <= i < |pending| && pending[i].notification == n;
      forall v, j ensures (v, j) in Entries(cleared, n) <==> (v, j) in Entries(users, n) - {(u, i)} {
      }
      assert Entries(cleared, n) == Entries(users, n) - {(u, i)};
      assert (u, i) in Entries(users, n);
    } else {
      forall v, j ensures (v, j) in Entries(cleared, n) <==> (v, j) in Entries(users, n) {
      }
      assert Entries(cleared, n) == Entries(users, n);
    }
  }

  // ---------- The handlers ----------

  lemma CountedKeeps(s: Server, u: UserId)
    requires Inv(s)
    ensures Inv(s.(conns := Counted(s.conns, u)))
  {
    hide Agree, Identities, FollowGraph, PendingBacked, Entries, CountsMatch;
    CountedAgrees(s.conns, u);
    var s' := s.(conns := Counted(s.conns, u));
    assert PendingBacked(s') && CountsMatch(s') by { SameUsersAndNotes(s, s'); }
  }

  lemma SameUsersAndNotes(s: Server, s': Server)
    requires s.users == s'.users && s.notes == s'.notes
    ensures PendingBacked(s) ==> PendingBacked(s')
    ensures CountsMatch(s) ==> CountsMatch(s')
  {
  }

  lemma SendKeeps(s: Server, a: Address, body: string, now: Time)
    requires Inv(s)
    ensures Inv(HandleSend(s, a, body, now).0)
  {
    hide Notified, Entries, PendingBacked, CountsMatch;
    var user := UserAt(s.conns, a);
    if user != INVALID_ID {
      assert Online(s.conns, user);
      CountedKeeps(s, user);
      var followers := FollowersOf(s.users, user);
      if IsValidMessage(body) && |followers| > 0 {
        NotifiedKeeps(s.(conns := Counted(s.conns, user)), user, now, followers, body);
      }
    }
  }

  /** Users may be added, and follow lists may grow, as long as nothing waits for the new ones. */
  lemma SamePendingKeeps(s: Server, s': Server)
    requires s'.notes == s.notes
    requires forall u :: u in s.users.byId ==> u in s'.users.byId && s'.users.byId[u].pending == s.users.byId[u].pending
    requires forall u :: u in s'.users.byId && u !in s.users.byId ==> s'.users.byId[u].pending == []
    ensures PendingBacked(s) ==> PendingBacked(s')
    ensures CountsMatch(s) ==> CountsMatch(s')
  {
    forall n ensures Entries(s.users, n) == Entries(s'.users, n) {
    }
  }

  lemma FollowKeeps(s: Server, a: Address, username: string)
    requires Inv(s)
    ensures Inv(HandleFollow(s, a, username).0)
  {
    hide Entries, PendingBacked, CountsMatch;
    var follower := UserAt(s.conns, a);
    if follower != INVALID_ID {
      assert Online(s.conns, follower);
      CountedAgrees(s.conns, follower);
      var s' := HandleFollow(s, a, username).0;
      var followed := IdOf(s.users, username);
      if followed != INVALID_ID && NameOf(s.users, follower) != username {
        FollowedKeeps(s.users, followed, follower);
        FollowedPending(s.users, followed, follower);
      }
      SamePendingKeeps(s, s');
      hide Agree, Identities, FollowGraph, Followed, Counted, HandleFollow;
    }
  }

  lemma FollowedPending(users: Users, followed: UserId, follower: UserId)
    ensures Followed(users, followed, follower).byId.Keys == users.byId.Keys
    ensures forall u :: u in users.byId ==> Followed(users, followed, follower).byId[u].pending == users.byId[u].pending
  {
  }

  lemma LogoutKeeps(s: Server, a: Address)
    requires Inv(s)
    ensures Inv(HandleLogout(s, a).0)
  {
    hide Entries, PendingBacked, CountsMatch, Identities, FollowGraph;
    RemovedAgrees(s.conns, a);
    SameUsersAndNotes(s, HandleLogout(s, a).0);
    hide Agree;
  }

  lemma RegisteredInv(s: Server, username: string)
    requires Inv(s)
    ensures Inv(s.(users := Registered(s.users, username)))
    ensures IdOf(Registered(s.users, username), username) in Registered(s.users, username).byId
  {
    hide Entries, PendingBacked, CountsMatch, Registered, Agree;
    RegisteredKeeps(s.users, username);
    var users' := Registered(s.users, username);
    assert forall u :: u in users'.byId && u !in s.users.byId ==> PendingOf(users', u) == [];
    SamePendingKeeps(s, s.(users := users'));
    hide Identities, FollowGraph;
  }

  /** Clearing a user's list and counting its notifications down leaves every other list backed and every count right. */
  lemma ClearedKeeps(s: Server, s': Server, u: UserId)
    requires PendingBacked(s) && CountsMatch(s) && u in s.users.byId
    requires s'.users == SetPending(s.users, u, [])
    requires CountedDown(s.notes, s'.notes, s.users.byId[u].pending)
    ensures PendingBacked(s') && CountsMatch(s')
  {
    var pending := s.users.byId[u].pending;
    hide Entries, Named;
    forall n | n in s'.notes.stored
      ensures s'.notes.stored[n].pendingUsers > 0 && s'.notes.stored[n].pendingUsers == |Entries(s'.users, n)|
    {
      EntriesCleared(s.users, u, n);
    }
    forall v | v in s'.users.byId
      ensures Increasing(s'.users.byId[v].pending) && Backed(s'.users.byId[v].pending, s'.users, s'.notes.stored)
    {
      if v != u {
        OthersStayBacked(s, s', u, v);
      }
    }
  }

  lemma OthersStayBacked(s: Server, s': Server, u: UserId, v: UserId)
    requires PendingBacked(s) && CountsMatch(s) && u in s.users.byId && v in s.users.byId && u != v
    requires s'.users == SetPending(s.users, u, [])
    requires CountedDown(s.notes, s'.notes, s.users.byId[u].pending)
    ensures Backed(s.users.byId[v].pending, s'.users, s'.notes.stored)
  {
    hide Increasing, Named;
    forall p | p in s.users.byId[v].pending ensures p.notification in s'.notes.stored {
      var n := p.notification;
      var i :| 0 <= i < |s.users.byId[v].pending| && s.users.byId[v].pending[i] == p;
      EntriesCleared(s.users, u, n);
      assert (v, i) in Entries(s'.users, n);
      assert |Entries(s'.users, n)| > 0;
    }
  }

  lemma KnownAddress(s: Server, a: Address)
    requires Inv(s)
    ensures a in s.conns.byAddress <==> UserAt(s.conns, a) != INVALID_ID
    ensures a in s.conns.byAddress ==> Online(s.conns, UserAt(s.conns, a)) && UserAt(s.conns, a) in s.users.byId
  {
    assert a in s.conns.byAddress ==> Online(s.conns, s.conns.byAddress[a]);
  }

  /** The state a successful login of a newly connected user ends in. */
  lemma FirstLoginKeeps(s: Server, user: UserId, a: Address)
    requires Inv(s) && user in s.users.byId && !Online(s.conns, user) && UserAt(s.conns, a) == INVALID_ID
    ensures var conns := Added(s.conns, user, a);
            var drained := Server(Counted(conns, user), SetPending(s.users, user, []), s.notes);
            Inv(Delivered(drained, user, PendingOf(s.users, user)).0)
  {
    hide Delivered, Entries, Added, Counted, Agree, Identities, FollowGraph, PendingBacked, CountsMatch;
    var conns := Added(s.conns, user, a);
    var drained := Server(Counted(conns, user), SetPending(s.users, user, []), s.notes);
    var s' := Delivered(drained, user, PendingOf(s.users, user)).0;
    FirstSessionAgrees(s, user, a);
    EntriesAreStored(s, user);
    DeliveredState(drained, user, PendingOf(s.users, user));
    ClearedKeeps(s, s', user);
    SameSessionsKeep(drained.conns, s'.conns);
    SameButPendingKeeps(s.users, s'.users);
    hide OnlineAreServed, SetPending, CountedDown, PendingOf, SameSessions;
  }

  lemma EntriesAreStored(s: Server, user: UserId)
    requires PendingBacked(s) && CountsMatch(s)
    ensures Increasing(PendingOf(s.users, user))
    ensures forall p <- PendingOf(s.users, user) ::
              p.notification in s.notes.stored && s.notes.stored[p.notification].pendingUsers > 0
  {
  }

  lemma FirstSessionAgrees(s: Server, user: UserId, a: Address)
    requires Inv(s) && user in s.users.byId && !Online(s.conns, user) && UserAt(s.conns, a) == INVALID_ID
    ensures var c := Counted(Added(s.conns, user, a), user);
            Agree(c) && forall u :: Online(c, u) <==> u == user || Online(s.conns, u)
  {
    KnownAddress(s, a);
    AddedAgrees(s.conns, user, a);
    CountedAgrees(Added(s.conns, user, a), user);
    hide Agree, Counted, Added;
  }

  lemma LoginKeeps(s: Server, a: Address, username: string)
    requires Inv(s)
    ensures Inv(HandleLogin(s, a, username).0)
  {
    hide Delivered, Entries, Registered, PendingBacked, CountsMatch;
    if IsValidUsername(username) {
      RegisteredInv(s, username);
      var users := Registered(s.users, username);
      var user := IdOf(users, username);
      var registered := s.(users := users);
      if !Online(s.conns, user) {
        if UserAt(s.conns, a) == INVALID_ID {
          FirstLoginKeeps(registered, user, a);
        }
      } else if s.conns.byUser[user].Available() && (UserAt(s.conns, a) == INVALID_ID || UserAt(s.conns, a) == user) {
        KnownAddress(s, a);
        AddedAgrees(s.conns, user, a);
        var connected := registered.(conns := Added(s.conns, user, a));
        SameUsersAndNotes(registered, connected);
        hide Agree, Identities, FollowGraph;
        CountedKeeps(connected, user);
      }
    }
  }

  /** Every datagram keeps the invariant. */
  lemma HandleKeeps(s: Server, e: Event)
    requires Inv(s)
    ensures Inv(Handle(s, e).0)
  {
    hide HandleLogin, HandleLogout, HandleSend, HandleFollow;
    match e.message
    case Login(username) => LoginKeeps(s, e.address, username);
    case Logout => LogoutKeeps(s, e.address);
    case Send(body) => SendKeeps(s, e.address, body, e.now);
    case Follow(username) => FollowKeeps(s, e.address, username);
    case Invalid =>
  }
}
