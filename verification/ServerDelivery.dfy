/** What a datagram delivers: every accepted message reaches each follower once, at once or when they next connect. */
module ServerDelivery {
  import opened Sequences
  import opened ServerTypes
  import opened UserConnection
  import opened UserPersistence
  import opened Notification
  import opened ClientMessageHandler
  import opened ServerPayload
  import opened ServerInvariant

  // ---------- What reaches a user, what waits, and what should ----------

  /** The messages of others that these actions bring to a user, in order. */
  function NoticesFor(actions: seq<Action>, u: UserId): seq<Notice> {
    Flat(actions, action => NoticeIn(action, u))
  }

  lemma NothingFrom(u: UserId)
    ensures NoticesFor([], u) == []
  {
  }

  lemma NoNotice(actions: seq<Action>, u: UserId)
    requires |actions| == 1 && NoticeIn(actions[0], u) == []
    ensures NoticesFor(actions, u) == []
  {
    FlatOne(actions[0], action => NoticeIn(action, u));
    assert actions == [actions[0]];
  }

  lemma OneMoreAction(actions: seq<Action>, action: Action, u: UserId)
    ensures NoticesFor(actions + [action], u) == NoticesFor(actions, u) + NoticeIn(action, u)
  {
    assert (actions + [action])[..|actions|] == actions;
  }

  function NoticeIn(action: Action, u: UserId): seq<Notice> {
    if action.MessageUser? && action.user == u && action.message.kind == ServerSendCommand && action.message.payload.Carried?
    then [action.message.payload.notice]
    else []
  }

  /** The messages behind a user's pending list, in order. */
  function Waiting(s: Server, u: UserId): seq<Notice> {
    Behind(s, PendingOf(s.users, u))
  }

  function Behind(s: Server, pending: seq<Pending>): seq<Notice> {
    Flat(pending, p => Stored(s, p))
  }

  function Stored(s: Server, p: Pending): seq<Notice> {
    if p.notification !in s.notes.stored then []
    else [Copied(NameOf(s.users, p.author), s.notes.stored[p.notification].message, s.notes.stored[p.notification].time)]
  }

  /** A datagram is an accepted send when a connected user sends a well-formed body. */
  predicate IsAcceptedSend(s: Server, e: Event) {
    e.message.Send? && UserAt(s.conns, e.address) != INVALID_ID && IsValidMessage(e.message.body)
  }

  /** What the datagram should bring to a user: its message, if the user follows its sender. */
  function Due(s: Server, e: Event, u: UserId): seq<Notice> {
    if IsAcceptedSend(s, e) && u in FollowersOf(s.users, UserAt(s.conns, e.address))
    then [Copied(NameOf(s.users, UserAt(s.conns, e.address)), e.message.body, e.now)]
    else []
  }

  // ---------- Pending lists that do not change ----------

  /** The messages behind a list depend on the stored texts and the authors' names only. */
  lemma {:induction false} SameBehind(s: Server, s': Server, pending: seq<Pending>)
    requires forall p <- pending ::
               && p.notification in s.notes.stored && p.notification in s'.notes.stored
               && SameMessage(s.notes.stored[p.notification], s'.notes.stored[p.notification])
               && NameOf(s.users, p.author) == NameOf(s'.users, p.author)
    ensures Behind(s, pending) == Behind(s', pending)
  {
    if pending != [] {
      assert pending[|pending| - 1] in pending;
      SameBehind(s, s', pending[..|pending| - 1]);
    }
  }

  lemma SameWaiting(s: Server, s': Server, u: UserId)
    requires PendingBacked(s) && s'.notes == s.notes && PendingOf(s'.users, u) == PendingOf(s.users, u)
    requires forall v :: v in s.users.byId ==> NameOf(s'.users, v) == NameOf(s.users, v)
    ensures Waiting(s', u) == Waiting(s, u)
  {
    SameBehind(s, s', PendingOf(s.users, u));
  }

  // ---------- A message sent ----------

  /** Fan-out brings the message to each follower online, and to nobody else. */
  lemma {:induction false} FannedOutNotices(conns: Connections, users: Users, notice: Notice, followers: seq<UserId>, u: UserId)
    requires Distinct(followers) && forall v <- followers :: v in users.byId
    ensures NoticesFor(FannedOut(conns, users, notice, followers).actions, u)
         == if u in followers && Online(conns, u) then [notice] else []
  {
    hide NoticesFor, Flat;
    NothingFrom(u);
    if followers != [] {
      var front, last := followers[..|followers| - 1], followers[|followers| - 1];
      FannedOutNotices(conns, users, notice, front, u);
      FannedOutState(conns, users, notice, front);
      assert last !in front && (u in followers <==> u in front || u == last);
      hide Distinct;
      var f := FannedOut(conns, users, notice, front);
      if Online(f.conns, last) {
        var message := MessageData(NextMsgId(f.conns, last), ServerSendCommand, Carried(notice));
        OneMoreAction(f.actions, MessageUser(last, message), u);
        assert u == last ==> NoticeIn(MessageUser(last, message), u) == [notice];
        assert u != last ==> NoticeIn(MessageUser(last, message), u) == [];
        hide NoticeIn;
      }
    }
  }

  /** A follower offline has the message behind one more entry. */
  lemma NotifiedWaiting(s: Server, author: UserId, time: Time, followers: seq<UserId>, message: string, u: UserId)
    requires PendingBacked(s) && forall n :: n in s.notes.stored ==> n <= s.notes.lastId
    requires Distinct(followers) && forall v <- followers :: v in s.users.byId
    ensures Waiting(Notified(s, author, time, followers, message).0, u)
         == Waiting(s, u) + (if u in followers && !Online(s.conns, u) then [Copied(NameOf(s.users, author), message, time)] else [])
  {
    hide Notified, Distinct, PendingBacked, Copied;
    var s' := Notified(s, author, time, followers, message).0;
    NotifiedState(s, author, time, followers, message);
    SameButPendingKeeps(s.users, s'.users);
    var before, after := PendingOf(s.users, u), PendingOf(s'.users, u);
    assert Backed(before, s.users, s.notes.stored) by { EntriesBacked(s, u); }
    SameBehind(s, s', before);
    if u in followers && !Online(s.conns, u) {
      assert after == before + [Pending(author, s.notes.lastId + 1)];
      assert after[..|after| - 1] == before;
    } else {
      assert after == before;
    }
  }

  lemma EntriesBacked(s: Server, u: UserId)
    requires PendingBacked(s)
    ensures Backed(PendingOf(s.users, u), s.users, s.notes.stored) && Increasing(PendingOf(s.users, u))
  {
  }

  lemma SendDelivers(s: Server, e: Event, u: UserId)
    requires Inv(s) && e.message.Send?
    ensures var r := HandleSend(s, e.address, e.message.body, e.now);
            NoticesFor(r.1, u) + Waiting(r.0, u) == Waiting(s, u) + Due(s, e, u)
  {
    hide Notified, Entries, Waiting, NoticesFor, Flat, Copied;
    NothingFrom(u);
    var author := UserAt(s.conns, e.address);
    var r := HandleSend(s, e.address, e.message.body, e.now);
    if author != INVALID_ID {
      var counted := s.(conns := Counted(s.conns, author));
      SameWaiting(s, counted, u);
      var followers := FollowersOf(s.users, author);
      if IsValidMessage(e.message.body) && |followers| > 0 {
        AcceptedDelivers(s, author, e.now, e.message.body, u);
      } else {
        NoNotice(r.1, u);
      }
    }
  }

  /** The notices of a message and its reply. */
  lemma AcceptedDelivers(s: Server, author: UserId, now: Time, body: string, u: UserId)
    requires Inv(s) && author in s.users.byId
    ensures var counted := s.(conns := Counted(s.conns, author));
            var followers := FollowersOf(s.users, author);
            var r := Notified(counted, author, now, followers, body);
            var reply := MessageUser(author, MessageData(NextMsgId(s.conns, author), SendCommandSuccess, Empty));
            NoticesFor(r.1 + [reply], u) + Waiting(r.0, u)
            == Waiting(s, u) + (if u in followers then [Copied(NameOf(s.users, author), body, now)] else [])
  {
    hide Entries, Agree, Waiting, NoticesFor, Notified, Counted, FollowGraph, Identities, PendingBacked, CountsMatch, Copied;
    AcceptedNotices(s, author, now, body, u);
    AcceptedWaiting(s, author, now, body, u);
    NothingWaits(s, u);
  }

  lemma AcceptedNotices(s: Server, author: UserId, now: Time, body: string, u: UserId)
    requires FollowGraph(s.users) && author in s.users.byId
    ensures var counted := s.(conns := Counted(s.conns, author));
            var followers := FollowersOf(s.users, author);
            var reply := MessageUser(author, MessageData(NextMsgId(s.conns, author), SendCommandSuccess, Empty));
            NoticesFor(Notified(counted, author, now, followers, body).1 + [reply], u)
            == if u in followers && Online(s.conns, u) then [Copied(NameOf(s.users, author), body, now)] else []
  {
    hide NoticesFor, FannedOut, WithPendingFor, Distinct, Copied;
    var counted := s.(conns := Counted(s.conns, author));
    var followers := FollowersOf(s.users, author);
    var notice := Copied(NameOf(s.users, author), body, now);
    var reply := MessageUser(author, MessageData(NextMsgId(s.conns, author), SendCommandSuccess, Empty));
    FannedOutNotices(counted.conns, s.users, notice, followers, u);
    OneMoreAction(Notified(counted, author, now, followers, body).1, reply, u);
  }

  lemma AcceptedWaiting(s: Server, author: UserId, now: Time, body: string, u: UserId)
    requires Inv(s) && author in s.users.byId
    ensures var counted := s.(conns := Counted(s.conns, author));
            var followers := FollowersOf(s.users, author);
            Waiting(Notified(counted, author, now, followers, body).0, u)
            == Waiting(s, u)
               + if u in followers && !Online(s.conns, u) then [Copied(NameOf(s.users, author), body, now)] else []
  {
    hide Notified, Entries, Agree, Waiting, Distinct;
    var counted := s.(conns := Counted(s.conns, author));
    SameWaiting(s, counted, u);
    NotifiedWaiting(counted, author, now, FollowersOf(s.users, author), body, u);
  }

  lemma NothingWaits(s: Server, u: UserId)
    requires OnlineAreServed(s)
    ensures Online(s.conns, u) ==> Waiting(s, u) == []
  {
  }

  // ---------- A user connected ----------

  /** Delivering a pending list brings exactly the messages behind it, in order, to the user and to nobody else. */
  lemma {:induction false} DeliveredNotices(s: Server, user: UserId, entries: seq<Pending>, u: UserId)
    requires Increasing(entries)
    requires forall p <- entries :: p.notification in s.notes.stored && s.notes.stored[p.notification].pendingUsers > 0
    ensures NoticesFor(Delivered(s, user, entries).1, u) == if u == user then Behind(s, entries) else []
  {
    if entries != [] {
      var front, last := entries[..|entries| - 1], entries[|entries| - 1];
      DeliveredNotices(s, user, front, u);
      DeliveredState(s, user, front);
      assert last in entries;
      assert !Named(front, last.notification);
      var actions, actions' := Delivered(s, user, front).1, Delivered(s, user, entries).1;
      hide NoticesFor, Named, Increasing;
      OneMoreAction(actions, actions'[|actions|], u);
      assert actions' == actions + [actions'[|actions|]];
    }
  }

  lemma FirstLoginDelivers(s: Server, user: UserId, a: Address, u: UserId)
    requires Inv(s) && user in s.users.byId && !Online(s.conns, user) && UserAt(s.conns, a) == INVALID_ID
    ensures var conns := Added(s.conns, user, a);
            var drained := Server(Counted(conns, user), SetPending(s.users, user, []), s.notes);
            var r := Delivered(drained, user, PendingOf(s.users, user));
            NoticesFor(r.1, u) + Waiting(r.0, u) == Waiting(s, u)
  {
    hide Delivered, Added, Counted, Agree, Identities, FollowGraph, PendingBacked, CountsMatch, Entries, NoticesFor, Copied;
    var conns := Added(s.conns, user, a);
    var drained := Server(Counted(conns, user), SetPending(s.users, user, []), s.notes);
    var pending := PendingOf(s.users, user);
    var r := Delivered(drained, user, pending);
    EntriesAreStored(s, user);
    DeliveredNotices(drained, user, pending, u);
    DeliveredState(drained, user, pending);
    EntriesBacked(s, user);
    if u == user {
      SameBehind(s, drained, pending);
    } else {
      OthersStillWait(s, r.0, user, u);
    }
  }

  lemma OthersStillWait(s: Server, s': Server, user: UserId, u: UserId)
    requires PendingBacked(s) && CountsMatch(s) && user in s.users.byId && u != user
    requires s'.users == SetPending(s.users, user, [])
    requires CountedDown(s.notes, s'.notes, s.users.byId[user].pending)
    ensures Waiting(s', u) == Waiting(s, u)
  {
    hide Named, Entries, CountsMatch, Copied;
    if u in s.users.byId {
      OthersStayBacked(s, s', user, u);
      SameBehind(s, s', s.users.byId[u].pending);
    }
  }

  lemma LoginDelivers(s: Server, a: Address, username: string, u: UserId)
    requires Inv(s)
    ensures var r := HandleLogin(s, a, username);
            NoticesFor(r.1, u) + Waiting(r.0, u) == Waiting(s, u)
  {
    hide Delivered, Entries, Registered, Added, PendingBacked, CountsMatch, Waiting, Agree, FollowGraph;
    if IsValidUsername(username) {
      var users := Registered(s.users, username);
      var user := IdOf(users, username);
      var registered := s.(users := users);
      RegisteredInv(s, username);
      RegisteredWaits(s, username, u);
      var r := HandleLogin(s, a, username);
      if !Online(s.conns, user) && UserAt(s.conns, a) == INVALID_ID {
        FirstLoginDelivers(registered, user, a, u);
        var reply := MessageAddress(a, MessageData(NextMsgId(Added(s.conns, user, a), user), LoginSuccess, Empty));
        var drained := Server(Counted(Added(s.conns, user, a), user), SetPending(users, user, []), s.notes);
        var rest := Delivered(drained, user, PendingOf(users, user)).1;
        FlatAppend([reply], rest, action => NoticeIn(action, u));
      } else {
        KnownAddress(s, a);
        NoNotice(r.1, u);
        SameWaiting(registered, r.0, u);
      }
    } else {
      NoNotice(HandleLogin(s, a, username).1, u);
    }
  }

  lemma RegisteredWaits(s: Server, username: string, u: UserId)
    requires Inv(s)
    ensures Waiting(s.(users := Registered(s.users, username)), u) == Waiting(s, u)
  {
    hide Registered, Entries, CountsMatch, Agree;
    RegisteredKeeps(s.users, username);
    SameWaiting(s, s.(users := Registered(s.users, username)), u);
  }

  lemma FollowDelivers(s: Server, a: Address, username: string, u: UserId)
    requires Inv(s)
    ensures var r := HandleFollow(s, a, username);
            NoticesFor(r.1, u) == [] && Waiting(r.0, u) == Waiting(s, u)
  {
    hide Entries, CountsMatch, Waiting;
    var follower := UserAt(s.conns, a);
    var r := HandleFollow(s, a, username);
    if follower != INVALID_ID {
      var followed := IdOf(s.users, username);
      if followed != INVALID_ID && NameOf(s.users, follower) != username {
        FollowedKeeps(s.users, followed, follower);
        hide Followed;
      }
      NoNotice(r.1, u);
      SameWaiting(s, r.0, u);
    }
  }

  /** What a datagram delivers to a user, followed by what then waits, is what waited followed by what is due. */
  lemma HandleDelivers(s: Server, e: Event, u: UserId)
    requires Inv(s)
    ensures var r := Handle(s, e);
            NoticesFor(r.1, u) + Waiting(r.0, u) == Waiting(s, u) + Due(s, e, u)
  {
    hide HandleLogin, HandleSend, HandleFollow, Removed, Waiting, NoticesFor;
    NothingFrom(u);
    match e.message
    case Login(username) => LoginDelivers(s, e.address, username, u);
    case Logout => SameWaiting(s, Handle(s, e).0, u);
    case Send(body) => SendDelivers(s, e, u);
    case Follow(username) => FollowDelivers(s, e.address, username, u);
    case Invalid =>
  }
}
