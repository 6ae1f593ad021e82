/** Message ids: while a user is connected, the messages issued for them are numbered without a gap. */
module ServerMessageIds {
  import opened Sequences
  import opened ServerTypes
  import opened UserConnection
  import opened UserPersistence
  import opened Notification
  import opened ClientMessageHandler
  import opened ServerPayload
  import opened ServerInvariant

  /** The ids of the messages issued for a user: those addressed to the user, and the replies to their logins. */
  function IdsFor(conns: Connections, actions: seq<Action>, u: UserId): seq<int> {
    Flat(actions, action => IdIn(conns, action, u))
  }

  function IdIn(conns: Connections, action: Action, u: UserId): seq<int> {
    match action
    case MessageUser(user, message) => if user == u then [message.id] else []
    case MessageAddress(a, message) => if message.kind == LoginSuccess && UserAt(conns, a) == u then [message.id] else []
  }

  /** first, first + 1, ..., last */
  function Numbers(first: int, last: int): seq<int>
    decreases last - first
  {
    if last < first then [] else Numbers(first, last - 1) + [last]
  }

  function LastId(c: Connections, u: UserId): nat {
    if u in c.byUser then c.byUser[u].lastMsgId else 0
  }

  lemma {:induction false} NumbersAppend(first: int, middle: int, last: int)
    requires first - 1 <= middle <= last
    ensures Numbers(first, middle) + Numbers(middle + 1, last) == Numbers(first, last)
    decreases last - middle
  {
    if middle < last {
      NumbersAppend(first, middle, last - 1);
      assert Numbers(middle + 1, last) == Numbers(middle + 1, last - 1) + [last];
      assert Numbers(first, last) == Numbers(first, last - 1) + [last];
      hide Numbers;
    } else {
      assert Numbers(middle + 1, last) == [];
      hide Numbers;
    }
  }

  lemma NumbersNext(first: int, last: int)
    requires first - 1 <= last
    ensures Numbers(first, last + 1) == Numbers(first, last) + [last + 1]
  {
  }

  lemma NumbersOne(n: int)
    ensures Numbers(n, n) == [n] && Numbers(n + 1, n) == []
  {
  }

  // ---------- The actions of the handlers, taken apart ----------

  lemma IdsNone(conns: Connections, u: UserId)
    ensures IdsFor(conns, [], u) == []
  {
  }

  lemma IdsOne(conns: Connections, action: Action, u: UserId)
    ensures IdsFor(conns, [action], u) == IdIn(conns, action, u)
  {
    FlatOne(action, x => IdIn(conns, x, u));
  }

  lemma IdsAppend(conns: Connections, actions: seq<Action>, more: seq<Action>, u: UserId)
    ensures IdsFor(conns, actions + more, u) == IdsFor(conns, actions, u) + IdsFor(conns, more, u)
  {
    FlatAppend(actions, more, x => IdIn(conns, x, u));
  }

  /** Nothing but messages for users. */
  predicate ToUsers(actions: seq<Action>) {
    forall i :: 0 <= i < |actions| ==> actions[i].MessageUser?
  }

  /** The next id goes to each follower online. */
  lemma {:induction false} FannedOutIds(
      conns: Connections, users: Users, notice: Notice, followers: seq<UserId>, c: Connections, u: UserId)
    requires Distinct(followers) && forall v <- followers :: v in users.byId
    ensures var f := FannedOut(conns, users, notice, followers);
            && ToUsers(f.actions)
            && IdsFor(c, f.actions, u) == (if u in followers && Online(conns, u) then [LastId(conns, u) + 1] else [])
            && LastId(f.conns, u) == LastId(conns, u) + (if u in followers && Online(conns, u) then 1 else 0)
  {
    hide IdsFor, Flat;
    IdsNone(c, u);
    if followers != [] {
      var front, last := followers[..|followers| - 1], followers[|followers| - 1];
      FannedOutIds(conns, users, notice, front, c, u);
      FannedOutState(conns, users, notice, front);
      assert last !in front && (u in followers <==> u in front || u == last);
      hide Distinct;
      var f := FannedOut(conns, users, notice, front);
      if Online(f.conns, last) {
        var action := MessageUser(last, MessageData(NextMsgId(f.conns, last), ServerSendCommand, Carried(notice)));
        IdsAppend(c, f.actions, [action], u);
        IdsOne(c, action, u);
      }
    }
  }

  /** The following ids go to the user, one for each entry. */
  lemma {:induction false} DeliveredIds(s: Server, user: UserId, entries: seq<Pending>, c: Connections, u: UserId)
    requires Increasing(entries) && Online(s.conns, user)
    requires forall p <- entries :: p.notification in s.notes.stored && s.notes.stored[p.notification].pendingUsers > 0
    ensures var r := Delivered(s, user, entries);
            && ToUsers(r.1)
            && LastId(r.0.conns, u) == LastId(s.conns, u) + (if u == user then |entries| else 0)
            && IdsFor(c, r.1, u)
            == if u == user then Numbers(LastId(s.conns, u) + 1, LastId(s.conns, u) + |entries|) else []
  {
    hide IdsFor, Flat, Numbers;
    IdsNone(c, u);
    NumbersOne(LastId(s.conns, u));
    if entries != [] {
      var front, last := entries[..|entries| - 1], entries[|entries| - 1];
      DeliveredIds(s, user, front, c, u);
      DeliveredState(s, user, front);
      assert last in entries;
      assert !Named(front, last.notification);
      hide Named, CountedDown, Increasing, Decremented;
      var t := Delivered(s, user, front).0;
      var actions, actions' := Delivered(s, user, front).1, Delivered(s, user, entries).1;
      var action := actions'[|actions|];
      IdsAppend(c, actions, [action], u);
      IdsOne(c, action, u);
      NumbersNext(LastId(s.conns, u) + 1, LastId(s.conns, u) + |front|);
    }
  }

  // ---------- The handlers ----------

  /** After a datagram, the ids it issued for a user connected are the next ones, and none is issued for anyone else. */
  ghost predicate IdsFollow(s: Server, s': Server, actions: seq<Action>, u: UserId) {
    IdsFor(s'.conns, actions, u)
    == if Online(s'.conns, u) then Numbers(LastId(s.conns, u) + 1, LastId(s'.conns, u)) else []
  }

  /** Ids never go back while a user stays connected. */
  ghost predicate IdsGrow(s: Server, s': Server, u: UserId) {
    Online(s'.conns, u) ==> LastId(s.conns, u) <= LastId(s'.conns, u)
  }

  lemma FollowIds(s: Server, a: Address, username: string, u: UserId)
    requires Inv(s)
    ensures var r := HandleFollow(s, a, username); IdsFollow(s, r.0, r.1, u) && IdsGrow(s, r.0, u)
  {
    hide Followed, Entries, CountsMatch, PendingBacked, Identities, FollowGraph;
    KnownAddress(s, a);
    var r := HandleFollow(s, a, username);
    hide Agree, OnlineAreServed;
    if UserAt(s.conns, a) != INVALID_ID {
      assert r.1 == [r.1[0]];
      IdsOne(r.0.conns, r.1[0], u);
      NumbersOne(LastId(s.conns, u) + 1);
    }
  }

  lemma LogoutIds(s: Server, a: Address, u: UserId)
    requires Inv(s)
    ensures var r := HandleLogout(s, a); IdsFollow(s, r.0, r.1, u) && IdsGrow(s, r.0, u)
  {
    hide Entries, CountsMatch, PendingBacked, Identities, FollowGraph;
    RemovedAgrees(s.conns, a);
    hide Agree;
    hide Removed;
  }

  lemma SendIds(s: Server, a: Address, body: string, now: Time, u: UserId)
    requires Inv(s)
    ensures var r := HandleSend(s, a, body, now); IdsFollow(s, r.0, r.1, u) && IdsGrow(s, r.0, u)
  {
    hide Entries, CountsMatch, PendingBacked, Identities, Notified, IdsFor, Numbers;
    KnownAddress(s, a);
    var author := UserAt(s.conns, a);
    if author == INVALID_ID {
      IdsNone(s.conns, u);
      NumbersOne(LastId(s.conns, u));
    } else {
      var followers := FollowersOf(s.users, author);
      if IsValidMessage(body) && |followers| > 0 {
        AcceptedIds(s, author, now, body, u);
      } else {
        var r := HandleSend(s, a, body, now);
        assert r.1 == [r.1[0]];
        IdsOne(r.0.conns, r.1[0], u);
        NumbersOne(LastId(s.conns, u));
        NumbersOne(LastId(s.conns, u) + 1);
      }
    }
  }

  /** The sender's own id is taken first and issued last; nobody follows themselves, so the order still fits. */
  lemma AcceptedIds(s: Server, author: UserId, now: Time, body: string, u: UserId)
    requires Inv(s) && author in s.users.byId && Online(s.conns, author)
    ensures var counted := s.(conns := Counted(s.conns, author));
            var r := Notified(counted, author, now, FollowersOf(s.users, author), body);
            var reply := MessageUser(author, MessageData(NextMsgId(s.conns, author), SendCommandSuccess, Empty));
            IdsFollow(s, r.0, r.1 + [reply], u) && IdsGrow(s, r.0, u)
  {
    hide Entries, CountsMatch, PendingBacked, Identities, Agree, OnlineAreServed, IdsFor, Numbers, Copied;
    var counted := s.(conns := Counted(s.conns, author));
    var followers := FollowersOf(s.users, author);
    var notice := Copied(NameOf(s.users, author), body, now);
    var r := Notified(counted, author, now, followers, body);
    var reply := MessageUser(author, MessageData(NextMsgId(s.conns, author), SendCommandSuccess, Empty));
    assert author !in followers;
    FannedOutState(counted.conns, s.users, notice, followers);
    FannedOutIds(counted.conns, s.users, notice, followers, r.0.conns, u);
    hide FannedOut, FollowGraph, Distinct, WithPendingFor;
    IdsAppend(r.0.conns, r.1, [reply], u);
    IdsOne(r.0.conns, reply, u);
    NumbersOne(LastId(s.conns, u));
    NumbersOne(LastId(s.conns, u) + 1);
  }

  lemma FirstLoginIds(s: Server, user: UserId, a: Address, u: UserId)
    requires Inv(s) && user in s.users.byId && !Online(s.conns, user) && UserAt(s.conns, a) == INVALID_ID
    ensures var conns := Added(s.conns, user, a);
            var drained := Server(Counted(conns, user), SetPending(s.users, user, []), s.notes);
            var r := Delivered(drained, user, PendingOf(s.users, user));
            var reply := MessageAddress(a, MessageData(NextMsgId(conns, user), LoginSuccess, Empty));
            IdsFollow(s, r.0, [reply] + r.1, u) && IdsGrow(s, r.0, u)
  {
    hide Delivered, Identities, FollowGraph, PendingBacked, CountsMatch, Entries;
    var conns := Added(s.conns, user, a);
    var drained := Server(Counted(conns, user), SetPending(s.users, user, []), s.notes);
    var pending := PendingOf(s.users, user);
    var r := Delivered(drained, user, pending);
    var reply := MessageAddress(a, MessageData(NextMsgId(conns, user), LoginSuccess, Empty));
    EntriesAreStored(s, user);
    DeliveredState(drained, user, pending);
    DeliveredIds(drained, user, pending, r.0.conns, u);
    assert NextMsgId(conns, user) == 1 && UserAt(r.0.conns, a) == user;
    IdsAppend(r.0.conns, [reply], r.1, u);
    IdsOne(r.0.conns, reply, u);
    hide Agree, OnlineAreServed;
    if u == user {
      NumbersAppend(1, 1, 1 + |pending|);
    }
  }

  lemma NextLoginIds(s: Server, user: UserId, a: Address, u: UserId)
    requires Inv(s) && Online(s.conns, user) && s.conns.byUser[user].Available()
    requires a in s.conns.byAddress ==> s.conns.byAddress[a] == user
    ensures var conns := Added(s.conns, user, a);
            var connected := s.(conns := Counted(conns, user));
            var reply := MessageAddress(a, MessageData(NextMsgId(conns, user), LoginSuccess, Empty));
            IdsFollow(s, connected, [reply], u) && IdsGrow(s, connected, u)
  {
    hide Identities, FollowGraph, PendingBacked, CountsMatch, Entries;
    var conns := Added(s.conns, user, a);
    AddedAgrees(s.conns, user, a);
    IdsOne(Counted(conns, user), MessageAddress(a, MessageData(NextMsgId(conns, user), LoginSuccess, Empty)), u);
    OneRelation(conns, a, user);
    NumbersOne(LastId(s.conns, u) + 1);
    NumbersOne(LastId(s.conns, u));
    hide Added, Agree;
  }

  lemma LoginIds(s: Server, a: Address, username: string, u: UserId)
    requires Inv(s)
    ensures var r := HandleLogin(s, a, username); IdsFollow(s, r.0, r.1, u) && IdsGrow(s, r.0, u)
  {
    hide Delivered, Registered, Identities, FollowGraph, PendingBacked, CountsMatch, Entries, Added, OnlineAreServed;
    var r := HandleLogin(s, a, username);
    if IsValidUsername(username) {
      var users := Registered(s.users, username);
      var user := IdOf(users, username);
      var registered := s.(users := users);
      RegisteredInv(s, username);
      KnownAddress(s, a);
      hide Agree;
      if !Online(s.conns, user) && UserAt(s.conns, a) == INVALID_ID {
        FirstLoginIds(registered, user, a, u);
      } else if Online(s.conns, user) && s.conns.byUser[user].Available() && UserAt(s.conns, a) in {INVALID_ID, user} {
        NextLoginIds(registered, user, a, u);
      } else {
        IdsOne(r.0.conns, r.1[0], u);
      }
    } else {
      IdsOne(r.0.conns, r.1[0], u);
    }
  }

  /** Every datagram: a user who is connected after it gets the next ids, a user who is not gets none. */
  lemma HandleIds(s: Server, e: Event, u: UserId)
    requires Inv(s)
    ensures var r := Handle(s, e); IdsFollow(s, r.0, r.1, u) && IdsGrow(s, r.0, u)
  {
    hide HandleLogin, HandleLogout, HandleSend, HandleFollow;
    match e.message
    case Login(username) => LoginIds(s, e.address, username, u);
    case Logout => LogoutIds(s, e.address, u);
    case Send(body) => SendIds(s, e.address, body, e.now, u);
    case Follow(username) => FollowIds(s, e.address, username, u);
    case Invalid =>
  }

  /** The ids of an online period so far, and those of the next datagram. */
  lemma NextIds(s: Server, s': Server, actions: seq<Action>, before: seq<int>, u: UserId)
    requires IdsFollow(s, s', actions, u) && IdsGrow(s, s', u) && Online(s'.conns, u)
    requires before == if Online(s.conns, u) then Numbers(1, LastId(s.conns, u)) else []
    ensures before + IdsFor(s'.conns, actions, u) == Numbers(1, LastId(s'.conns, u))
  {
    hide IdsFor;
    assert Numbers(1, 0) == [];
    NumbersAppend(1, LastId(s.conns, u), LastId(s'.conns, u));
  }
}
