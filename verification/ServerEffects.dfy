/** What a datagram does to the server, said without the handlers: who is where, who has which name, who follows whom. */
module ServerEffects {
  import opened ServerTypes
  import opened UserConnection
  import opened UserPersistence
  import opened Notification
  import opened ClientMessageHandler
  import opened ServerInvariant
  import opened ServerPayload
  import opened ServerReplies

  /** The login succeeds: the name is valid, its user has a session free, and the address is not somebody else's. */
  predicate Connects(s: Server, a: Address, username: string) {
    && IsValidUsername(username)
    && |SessionsOf(s.conns, IdOf(s.users, username))| < 2
    && (a in s.conns.byAddress ==> NameOf(s.users, s.conns.byAddress[a]) == username)
  }

  /** The id that a name has once it is registered. */
  function IdFor(users: Users, username: string): UserId {
    if username in users.byName then users.byName[username] else users.lastId + 1
  }

  /** The user at an address after the datagram: the one who logs in from it, nobody after a logout, and at every other
      address the same as before. */
  function UserAtAfter(s: Server, e: Event, a: Address): UserId {
    if a != e.address then UserAt(s.conns, a)
    else
      match e.message
      case Login(username) => if Connects(s, a, username) then IdFor(s.users, username) else UserAt(s.conns, a)
      case Logout => INVALID_ID
      case _ => UserAt(s.conns, a)
  }

  /** The name asked for by a login is registered, whether the login succeeds or not, as long as it is valid. */
  function IdAfter(s: Server, e: Event, name: string): UserId {
    if e.message == Login(name) && IsValidUsername(name) then IdFor(s.users, name) else IdOf(s.users, name)
  }

  /** The follow is heard, names another user, and is new. */
  predicate AddsFollower(s: Server, e: Event, v: UserId, f: UserId) {
    && e.message.Follow? && f == UserAt(s.conns, e.address) && f != INVALID_ID
    && v != f && v != INVALID_ID && v == IdOf(s.users, e.message.followed) && f !in FollowersOf(s.users, v)
  }

  ghost predicate SessionsAsSaid(s: Server, e: Event, s': Server) {
    forall a :: UserAt(s'.conns, a) == UserAtAfter(s, e, a)
  }

  ghost predicate NamesAsSaid(s: Server, e: Event, s': Server) {
    && (forall name: string :: IdOf(s'.users, name) == IdAfter(s, e, name))
    && (forall u :: u in s.users.byId ==> u in s'.users.byId && NameOf(s'.users, u) == NameOf(s.users, u))
  }

  ghost predicate FollowersAsSaid(s: Server, e: Event, s': Server) {
    forall v ::
      FollowersOf(s'.users, v)
      == FollowersOf(s.users, v)
         + if AddsFollower(s, e, v, UserAt(s.conns, e.address)) then [UserAt(s.conns, e.address)] else []
  }

  ghost predicate AsSaid(s: Server, e: Event, s': Server) {
    SessionsAsSaid(s, e, s') && NamesAsSaid(s, e, s') && FollowersAsSaid(s, e, s')
  }

  lemma SameAsSaid(s: Server, e: Event, s': Server)
    requires SameSessions(s.conns, s'.conns) && SameButPending(s.users, s'.users)
    requires e.message.Send? || e.message.Invalid?
    ensures AsSaid(s, e, s')
  {
  }

  lemma SendAsSaid(s: Server, e: Event)
    requires Inv(s) && e.message.Send?
    ensures AsSaid(s, e, HandleSend(s, e.address, e.message.body, e.now).0)
  {
    hide Notified, Entries, Agree, AsSaid;
    var author := UserAt(s.conns, e.address);
    var followers := FollowersOf(s.users, author);
    if author != INVALID_ID && IsValidMessage(e.message.body) && |followers| > 0 {
      NotifiedState(s.(conns := Counted(s.conns, author)), author, e.now, followers, e.message.body);
    }
    SameAsSaid(s, e, HandleSend(s, e.address, e.message.body, e.now).0);
  }

  lemma FollowAsSaid(s: Server, e: Event)
    requires Inv(s) && e.message.Follow?
    ensures AsSaid(s, e, HandleFollow(s, e.address, e.message.followed).0)
  {
    hide Entries, PendingBacked, CountsMatch, FollowGraph, CText;
    KnownAddress(s, e.address);
    hide Agree;
    assert Identities(s.users);
  }

  lemma LogoutAsSaid(s: Server, e: Event)
    requires Inv(s) && e.message.Logout?
    ensures AsSaid(s, e, HandleLogout(s, e.address).0)
  {
    hide Entries, PendingBacked, CountsMatch, FollowGraph, Identities;
    KnownAddress(s, e.address);
  }

  lemma RegisteredAsSaid(users: Users, username: string)
    requires Identities(users)
    ensures var users' := Registered(users, username);
            && (forall name: string :: IdOf(users', name) == if name == username then IdFor(users, name) else IdOf(users, name))
            && (forall u :: u in users.byId ==> u in users'.byId && NameOf(users', u) == NameOf(users, u))
            && (forall v :: FollowersOf(users', v) == FollowersOf(users, v))
  {
    assert username in users.byName ==> IdOf(users, username) in users.byId;
  }

  /** Where a valid login leads: the name registered, and the address connected if the login succeeds. */
  lemma LoginLeadsTo(s: Server, a: Address, username: string)
    requires Inv(s) && IsValidUsername(username)
    ensures var s', users := HandleLogin(s, a, username).0, Registered(s.users, username);
            && SameButPending(users, s'.users)
            && s'.conns.byAddress
            == if Connects(s, a, username) then s.conns.byAddress[a := IdFor(s.users, username)] else s.conns.byAddress
  {
    hide IsValidUsername, Delivered, Entries, PendingBacked, CountsMatch, FollowGraph;
    KnownAddress(s, a);
    RegisteredUser(s, username);
    var users := Registered(s.users, username);
    var user := IdOf(users, username);
    assert user == IdFor(s.users, username) by { RegisteredAsSaid(s.users, username); }
    if a in s.conns.byAddress {
      assert NameOf(users, s.conns.byAddress[a]) == NameOf(s.users, s.conns.byAddress[a]);
    }
    hide Registered;
    if !Online(s.conns, user) && UserAt(s.conns, a) == INVALID_ID {
      var drained := Server(Counted(Added(s.conns, user, a), user), SetPending(users, user, []), s.notes);
      hide Identities;
      EntriesAreStored(s.(users := users), user);
      DeliveredState(drained, user, PendingOf(users, user));
    }
  }

  lemma LoginAsSaid(s: Server, e: Event)
    requires Inv(s) && e.message.Login?
    ensures AsSaid(s, e, HandleLogin(s, e.address, e.message.username).0)
  {
    var username := e.message.username;
    hide HandleLogin, IsValidUsername, AsSaid;
    if IsValidUsername(username) {
      ValidLoginAsSaid(s, e);
    } else {
      InvalidLoginAsSaid(s, e);
    }
  }

  lemma ValidLoginAsSaid(s: Server, e: Event)
    requires Inv(s) && e.message.Login? && IsValidUsername(e.message.username)
    ensures AsSaid(s, e, HandleLogin(s, e.address, e.message.username).0)
  {
    hide HandleLogin, IsValidUsername, Entries, PendingBacked, CountsMatch, FollowGraph, Agree, Identities, Registered;
    hide Connects;
    LoginLeadsTo(s, e.address, e.message.username);
    RegisteredAsSaid(s.users, e.message.username);
  }

  lemma InvalidLoginAsSaid(s: Server, e: Event)
    requires e.message.Login? && !IsValidUsername(e.message.username)
    ensures AsSaid(s, e, HandleLogin(s, e.address, e.message.username).0)
  {
    hide IsValidUsername;
  }

  /** For every datagram. */
  lemma HandleAsSaid(s: Server, e: Event)
    requires Inv(s)
    ensures AsSaid(s, e, Handle(s, e).0)
  {
    hide HandleLogin, HandleLogout, HandleSend, HandleFollow;
    match e.message
    case Login(_) => LoginAsSaid(s, e);
    case Logout => LogoutAsSaid(s, e);
    case Send(_) => SendAsSaid(s, e);
    case Follow(_) => FollowAsSaid(s, e);
    case Invalid => SameAsSaid(s, e, s);
  }

  /** A logout: nobody is at the address afterwards, and every other session stays. The user stays online exactly if they
      have another session, and goes on counting there; nothing else changes, and nothing is issued. */
  lemma LogoutReply(s: Server, a: Address, now: Time)
    requires Inv(s)
    ensures var r := Handle(s, Event(a, Logout, now));
            var u := UserAt(s.conns, a);
            && r.1 == [] && r.0.users == s.users && r.0.notes == s.notes
            && r.0.conns.byAddress == s.conns.byAddress - {a}
            && (forall v, b :: b in SessionsOf(r.0.conns, v) <==> b in SessionsOf(s.conns, v) && b != a)
            && (Online(r.0.conns, u) <==> exists b :: b != a && b in SessionsOf(s.conns, u))
            && (forall v :: Online(r.0.conns, v) ==>
                  Online(s.conns, v) && r.0.conns.byUser[v].lastMsgId == s.conns.byUser[v].lastMsgId)
  {
    hide Entries, PendingBacked, CountsMatch, FollowGraph, Identities;
    KnownAddress(s, a);
    RemovedAgrees(s.conns, a);
    var c := Removed(s.conns, a);
    assert c.byAddress == s.conns.byAddress - {a};
    hide Removed;
    forall v, b ensures b in SessionsOf(c, v) <==> b in SessionsOf(s.conns, v) && b != a {
      OneRelation(c, b, v);
      OneRelation(s.conns, b, v);
    }
    var u := UserAt(s.conns, a);
    hide Agree;
    OnlineHasSession(c, u);
  }

  lemma OnlineHasSession(c: Connections, u: UserId)
    requires Agree(c)
    ensures Online(c, u) <==> exists b :: b in SessionsOf(c, u)
  {
    if u in c.byUser {
      assert SessionsOf(c, u) != [] by { OneRelation(c, Address(0, 0), u); }
      assert SessionsOf(c, u)[0] in SessionsOf(c, u);
    }
  }
}
