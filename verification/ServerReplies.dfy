/** What the reply to a command tells its sender. */
module ServerReplies {
  import opened ServerTypes
  import opened UserConnection
  import opened UserPersistence
  import opened Notification
  import opened ClientMessageHandler
  import opened ServerInvariant
  import opened ServerPayload

  /** The reply to a login comes first and goes to its address. It is a success exactly when the name is valid, the
      user has a session free and the address is not another user's; then the address is a session of the user with
      that name, and the reply has an id of that user. Each failure has its own cause and the id 0, and leaves sessions
      and notifications alone. */
  lemma LoginReply(s: Server, a: Address, username: string)
    requires Inv(s)
    ensures var r := HandleLogin(s, a, username);
            var before := SessionsOf(s.conns, IdOf(s.users, username));
            var other := a in s.conns.byAddress && NameOf(s.users, s.conns.byAddress[a]) != username;
            && r.1 != [] && r.1[0].MessageAddress? && r.1[0].address == a
            && var kind := r.1[0].message.kind;
               && (kind == LoginFailInvalidUsername <==> !IsValidUsername(username))
               && (kind == LoginFailTooManySessions <==> IsValidUsername(username) && |before| == 2)
               && (kind == LoginFailAlreadyConnectedToDifferentUser <==>
                   IsValidUsername(username) && |before| < 2 && other)
               && (kind == LoginSuccess <==> IsValidUsername(username) && |before| < 2 && !other)
               && (kind == LoginSuccess ==>
                     PointsTo(r.0.conns, a, IdOf(r.0.users, username)) && IdOf(r.0.users, username) != INVALID_ID)
               && (r.1[0].message.id == 0 <==> kind != LoginSuccess) && r.1[0].message.payload == Empty
               && (kind != LoginSuccess ==> r.1 == [r.1[0]] && r.0.conns == s.conns && r.0.notes == s.notes)
  {
    hide Delivered, Entries, PendingBacked, CountsMatch, FollowGraph;
    KnownAddress(s, a);
    if IsValidUsername(username) {
      hide IsValidUsername;
      RegisteredUser(s, username);
      var users := Registered(s.users, username);
      var user := IdOf(users, username);
      hide Registered;
      if a in s.conns.byAddress {
        assert NameOf(users, s.conns.byAddress[a]) == NameOf(s.users, s.conns.byAddress[a]);
      }
      if !Online(s.conns, user) && UserAt(s.conns, a) == INVALID_ID {
        var drained := Server(Counted(Added(s.conns, user, a), user), SetPending(users, user, []), s.notes);
        hide Identities, Agree;
        EntriesAreStored(s.(users := users), user);
        DeliveredState(drained, user, PendingOf(users, user));
      }
    }
  }

  /** The user a name is registered as: the one it had, or a new one who is nowhere else. */
  lemma RegisteredUser(s: Server, username: string)
    requires Inv(s)
    ensures var users := Registered(s.users, username);
            var user := IdOf(users, username);
            && Inv(s.(users := users))
            && user in users.byId && user != INVALID_ID && NameOf(users, user) == username
            && SessionsOf(s.conns, user) == SessionsOf(s.conns, IdOf(s.users, username))
            && (forall u :: u in s.users.byId ==> NameOf(users, u) == NameOf(s.users, u))
            && (forall u :: u in users.byId && NameOf(users, u) == username ==> u == user)
  {
    hide Entries, PendingBacked, CountsMatch, FollowGraph, Agree;
    RegisteredInv(s, username);
    forall u | u in s.conns.byUser ensures 1 <= u <= s.users.lastId {
      assert Online(s.conns, u);
    }
  }

  /** A connected user gets one reply, with the name up to its first NUL, and so with the name asked for exactly when it
      has none: a success exactly when somebody else has it, who is then followed
      by the user, once and for good; a failure changes no user. Others get nothing. */
  lemma FollowReply(s: Server, a: Address, username: string)
    requires Inv(s)
    ensures var r := HandleFollow(s, a, username);
            var u := UserAt(s.conns, a);
            && (a !in s.conns.byAddress ==> r == (s, []))
            && (a in s.conns.byAddress ==>
                  && |r.1| == 1 && r.1[0].MessageUser? && r.1[0].user == u
                  && r.1[0].message.payload == Username(CText(username))
                  && (r.1[0].message.payload == Username(username) <==> '\0' !in username)
                  && r.1[0].message.kind in {FollowCommandSuccess, FollowCommandFail}
                  && (r.1[0].message.kind == FollowCommandSuccess <==>
                      IdOf(s.users, username) != INVALID_ID && IdOf(s.users, username) != u)
                  && (r.1[0].message.kind == FollowCommandSuccess ==>
                        u in FollowersOf(r.0.users, IdOf(s.users, username)))
                  && (r.1[0].message.kind == FollowCommandFail ==> r.0.users == s.users))
            && (forall v, f :: f in FollowersOf(s.users, v) ==> f in FollowersOf(r.0.users, v))
            && (forall v, f :: f in FollowersOf(r.0.users, v) && f !in FollowersOf(s.users, v) ==>
                  f == u && v == IdOf(s.users, username))
  {
    hide Entries, PendingBacked, CountsMatch, FollowGraph, CText;
    KnownAddress(s, a);
    hide Agree;
  }

  /** A connected user gets one reply, last: a success exactly when the body is a valid message. A failure delivers
      nothing and stores nothing. Others get nothing. */
  lemma SendReply(s: Server, a: Address, body: string, now: Time)
    requires Inv(s)
    ensures var r := HandleSend(s, a, body, now);
            var u := UserAt(s.conns, a);
            && (a !in s.conns.byAddress ==> r == (s, []))
            && (a in s.conns.byAddress ==>
                  && r.1 != []
                  && var reply := r.1[|r.1| - 1];
                     && reply.MessageUser? && reply.user == u && reply.message.payload == Empty
                     && reply.message.kind == (if IsValidMessage(body) then SendCommandSuccess else SendCommandFail)
                     && (!IsValidMessage(body) ==> r.1 == [reply] && r.0.users == s.users && r.0.notes == s.notes))
  {
    hide Entries, PendingBacked, CountsMatch, FollowGraph, Notified;
    KnownAddress(s, a);
    hide Agree;
  }
}
