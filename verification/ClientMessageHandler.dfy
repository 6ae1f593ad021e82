/** The reaction of the server to one client message. */
module ClientMessageHandler {
  import opened ServerTypes
  import opened UserConnection
  import opened UserPersistence
  import opened Notification
  import opened ServerPayload

  datatype ClientMessage = Login(username: string) | Logout | Send(body: string) | Follow(followed: string) | Invalid

  /** The reply to a follow carries the name, and a name that does not fit overruns the payload. */
  predicate Overruns(m: ClientMessage) {
    m.Follow? && !NameFits(m.followed)
  }

  /** What can be handled; nothing is known of the program after an overrun. */
  type Command = m: ClientMessage | !Overruns(m) witness Invalid

  /** One received datagram, and the time at which it is handled. */
  datatype Event = Event(address: Address, message: Command, now: Time)

  function Failure(a: Address, kind: ServerMsgType): Action {
    MessageAddress(a, MessageData(0, kind, Empty))
  }

  /** handle_follow_command */
  function HandleFollow(s: Server, a: Address, username: string): (r: (Server, seq<Action>)) {
    var follower := UserAt(s.conns, a);
    if follower == INVALID_ID then (s, [])
    else
      var id := NextMsgId(s.conns, follower);
      var conns := Counted(s.conns, follower);
      var followed := IdOf(s.users, username);
      var ok := followed != INVALID_ID && NameOf(s.users, follower) != username;
      var kind := if ok then FollowCommandSuccess else FollowCommandFail;
      (Server(conns, if ok then Followed(s.users, followed, follower) else s.users, s.notes),
       [MessageUser(follower, MessageData(id, kind, Username(CText(username))))])
  }

  /** handle_send_command: the sender's id is taken before those of the notifications, its reply comes last. */
  function HandleSend(s: Server, a: Address, body: string, now: Time): (r: (Server, seq<Action>)) {
    var user := UserAt(s.conns, a);
    if user == INVALID_ID then (s, [])
    else
      var id := NextMsgId(s.conns, user);
      var counted := s.(conns := Counted(s.conns, user));
      if !IsValidMessage(body) then (counted, [MessageUser(user, MessageData(id, SendCommandFail, Empty))])
      else
        var followers := FollowersOf(s.users, user);
        var r := if |followers| > 0 then Notified(counted, user, now, followers, body) else (counted, []);
        (r.0, r.1 + [MessageUser(user, MessageData(id, SendCommandSuccess, Empty))])
  }

  /** The loop of handle_login over the drained entries, so far. An entry whose notification is gone is skipped. */
  function Delivered(s: Server, user: UserId, entries: seq<Pending>): (r: (Server, seq<Action>)) {
    if entries == [] then (s, [])
    else
      var before := Delivered(s, user, entries[..|entries| - 1]);
      var t, p := before.0, entries[|entries| - 1];
      if p.notification !in t.notes.stored then before
      else
        var note := t.notes.stored[p.notification];
        var notice := Copied(NameOf(t.users, p.author), note.message, note.time);
        var message := MessageData(NextMsgId(t.conns, user), ServerSendCommand, Carried(notice));
        (t.(conns := Counted(t.conns, user), notes := Decremented(t.notes, p.notification)),
         before.1 + [MessageUser(user, message)])
  }

  /** handle_login; the user is registered before the sessions are looked at. */
  function HandleLogin(s: Server, a: Address, username: string): (r: (Server, seq<Action>)) {
    if !IsValidUsername(username) then (s, [Failure(a, LoginFailInvalidUsername)])
    else
      var users := Registered(s.users, username);
      var user := IdOf(users, username);
      var registered := s.(users := users);
      var hadPreviousSession := Online(s.conns, user);
      if hadPreviousSession && !s.conns.byUser[user].Available() then
        (registered, [Failure(a, LoginFailTooManySessions)])
      else if UserAt(s.conns, a) != INVALID_ID && UserAt(s.conns, a) != user then
        (registered, [Failure(a, LoginFailAlreadyConnectedToDifferentUser)])
      else
        var conns := Added(s.conns, user, a);
        var reply := MessageAddress(a, MessageData(NextMsgId(conns, user), LoginSuccess, Empty));
        var connected := registered.(conns := Counted(conns, user));
        if hadPreviousSession then (connected, [reply])
        else
          var drained := connected.(users := SetPending(users, user, []));
          var r := Delivered(drained, user, PendingOf(users, user));
          (r.0, [reply] + r.1)
  }

  /** handle_logout */
  function HandleLogout(s: Server, a: Address): (r: (Server, seq<Action>))
    requires Agree(s.conns)
  {
    (s.(conns := Removed(s.conns, a)), [])
  }

  /** handle_incoming_datagram */
  function Handle(s: Server, e: Event): (r: (Server, seq<Action>))
    requires Agree(s.conns)
  {
    match e.message
    case Login(username) => HandleLogin(s, e.address, username)
    case Logout => HandleLogout(s, e.address)
    case Send(body) => HandleSend(s, e.address, body, e.now)
    case Follow(username) => HandleFollow(s, e.address, username)
    case Invalid => (s, [])
  }

  lemma StillValid(s: Server, username: string, user: UserId)
    requires TextsValid(s) && IsValidUsername(username)
    ensures forall conns :: TextsValid(Server(conns, SetPending(Registered(s.users, username), user, []), s.notes))
  {
    hide IsValidUsername, IsValidMessage;
  }

  class ClientMessageHandler {
    const userPersistence: UserPersistence
    const connectionManager: UserConnectionManager
    const notificationManager: NotificationManager

    ghost predicate Valid() {
      notificationManager.userPersistence == userPersistence && notificationManager.connectionManager == connectionManager
    }

    constructor (userPersistence: UserPersistence, connectionManager: UserConnectionManager, notificationManager: NotificationManager)
      requires notificationManager.userPersistence == userPersistence
      requires notificationManager.connectionManager == connectionManager
      ensures Valid() && this.userPersistence == userPersistence && this.connectionManager == connectionManager
      ensures this.notificationManager == notificationManager
    {
      this.userPersistence, this.connectionManager := userPersistence, connectionManager;
      this.notificationManager := notificationManager;
    }

    function View(): Server
      requires Valid()
      reads userPersistence, connectionManager, notificationManager
    {
      notificationManager.View()
    }

    method HandleFollowCommand(pendingActions: PendingActions, username: string, address: Address)
      requires Valid() && NameFits(username)
      modifies userPersistence, connectionManager, pendingActions
      ensures var r := HandleFollow(old(View()), address, username);
              View() == r.0 && pendingActions.items == old(pendingActions.items) + r.1
    {
      var follower := connectionManager.GetUserIdFromAddress(address);
      if follower == INVALID_ID {
        return;
      }
      var id := connectionManager.GetNextMsgId(follower);
      var kind := FollowCommandFail;
      var followed := userPersistence.GetUserIdFromUsername(username);
      if followed != INVALID_ID && userPersistence.GetUsernameFromUserId(follower) != username {
        userPersistence.AddFollow(followed, follower);
        kind := FollowCommandSuccess;
      }
      var payload := new ServerMsgPayload();
      payload.SetName(username);
      pendingActions.PushBack(MessageUser(follower, MessageData(id, kind, payload.AsName())));
    }

    method HandleSendCommand(pendingActions: PendingActions, body: string, address: Address, now: Time)
      requires Valid() && TextsValid(View())
      modifies userPersistence, connectionManager, notificationManager, pendingActions
      ensures var r := HandleSend(old(View()), address, body, now);
              View() == r.0 && pendingActions.items == old(pendingActions.items) + r.1
    {
      var user := connectionManager.GetUserIdFromAddress(address);
      if user == INVALID_ID {
        return;
      }
      var id := connectionManager.GetNextMsgId(user);
      var kind;
      if !IsValidMessage(body) {
        kind := SendCommandFail;
      } else {
        var followers := userPersistence.GetFollowers(user);
        if |followers| > 0 {
          notificationManager.AddNotification(pendingActions, user, now, followers, body);
        }
        kind := SendCommandSuccess;
      }
      pendingActions.PushBack(MessageUser(user, MessageData(id, kind, Empty)));
    }

    method HandleLoginCommand(pendingActions: PendingActions, username: string, address: Address)
      requires Valid() && TextsValid(View())
      modifies userPersistence, connectionManager, notificationManager, pendingActions
      ensures var r := HandleLogin(old(View()), address, username);
              View() == r.0 && pendingActions.items == old(pendingActions.items) + r.1
    {
      hide Delivered, Added, IsValidUsername, TextsValid;
      if !IsValidUsername(username) {
        pendingActions.PushBack(Failure(address, LoginFailInvalidUsername));
        return;
      }
      var user := userPersistence.AddOrUpdateUser(username);
      var hadPreviousSession := connectionManager.UserIdExists(user);
      if hadPreviousSession && !connectionManager.SessionAvailable(user) {
        pendingActions.PushBack(Failure(address, LoginFailTooManySessions));
        return;
      }
      var linked := connectionManager.GetUserIdFromAddress(address);
      if linked != INVALID_ID && linked != user {
        pendingActions.PushBack(Failure(address, LoginFailAlreadyConnectedToDifferentUser));
        return;
      }
      connectionManager.AddOrUpdateUserAddress(user, address);
      var id := connectionManager.GetNextMsgId(user);
      pendingActions.PushBack(MessageAddress(address, MessageData(id, LoginSuccess, Empty)));
      if !hadPreviousSession {
        StillValid(old(View()), username, user);
        var drained := userPersistence.DrainPendingNotifications(user);
        DeliverPending(pendingActions, user, drained);
      }
    }

    /** The loop of handle_login. */
    method DeliverPending(pendingActions: PendingActions, user: UserId, entries: seq<Pending>)
      requires Valid() && TextsValid(View())
      modifies connectionManager, notificationManager, pendingActions
      ensures var r := Delivered(old(View()), user, entries);
              View() == r.0 && pendingActions.items == old(pendingActions.items) + r.1
    {
      hide MessageFits, Copied;
      for i := 0 to |entries|
        invariant TextsValid(View()) && userPersistence.View() == old(userPersistence.View())
        invariant var r := Delivered(old(View()), user, entries[..i]);
                  View() == r.0 && pendingActions.items == old(pendingActions.items) + r.1
      {
        assert entries[..i + 1][..i] == entries[..i];
        var p := entries[i];
        var author := userPersistence.GetUsernameFromUserId(p.author);
        if !notificationManager.NotificationExists(p.notification) {
          continue;
        }
        var note := notificationManager.notificationIdToNotification[p.notification];
        var id := connectionManager.GetNextMsgId(user);
        AnyMessageFits(View(), p.author, note.message);
        pendingActions.PushMessage(user, id, author, note.message, note.time);
        notificationManager.DecrementPendingUsersFrom(p.notification);
      }
      assert entries[..|entries|] == entries;
    }

    method HandleLogoutCommand(address: Address)
      requires Valid() && Agree(connectionManager.View())
      modifies connectionManager
      ensures View() == HandleLogout(old(View()), address).0
    {
      if !connectionManager.AddressExists(address) {
        return;
      }
      connectionManager.RemoveAddress(address);
    }

    method HandleIncomingDatagram(pendingActions: PendingActions, e: Event)
      requires Valid() && Agree(connectionManager.View()) && TextsValid(View())
      modifies userPersistence, connectionManager, notificationManager, pendingActions
      ensures var r := Handle(old(View()), e);
              View() == r.0 && pendingActions.items == old(pendingActions.items) + r.1
    {
      hide HandleLogin, HandleSend, HandleFollow;
      match e.message
      case Login(username) => HandleLoginCommand(pendingActions, username, e.address);
      case Logout => HandleLogoutCommand(e.address);
      case Send(body) => HandleSendCommand(pendingActions, body, e.address, e.now);
      case Follow(username) => HandleFollowCommand(pendingActions, username, e.address);
      case Invalid =>
    }
  }
}
