/** Stored notifications with their reference counts, and the fan-out of a message to its author's followers. */
module Notification {
  import opened ServerTypes
  import opened UserConnection
  import opened UserPersistence
  import opened ServerPayload

  /** A stored message; `pendingUsers` counts the users it still waits for. */
  datatype Notification = Notification(author: UserId, time: Time, pendingUsers: nat, message: string)

  datatype Notifications = Notifications(stored: map<NotificationId, Notification>, lastId: NotificationId)

  /** The state of the server between two datagrams. */
  datatype Server = Server(conns: Connections, users: Users, notes: Notifications)

  /** Every user has a valid name, and every stored message is valid. */
  ghost predicate TextsValid(s: Server) {
    && (forall u :: u in s.users.byId ==> IsValidUsername(s.users.byId[u].data.username))
    && (forall n :: n in s.notes.stored ==> IsValidMessage(s.notes.stored[n].message))
  }

  /** A valid message by any user fits a payload; the name of an unknown user is empty. */
  lemma AnyMessageFits(s: Server, author: UserId, message: string)
    requires TextsValid(s) && IsValidMessage(message)
    ensures MessageFits(NameOf(s.users, author), message)
  {
  }

  /** decrement_pending_users_from: the count goes down, and the notification with it when it reaches zero. */
  function Decremented(notes: Notifications, n: NotificationId): Notifications {
    if n !in notes.stored then notes
    else
      var remaining := if notes.stored[n].pendingUsers == 0 then 0 else notes.stored[n].pendingUsers - 1;
      if remaining == 0 then notes.(stored := notes.stored - {n})
      else notes.(stored := notes.stored[n := notes.stored[n].(pendingUsers := remaining)])
  }

  /** The first loop of add_notification, so far: message ids used up, messages issued, users found offline. */
  datatype FanOut = FanOut(conns: Connections, actions: seq<Action>, offline: seq<UserId>)

  function FannedOut(conns: Connections, users: Users, notice: Notice, followers: seq<UserId>): FanOut {
    if followers == [] then FanOut(conns, [], [])
    else
      var f := FannedOut(conns, users, notice, followers[..|followers| - 1]);
      var u := followers[|followers| - 1];
      if Online(f.conns, u) then
        var message := MessageData(NextMsgId(f.conns, u), ServerSendCommand, Carried(notice));
        f.(conns := Counted(f.conns, u), actions := f.actions + [MessageUser(u, message)])
      else if u in users.byId then f.(offline := f.offline + [u])
      else f
  }

  /** add_notification: the state after it, and the actions it appends. */
  function Notified(s: Server, author: UserId, time: Time, followers: seq<UserId>, message: string): (r: (Server, seq<Action>)) {
    var notice := Copied(NameOf(s.users, author), message, time);
    var f := FannedOut(s.conns, s.users, notice, followers);
    if f.offline == [] then (s.(conns := f.conns), f.actions)
    else
      var n := s.notes.lastId + 1;
      var notes := Notifications(s.notes.stored[n := Notification(author, time, |f.offline|, message)], n);
      (Server(f.conns, WithPendingFor(s.users, f.offline, Pending(author, n)), notes), f.actions)
  }

  /** The list of actions a datagram gives rise to. */
  class PendingActions {
    var items: seq<Action>

    constructor ()
      ensures items == []
    {
      items := [];
    }

    method PushBack(action: Action)
      modifies this
      ensures items == old(items) + [action]
    {
      items := items + [action];
    }

    /** A message of another user, copied into a payload. */
    method PushMessage(user: UserId, id: int, author: string, body: string, time: Time)
      requires MessageFits(author, body)
      modifies this
      ensures items == old(items)
                       + [MessageUser(user, MessageData(id, ServerSendCommand, Carried(Copied(author, body, time))))]
    {
      var payload := new ServerMsgPayload();
      payload.SetMessage(author, body, time);
      items := items + [MessageUser(user, MessageData(id, ServerSendCommand, payload.AsMessage()))];
    }

    method Clear()
      modifies this
      ensures items == []
    {
      items := [];
    }
  }

  class NotificationManager {
    const userPersistence: UserPersistence
    const connectionManager: UserConnectionManager
    var notificationId: NotificationId
    var notificationIdToNotification: map<NotificationId, Notification>

    constructor (userPersistence: UserPersistence, connectionManager: UserConnectionManager)
      ensures this.userPersistence == userPersistence && this.connectionManager == connectionManager
      ensures Notes() == Notifications(map[], INVALID_ID)
    {
      this.userPersistence, this.connectionManager := userPersistence, connectionManager;
      notificationId, notificationIdToNotification := INVALID_ID, map[];
    }

    function Notes(): Notifications
      reads this
    {
      Notifications(notificationIdToNotification, notificationId)
    }

    function View(): Server
      reads this, userPersistence, connectionManager
    {
      Server(connectionManager.View(), userPersistence.View(), Notes())
    }

    predicate NotificationExists(n: NotificationId)
      reads this
    {
      n in notificationIdToNotification
    }

    method AddNotification(pendingActions: PendingActions, author: UserId, time: Time, followers: seq<UserId>, message: string)
      requires TextsValid(View()) && IsValidMessage(message)
      modifies this, userPersistence, connectionManager, pendingActions
      ensures var r := Notified(old(View()), author, time, followers, message);
              View() == r.0 && pendingActions.items == old(pendingActions.items) + r.1
    {
      var username := userPersistence.GetUsernameFromUserId(author);
      ghost var s, notice := View(), Copied(username, message, time);
      AnyMessageFits(s, author, message);
      hide IsValidMessage, IsValidUsername, Copied, MessageFits;
      var offlineUsers := [];
      for i := 0 to |followers|
        invariant userPersistence.View() == s.users && Notes() == s.notes
        invariant var f := FannedOut(s.conns, s.users, notice, followers[..i]);
                  && connectionManager.View() == f.conns
                  && pendingActions.items == old(pendingActions.items) + f.actions
                  && offlineUsers == f.offline
      {
        assert followers[..i + 1][..i] == followers[..i];
        var follower := followers[i];
        if !connectionManager.UserIdExists(follower) {
          if userPersistence.UserIdExists(follower) {
            offlineUsers := offlineUsers + [follower];
          }
        } else {
          var id := connectionManager.GetNextMsgId(follower);
          pendingActions.PushMessage(follower, id, username, message, time);
        }
      }
      assert followers[..|followers|] == followers;
      if |offlineUsers| > 0 {
        notificationId := notificationId + 1;
        notificationIdToNotification := notificationIdToNotification[
          notificationId := Notification(author, time, |offlineUsers|, message)];
        AddPendingNotifications(offlineUsers, Pending(author, notificationId));
      }
    }

    /** The second loop of add_notification. */
    method AddPendingNotifications(offlineUsers: seq<UserId>, p: Pending)
      modifies userPersistence
      ensures userPersistence.View() == WithPendingFor(old(userPersistence.View()), offlineUsers, p)
    {
      for i := 0 to |offlineUsers|
        invariant userPersistence.View() == WithPendingFor(old(userPersistence.View()), offlineUsers[..i], p)
      {
        assert offlineUsers[..i + 1][..i] == offlineUsers[..i];
        userPersistence.AddPendingNotification(offlineUsers[i], p);
      }
      assert offlineUsers[..|offlineUsers|] == offlineUsers;
    }

    method DecrementPendingUsersFrom(n: NotificationId)
      modifies this
      ensures Notes() == Decremented(old(Notes()), n)
    {
      if !NotificationExists(n) {
        return;
      }
      var remaining := DecrementPendingUsers(n);
      if remaining == 0 {
        RemoveNotification(n);
      }
    }

    /** Notification::decrement_pending_users, which stops at zero. */
    method DecrementPendingUsers(n: NotificationId) returns (remaining: nat)
      requires NotificationExists(n)
      modifies this
      ensures remaining == if old(notificationIdToNotification)[n].pendingUsers == 0 then 0
                           else old(notificationIdToNotification)[n].pendingUsers - 1
      ensures Notes() == old(Notes()).(stored :=
        old(notificationIdToNotification)[n := old(notificationIdToNotification)[n].(pendingUsers := remaining)])
    {
      var notification := notificationIdToNotification[n];
      remaining := if notification.pendingUsers == 0 then 0 else notification.pendingUsers - 1;
      notificationIdToNotification := notificationIdToNotification[n := notification.(pendingUsers := remaining)];
    }

    method RemoveNotification(n: NotificationId)
      modifies this
      ensures Notes() == old(Notes()).(stored := old(notificationIdToNotification) - {n})
    {
      if NotificationExists(n) {
        notificationIdToNotification := notificationIdToNotification - {n};
      }
      assert notificationIdToNotification == old(notificationIdToNotification) - {n};
    }
  }
}
