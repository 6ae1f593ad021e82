/** The actions of every datagram carry what their kind calls for. */
module ServerActions {
  import opened ServerTypes
  import opened UserConnection
  import opened UserPersistence
  import opened Notification
  import opened ClientMessageHandler
  import opened ServerPayload

  /** The payload fits the kind, and only users are sent the messages of others. */
  predicate Proper(action: Action) {
    WellFormed(action.message) && (action.MessageAddress? ==> action.message.kind != ServerSendCommand)
  }

  ghost predicate AllProper(actions: seq<Action>) {
    forall i :: 0 <= i < |actions| ==> Proper(actions[i])
  }

  lemma {:induction false} FannedOutIsProper(conns: Connections, users: Users, notice: Notice, followers: seq<UserId>)
    ensures AllProper(FannedOut(conns, users, notice, followers).actions)
  {
    if followers != [] {
      FannedOutIsProper(conns, users, notice, followers[..|followers| - 1]);
    }
  }

  lemma {:induction false} DeliveredIsProper(s: Server, user: UserId, entries: seq<Pending>)
    ensures AllProper(Delivered(s, user, entries).1)
  {
    if entries != [] {
      DeliveredIsProper(s, user, entries[..|entries| - 1]);
    }
  }

  lemma HandleIsProper(s: Server, e: Event)
    requires Agree(s.conns)
    ensures AllProper(Handle(s, e).1)
  {
    hide Copied, CText;
    match e.message
    case Login(username) =>
      var users := Registered(s.users, username);
      var user := IdOf(users, username);
      var drained := Server(Counted(Added(s.conns, user, e.address), user), SetPending(users, user, []), s.notes);
      DeliveredIsProper(drained, user, PendingOf(users, user));
      hide Delivered, Registered, Added, Counted, SetPending, Agree;
    case Logout =>
    case Send(body) =>
      var user := UserAt(s.conns, e.address);
      var notice := Copied(NameOf(s.users, user), body, e.now);
      FannedOutIsProper(Counted(s.conns, user), s.users, notice, FollowersOf(s.users, user));
      hide FannedOut, WithPendingFor, Counted, Agree;
    case Follow(username) => hide Followed, Agree;
    case Invalid =>
  }
}
