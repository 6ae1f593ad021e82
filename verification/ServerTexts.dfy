/** The names and the messages in the server stay valid, and messages issued carry copies of valid ones. */
module ServerTexts {
  import opened ServerTypes
  import opened UserConnection
  import opened UserPersistence
  import opened Notification
  import opened ClientMessageHandler
  import opened ServerInvariant
  import opened ServerDelivery
  import opened ServerPayload

  /** The notice is what a payload makes of a valid message of this author. */
  predicate IsCopyOf(notice: Notice, author: string, body: string) {
    IsValidUsername(author) && IsValidMessage(body) && notice == Copied(author, body, notice.time)
  }

  ghost predicate IsCopy(notice: Notice) {
    exists author, body :: IsCopyOf(notice, author, body)
  }

  ghost predicate NoticeValid(m: MessageData) {
    m.payload.Carried? ==> IsCopy(m.payload.notice)
  }

  ghost predicate NoticesValid(actions: seq<Action>) {
    forall i :: 0 <= i < |actions| ==> NoticeValid(actions[i].message)
  }

  lemma {:induction false} FannedOutValid(conns: Connections, users: Users, notice: Notice, followers: seq<UserId>)
    requires IsCopy(notice)
    ensures NoticesValid(FannedOut(conns, users, notice, followers).actions)
  {
    hide IsValidUsername, IsValidMessage;
    if followers != [] {
      FannedOutValid(conns, users, notice, followers[..|followers| - 1]);
    }
  }

  lemma {:induction false} DeliveredValid(s: Server, user: UserId, entries: seq<Pending>)
    requires TextsValid(s) && Increasing(entries)
    requires forall p <- entries ::
               && p.notification in s.notes.stored && s.notes.stored[p.notification].pendingUsers > 0
               && p.author in s.users.byId
    ensures NoticesValid(Delivered(s, user, entries).1)
  {
    hide IsValidUsername, IsValidMessage, Copied, IsCopy;
    if entries != [] {
      var front, last := entries[..|entries| - 1], entries[|entries| - 1];
      DeliveredValid(s, user, front);
      DeliveredState(s, user, front);
      assert last in entries;
      var note := Delivered(s, user, front).0.notes.stored[last.notification];
      StoredIsCopied(s, last.author, note.message, note.time);
    }
  }

  lemma StoredIsCopied(s: Server, author: UserId, message: string, time: Time)
    requires TextsValid(s) && author in s.users.byId && IsValidMessage(message)
    ensures IsCopy(Copied(NameOf(s.users, author), message, time))
  {
    assert IsCopyOf(Copied(NameOf(s.users, author), message, time), NameOf(s.users, author), message);
  }

  lemma SendValid(s: Server, a: Address, body: string, now: Time)
    requires Inv(s) && TextsValid(s)
    ensures var r := HandleSend(s, a, body, now); TextsValid(r.0) && NoticesValid(r.1)
  {
    hide IsValidUsername, IsValidMessage, Entries, PendingBacked, CountsMatch, Notified;
    KnownAddress(s, a);
    var author := UserAt(s.conns, a);
    var followers := FollowersOf(s.users, author);
    if author != INVALID_ID && IsValidMessage(body) && |followers| > 0 {
      NotifiedValid(s.(conns := Counted(s.conns, author)), author, now, followers, body);
    }
  }

  lemma NotifiedValid(s: Server, author: UserId, now: Time, followers: seq<UserId>, body: string)
    requires TextsValid(s) && author in s.users.byId && IsValidMessage(body)
    requires Distinct(followers) && forall u <- followers :: u in s.users.byId
    ensures var r := Notified(s, author, now, followers, body); TextsValid(r.0) && NoticesValid(r.1)
  {
    hide IsValidUsername, IsValidMessage, Distinct, NoticesValid, TextsValid, FannedOut, WithPendingFor, Copied, IsCopy;
    var notice := Copied(NameOf(s.users, author), body, now);
    StoredIsCopied(s, author, body, now);
    FannedOutValid(s.conns, s.users, notice, followers);
    NotifiedTexts(s, author, now, followers, body);
  }

  lemma NotifiedTexts(s: Server, author: UserId, now: Time, followers: seq<UserId>, body: string)
    requires TextsValid(s) && IsValidMessage(body)
    requires Distinct(followers) && forall u <- followers :: u in s.users.byId
    ensures TextsValid(Notified(s, author, now, followers, body).0)
  {
    hide IsValidUsername, IsValidMessage, FannedOut, WithPendingFor;
    var notice := Copied(NameOf(s.users, author), body, now);
    FannedOutState(s.conns, s.users, notice, followers);
    var f := FannedOut(s.conns, s.users, notice, followers);
    WithPendingForEach(s.users, f.offline, Pending(author, s.notes.lastId + 1));
    hide Distinct;
  }

  lemma LoginValid(s: Server, a: Address, username: string)
    requires Inv(s) && TextsValid(s)
    ensures var r := HandleLogin(s, a, username); TextsValid(r.0) && NoticesValid(r.1)
  {
    hide Delivered, Entries, Added, Agree, FollowGraph;
    if IsValidUsername(username) {
      hide IsValidUsername, IsValidMessage;
      RegisteredInv(s, username);
      var users := Registered(s.users, username);
      var user := IdOf(users, username);
      assert TextsValid(s.(users := users));
      hide Registered;
      if !Online(s.conns, user) && UserAt(s.conns, a) in {INVALID_ID, user} {
        var drained := Server(Counted(Added(s.conns, user, a), user), SetPending(users, user, []), s.notes);
        var entries := PendingOf(users, user);
        EntriesAreStored(s.(users := users), user);
        EntriesBacked(s.(users := users), user);
        hide PendingBacked, CountsMatch, Identities;
        DeliveredValid(drained, user, entries);
        DeliveredState(drained, user, entries);
      }
    }
  }

  /** Every datagram keeps names and messages valid, and only valid ones are carried. */
  lemma HandleValid(s: Server, e: Event)
    requires Inv(s) && TextsValid(s)
    ensures TextsValid(Handle(s, e).0) && NoticesValid(Handle(s, e).1)
  {
    hide HandleLogin, HandleSend, Entries, IsValidUsername, IsValidMessage;
    match e.message
    case Login(username) => LoginValid(s, e.address, username);
    case Logout =>
    case Send(body) => SendValid(s, e.address, body, e.now);
    case Follow(username) => FollowedPending(s.users, IdOf(s.users, username), UserAt(s.conns, e.address));
    case Invalid =>
  }

  /** What a follower is due is the message as its author wrote it, exactly if the author's name is shorter than its
      array; the body follows a name that is not. */
  lemma DueAsWritten(s: Server, e: Event, u: UserId)
    requires Inv(s) && TextsValid(s) && IsAcceptedSend(s, e) && u in FollowersOf(s.users, UserAt(s.conns, e.address))
    ensures var author := NameOf(s.users, UserAt(s.conns, e.address));
            && (Due(s, e, u) == [Notice(author, e.message.body, e.now)] <==> |author| < NAME_SIZE)
            && (|author| == NAME_SIZE ==> Due(s, e, u) == [Notice(author + e.message.body, e.message.body, e.now)])
            && 4 <= |author| <= NAME_SIZE
  {
    KnownAddress(s, e.address);
    hide Entries, PendingBacked, CountsMatch, FollowGraph, Agree;
    CopiedIsMeant(NameOf(s.users, UserAt(s.conns, e.address)), e.message.body, e.now);
    hide Copied;
  }
}
