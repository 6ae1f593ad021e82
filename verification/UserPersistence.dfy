/** Users: identities, follow lists, pending notifications, and the snapshots queued for the disk. */
module UserPersistence {
  import opened ServerTypes

  /** UserPersistentData */
  datatype PersistentData = PersistentData(id: UserId, username: string, followedBy: seq<UserId>)

  /** PendingNotification: a stored notification that waits for a user, and its author. */
  datatype Pending = Pending(author: UserId, notification: NotificationId)

  datatype UserData = UserData(data: PersistentData, pending: seq<Pending>)

  /** `queued` is every snapshot pushed to the disk queue so far, oldest first. */
  datatype Users = Users(byId: map<UserId, UserData>, byName: map<string, UserId>, lastId: UserId, queued: seq<PersistentData>)

  /** get_user_id_from_username */
  function IdOf(users: Users, username: string): UserId {
    if username in users.byName then users.byName[username] else INVALID_ID
  }

  /** get_username_from_user_id */
  function NameOf(users: Users, u: UserId): string {
    if u in users.byId then users.byId[u].data.username else ""
  }

  /** get_followers */
  function FollowersOf(users: Users, u: UserId): seq<UserId> {
    if u in users.byId then users.byId[u].data.followedBy else []
  }

  function PendingOf(users: Users, u: UserId): seq<Pending> {
    if u in users.byId then users.byId[u].pending else []
  }

  /** add_or_update_user: a new user gets the next id, and a snapshot. */
  function Registered(users: Users, username: string): Users {
    if IdOf(users, username) != INVALID_ID then users
    else
      var id := users.lastId + 1;
      var data := PersistentData(id, username, []);
      Users(users.byId[id := UserData(data, [])], users.byName[username := id], id, users.queued + [data])
  }

  /** add_follow: a new follower goes to the end of the list, with a snapshot. */
  function Followed(users: Users, followed: UserId, follower: UserId): Users {
    if followed !in users.byId || follower !in users.byId || follower in users.byId[followed].data.followedBy then users
    else
      var user := users.byId[followed];
      var data := user.data.(followedBy := user.data.followedBy + [follower]);
      users.(byId := users.byId[followed := user.(data := data)], queued := users.queued + [data])
  }

  function SetPending(users: Users, u: UserId, pending: seq<Pending>): Users {
    if u !in users.byId then users
    else users.(byId := users.byId[u := users.byId[u].(pending := pending)])
  }

  /** add_pending_notification */
  function WithPending(users: Users, u: UserId, p: Pending): Users {
    SetPending(users, u, PendingOf(users, u) + [p])
  }

  /** What add_notification does to the users: the same entry for each of them. */
  function WithPendingFor(users: Users, targets: seq<UserId>, p: Pending): Users {
    if targets == [] then users
    else WithPending(WithPendingFor(users, targets[..|targets| - 1], p), targets[|targets| - 1], p)
  }

  /** Names and ids correspond one to one, and ids are handed out from 1 up. */
  ghost predicate Identities(users: Users) {
    && (forall u :: u in users.byId ==>
          && 1 <= u <= users.lastId
          && users.byId[u].data.id == u
          && users.byId[u].data.username in users.byName
          && users.byName[users.byId[u].data.username] == u)
    && (forall name :: name in users.byName ==>
          users.byName[name] in users.byId && users.byId[users.byName[name]].data.username == name)
    && users.lastId >= 0
  }

  /** Follow lists name existing users, none of them twice and nobody their own. */
  ghost predicate FollowGraph(users: Users) {
    forall u :: u in users.byId ==>
      && Distinct(users.byId[u].data.followedBy)
      && u !in users.byId[u].data.followedBy
      && forall f <- users.byId[u].data.followedBy :: f in users.byId
  }

  /** Nothing but the pending lists differs. */
  ghost predicate SameButPending(a: Users, b: Users) {
    && a.byId.Keys == b.byId.Keys && a.byName == b.byName && a.lastId == b.lastId && a.queued == b.queued
    && forall u :: u in a.byId ==> a.byId[u].data == b.byId[u].data
  }

  lemma SameButPendingKeeps(a: Users, b: Users)
    requires SameButPending(a, b)
    ensures Identities(a) ==> Identities(b)
    ensures FollowGraph(a) ==> FollowGraph(b)
    ensures forall u :: NameOf(a, u) == NameOf(b, u)
  {
  }

  /** A fresh id never collides, and no list changes. */
  lemma RegisteredKeeps(users: Users, username: string)
    requires Identities(users) && FollowGraph(users)
    ensures var users' := Registered(users, username);
            && Identities(users') && FollowGraph(users')
            && IdOf(users', username) in users'.byId
            && (forall u :: u in users.byId ==> u in users'.byId && users'.byId[u] == users.byId[u])
            && (forall u :: u in users'.byId && u !in users.byId ==> u == IdOf(users', username) && PendingOf(users', u) == [])
  {
    if IdOf(users, username) == INVALID_ID {
      assert username !in users.byName;
      assert users.lastId + 1 !in users.byId;
    }
  }

  lemma FollowedKeeps(users: Users, followed: UserId, follower: UserId)
    requires Identities(users) && FollowGraph(users)
    requires followed in users.byId && follower in users.byId && followed != follower
    ensures var users' := Followed(users, followed, follower);
            && Identities(users') && FollowGraph(users')
            && users'.byId.Keys == users.byId.Keys
            && FollowersOf(users', followed)
            == FollowersOf(users, followed) + (if follower in FollowersOf(users, followed) then [] else [follower])
            && (forall u :: PendingOf(users', u) == PendingOf(users, u) && NameOf(users', u) == NameOf(users, u))
            && (forall u :: u != followed ==> FollowersOf(users', u) == FollowersOf(users, u))
  {
    var list := FollowersOf(users, followed);
    if follower !in list {
      assert forall f <- list + [follower] :: f in list || f == follower;
    }
    hide Distinct, Identities;
  }

  /** What the constructor rebuilds from loaded records. */
  function Rebuilt(records: seq<PersistentData>): (users: Users)
    ensures users.lastId >= 0 && users.queued == []
  {
    if records == [] then Users(map[], map[], INVALID_ID, [])
    else Extended(Rebuilt(records[..|records| - 1]), records[|records| - 1])
  }

  /** One more record. */
  function Extended(users: Users, data: PersistentData): Users {
    Users(users.byId[data.id := UserData(data, [])], users.byName[data.username := data.id],
          if data.id > users.lastId then data.id else users.lastId, users.queued)
  }

  class UserPersistence {
    var idToUser: map<UserId, UserData>
    var usernameToId: map<string, UserId>
    var lastUserId: UserId
    var updateQueue: seq<PersistentData>

    constructor (records: seq<PersistentData>)
      ensures View() == Rebuilt(records)
    {
      idToUser, usernameToId, updateQueue := map[], map[], [];
      lastUserId := INVALID_ID;
      new;
      var biggestUserId := INVALID_ID;
      for i := 0 to |records|
        invariant Users(idToUser, usernameToId, biggestUserId, updateQueue) == Rebuilt(records[..i])
      {
        assert records[..i + 1][..i] == records[..i];
        usernameToId := usernameToId[records[i].username := records[i].id];
        idToUser := idToUser[records[i].id := UserData(records[i], [])];
        if records[i].id > biggestUserId {
          biggestUserId := records[i].id;
        }
      }
      assert records[..|records|] == records;
      lastUserId := biggestUserId;
    }

    function View(): Users
      reads this
    {
      Users(idToUser, usernameToId, lastUserId, updateQueue)
    }

    predicate UserIdExists(u: UserId)
      reads this
    {
      u in idToUser
    }

    function GetUserIdFromUsername(username: string): UserId
      reads this
    {
      IdOf(View(), username)
    }

    function GetUsernameFromUserId(u: UserId): string
      reads this
    {
      NameOf(View(), u)
    }

    function GetFollowers(u: UserId): seq<UserId>
      reads this
    {
      FollowersOf(View(), u)
    }

    method AddOrUpdateUser(username: string) returns (u: UserId)
      modifies this
      ensures View() == Registered(old(View()), username) && u == IdOf(View(), username)
    {
      u := GetUserIdFromUsername(username);
      if u != INVALID_ID {
        return;
      }
      lastUserId := lastUserId + 1;
      u := lastUserId;
      var data := PersistentData(u, username, []);
      idToUser := idToUser[u := UserData(data, [])];
      usernameToId := usernameToId[username := u];
      updateQueue := updateQueue + [data];
    }

    method AddFollow(followed: UserId, follower: UserId)
      modifies this
      ensures View() == Followed(old(View()), followed, follower)
    {
      if !UserIdExists(followed) || !UserIdExists(follower) {
        return;
      }
      var user := idToUser[followed];
      var list := user.data.followedBy;
      for i := 0 to |list|
        invariant follower !in list[..i]
        invariant View() == old(View())
      {
        if list[i] == follower {
          return;
        }
      }
      assert list[..|list|] == list;
      var data := user.data.(followedBy := list + [follower]);
      idToUser := idToUser[followed := user.(data := data)];
      updateQueue := updateQueue + [data];
    }

    method AddPendingNotification(u: UserId, p: Pending)
      modifies this
      ensures View() == WithPending(old(View()), u, p)
    {
      if !UserIdExists(u) {
        return;
      }
      idToUser := idToUser[u := idToUser[u].(pending := idToUser[u].pending + [p])];
    }

    method DrainPendingNotifications(u: UserId) returns (drained: seq<Pending>)
      modifies this
      ensures drained == PendingOf(old(View()), u) && View() == SetPending(old(View()), u, [])
    {
      if !UserIdExists(u) {
        return [];
      }
      drained := idToUser[u].pending;
      idToUser := idToUser[u := idToUser[u].(pending := [])];
    }
  }
}
