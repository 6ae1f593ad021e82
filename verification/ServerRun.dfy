/** The main loop of the server: datagrams handled one after the other, and what holds over whole runs. */
module ServerRun {
  import opened Sequences
  import opened ServerTypes
  import opened UserConnection
  import opened UserPersistence
  import opened Notification
  import opened ClientMessageHandler
  import opened ServerInvariant
  import opened ServerDelivery
  import opened ServerMessageIds
  import opened ServerTexts

  // ---------- Dispatch ----------

  /** One datagram for each session of the user, or the one for the address. */
  function PacketsFor(conns: Connections, action: Action): seq<Packet> {
    match action
    case MessageUser(u, message) =>
      var sessions := SessionsOf(conns, u);
      seq(|sessions|, i requires 0 <= i < |sessions| => Packet(sessions[i], message))
    case MessageAddress(a, message) => [Packet(a, message)]
  }

  function Packets(conns: Connections, actions: seq<Action>): seq<Packet> {
    Flat(actions, action => PacketsFor(conns, action))
  }

  /** The messages that arrive at an address, in order. */
  function ArrivingAt(packets: seq<Packet>, a: Address): seq<MessageData> {
    Flat(packets, packet => Arriving(packet, a))
  }

  function Arriving(packet: Packet, a: Address): seq<MessageData> {
    if packet.address == a then [packet.message] else []
  }

  /** The messages meant for an address: its own, and those of the user connected from it. */
  function MeantFor(conns: Connections, actions: seq<Action>, a: Address): seq<MessageData> {
    Flat(actions, action => Meant(conns, action, a))
  }

  function Meant(conns: Connections, action: Action, a: Address): seq<MessageData> {
    match action
    case MessageUser(u, message) => if a in conns.byAddress && conns.byAddress[a] == u then [message] else []
    case MessageAddress(b, message) => if a == b then [message] else []
  }

  lemma ActionArrives(conns: Connections, action: Action, a: Address)
    requires Agree(conns)
    ensures ArrivingAt(PacketsFor(conns, action), a) == Meant(conns, action, a)
  {
    var packets := PacketsFor(conns, action);
    if action.MessageUser? {
      OneRelation(conns, a, action.user);
      hide Agree;
      if |packets| == 2 {
        assert packets == [packets[0]] + [packets[1]];
        FlatAppend([packets[0]], [packets[1]], packet => Arriving(packet, a));
        FlatOne(packets[1], packet => Arriving(packet, a));
      }
    }
    if packets != [] {
      FlatOne(packets[0], packet => Arriving(packet, a));
    }
    if |packets| == 1 {
      assert packets == [packets[0]];
    }
  }

  /** Every address gets each message meant for it once, in the order of the actions, and nothing else. */
  lemma {:induction false} DispatchIsExact(conns: Connections, actions: seq<Action>, a: Address)
    requires Agree(conns)
    ensures ArrivingAt(Packets(conns, actions), a) == MeantFor(conns, actions, a)
  {
    hide Agree, PacketsFor;
    if actions != [] {
      var front, last := actions[..|actions| - 1], actions[|actions| - 1];
      DispatchIsExact(conns, front, a);
      ActionArrives(conns, last, a);
      FlatAppend(Packets(conns, front), PacketsFor(conns, last), packet => Arriving(packet, a));
    }
  }

  /** No action is lost: its user is still connected when it is dispatched, and each session gets one datagram. */
  lemma NoActionIsLost(s: Server, e: Event, i: nat)
    requires Inv(s) && i < |Handle(s, e).1|
    ensures var r := Handle(s, e);
            var packets := PacketsFor(r.0.conns, r.1[i]);
            && 1 <= |packets| <= 2
            && (forall j, k :: 0 <= j < k < |packets| ==> packets[j].address != packets[k].address)
            && (r.1[i].MessageUser? ==>
                  && Online(r.0.conns, r.1[i].user)
                  && |packets| == |SessionsOf(r.0.conns, r.1[i].user)|
                  && forall j :: 0 <= j < |packets| ==> PointsTo(r.0.conns, packets[j].address, r.1[i].user))
  {
    var r := Handle(s, e);
    var action := r.1[i];
    HandleKeeps(s, e);
    hide Handle, Entries, CountsMatch, PendingBacked;
    if action.MessageUser? {
      var u := action.user;
      HandleIds(s, e, u);
      FlatHas(r.1, x => IdIn(r.0.conns, x, u), i);
      hide Flat;
      assert IdsFor(r.0.conns, r.1, u) != [];
      assert Online(r.0.conns, u);
    }
  }

  // ---------- Runs ----------

  /** The state after a run; each datagram finds the invariant. */
  function StateAfter(s0: Server, events: seq<Event>): (s: Server)
    requires Inv(s0)
    ensures Inv(s)
  {
    if events == [] then s0
    else
      var s := StateAfter(s0, events[..|events| - 1]);
      HandleKeeps(s, events[|events| - 1]);
      Handle(s, events[|events| - 1]).0
  }

  /** The actions of the last datagram of a run. */
  function LastActions(s0: Server, events: seq<Event>): seq<Action>
    requires Inv(s0) && events != []
  {
    Handle(StateAfter(s0, events[..|events| - 1]), events[|events| - 1]).1
  }

  /** The datagrams sent over a run, in order. */
  function SentOver(s0: Server, events: seq<Event>): seq<Packet>
    requires Inv(s0)
  {
    if events == [] then []
    else SentOver(s0, events[..|events| - 1]) + Packets(StateAfter(s0, events).conns, LastActions(s0, events))
  }

  /** The messages of others that a run has issued to a user. */
  function DeliveredOver(s0: Server, events: seq<Event>, u: UserId): seq<Notice>
    requires Inv(s0)
  {
    if events == [] then []
    else DeliveredOver(s0, events[..|events| - 1], u) + NoticesFor(LastActions(s0, events), u)
  }

  /** The accepted messages of a run whose sender the user followed at the time. */
  function DueOver(s0: Server, events: seq<Event>, u: UserId): seq<Notice>
    requires Inv(s0)
  {
    if events == [] then []
    else
      DueOver(s0, events[..|events| - 1], u)
      + Due(StateAfter(s0, events[..|events| - 1]), events[|events| - 1], u)
  }

  /** The ids issued for a user since they last came online. */
  function IdsSinceOnline(s0: Server, events: seq<Event>, u: UserId): seq<int>
    requires Inv(s0)
  {
    if events == [] || !Online(StateAfter(s0, events).conns, u) then []
    else
      (if Online(StateAfter(s0, events[..|events| - 1]).conns, u)
       then IdsSinceOnline(s0, events[..|events| - 1], u)
       else [])
      + IdsFor(StateAfter(s0, events).conns, LastActions(s0, events), u)
  }

  /** What a start of the server finds: users and follow lists, nobody connected, nothing stored. */
  ghost predicate Restarted(s0: Server) {
    && Identities(s0.users) && FollowGraph(s0.users)
    && s0.conns == Connections(map[], map[]) && s0.notes == Notifications(map[], INVALID_ID)
    && forall u :: u in s0.users.byId ==> PendingOf(s0.users, u) == []
  }

  /** In every state reached from a start, each stored notification counts exactly the pending entries that name it,
      at least one, and each pending entry names a stored notification by the same author. */
  lemma NotificationsAreCounted(s0: Server, events: seq<Event>, n: NotificationId, u: UserId)
    requires Restarted(s0)
    ensures Inv(s0)
    ensures var s := StateAfter(s0, events);
            && (n in s.notes.stored ==>
                  s.notes.stored[n].pendingUsers > 0 && s.notes.stored[n].pendingUsers == |Entries(s.users, n)|)
            && forall p <- PendingOf(s.users, u) ::
                 p.notification in s.notes.stored && s.notes.stored[p.notification].author == p.author
  {
    hide Entries, StateAfter;
    EntriesBacked(StateAfter(s0, events), u);
  }

  /** In every state reached from a start, the two session maps are one relation, in which each address has one user
      and each user one or two addresses or none; and nothing waits for a user who has one. */
  lemma SessionsAgree(s0: Server, events: seq<Event>, a: Address, u: UserId)
    requires Restarted(s0)
    ensures Inv(s0)
    ensures var s := StateAfter(s0, events);
            && (PointsTo(s.conns, a, u) <==> a in SessionsOf(s.conns, u))
            && (Online(s.conns, u) <==> 1 <= |SessionsOf(s.conns, u)| <= 2)
            && Distinct(SessionsOf(s.conns, u))
            && (Online(s.conns, u) ==> u in s.users.byId && PendingOf(s.users, u) == [])
  {
    hide StateAfter;
    OneRelation(StateAfter(s0, events).conns, a, u);
  }

  /** In every state reached from a start, names and ids correspond one to one, ids lie between 1 and the last one, and
      everyone in a follow list exists, once, and is not the user followed. */
  lemma UsersAgree(s0: Server, events: seq<Event>, u: UserId, username: string)
    requires Restarted(s0)
    ensures Inv(s0)
    ensures var users := StateAfter(s0, events).users;
            && (u in users.byId && NameOf(users, u) == username <==> u != INVALID_ID && IdOf(users, username) == u)
            && (u in users.byId ==> 1 <= u <= users.lastId)
            && Distinct(FollowersOf(users, u)) && u !in FollowersOf(users, u)
            && forall f <- FollowersOf(users, u) :: f in users.byId
  {
    hide StateAfter;
  }

  /** Exactly once and in order: what was issued to a user, then what waits for them, is what they were due. */
  lemma {:induction false} DeliveryOverRun(s0: Server, events: seq<Event>, u: UserId)
    requires Inv(s0)
    ensures DeliveredOver(s0, events, u) + Waiting(StateAfter(s0, events), u) == Waiting(s0, u) + DueOver(s0, events, u)
  {
    hide Waiting, Inv, Due, Handle;
    if events != [] {
      var front := events[..|events| - 1];
      DeliveryOverRun(s0, front, u);
      var s, s', last := StateAfter(s0, front), StateAfter(s0, events), events[|events| - 1];
      HandleDelivers(s, last, u);
      calc {
        DeliveredOver(s0, events, u) + Waiting(s', u);
        DeliveredOver(s0, front, u) + (NoticesFor(LastActions(s0, events), u) + Waiting(s', u));
        DeliveredOver(s0, front, u) + (Waiting(s, u) + Due(s, last, u));
        (DeliveredOver(s0, front, u) + Waiting(s, u)) + Due(s, last, u);
        Waiting(s0, u) + DueOver(s0, events, u);
      }
    }
  }

  /** From a start on: a user has been issued all they were due, but for what waits, and nothing waits while they
      are online. */
  lemma ExactlyOnce(s0: Server, events: seq<Event>, u: UserId)
    requires Restarted(s0)
    ensures Inv(s0)
    ensures DeliveredOver(s0, events, u) + Waiting(StateAfter(s0, events), u) == DueOver(s0, events, u)
    ensures Online(StateAfter(s0, events).conns, u) ==> DeliveredOver(s0, events, u) == DueOver(s0, events, u)
  {
    DeliveryOverRun(s0, events, u);
    NothingWaits(StateAfter(s0, events), u);
  }

  /** In each online period the ids issued are 1, 2, 3, ... in this order. */
  lemma {:induction false} IdsAreGapFree(s0: Server, events: seq<Event>, u: UserId)
    requires Restarted(s0)
    ensures Inv(s0)
    ensures Online(StateAfter(s0, events).conns, u) ==>
              IdsSinceOnline(s0, events, u) == Numbers(1, LastId(StateAfter(s0, events).conns, u))
  {
    if events != [] {
      hide Inv, Handle, IdsFor, Numbers, LastId, IdsFollow, IdsGrow, Restarted, Online;
      var front := events[..|events| - 1];
      var s, s' := StateAfter(s0, front), StateAfter(s0, events);
      IdsAreGapFree(s0, front, u);
      HandleIds(s, events[|events| - 1], u);
      if Online(s'.conns, u) {
        var before := if Online(s.conns, u) then IdsSinceOnline(s0, front, u) else [];
        NextIds(s, s', LastActions(s0, events), before, u);
      }
    }
  }

  // ---------- The loop ----------

  /** The server has gone from one state to another by a run, and its send queue has grown by what the run sends. */
  ghost predicate RunFrom(s0: Server, events: seq<Event>, s: Server, before: seq<Packet>, sent: seq<Packet>) {
    Inv(s0) && s == StateAfter(s0, events) && sent == before + SentOver(s0, events)
  }

  class MessageLoop {
    const handler: ClientMessageHandler
    const pendingActions: PendingActions
    var sendQueue: seq<Packet>

    ghost predicate Valid()
      reads pendingActions
    {
      handler.Valid() && pendingActions.items == []
    }

    constructor (handler: ClientMessageHandler)
      requires handler.Valid()
      ensures Valid() && this.handler == handler && sendQueue == [] && fresh(pendingActions)
    {
      this.handler := handler;
      pendingActions := new PendingActions();
      sendQueue := [];
    }

    function View(): Server
      requires handler.Valid()
      reads handler.userPersistence, handler.connectionManager, handler.notificationManager
    {
      handler.View()
    }

    /** One turn: all datagrams drained are handled and dispatched. */
    method Turn(events: seq<Event>)
      requires Valid() && Inv(View()) && TextsValid(View())
      modifies this, pendingActions, handler.userPersistence, handler.connectionManager, handler.notificationManager
      ensures Valid() && TextsValid(View()) && RunFrom(old(View()), events, View(), old(sendQueue), sendQueue)
    {
      ghost var s0 := View();
      hide RunFrom, Inv, Handle, Packets, Agree, TextsValid;
      for i := 0 to |events|
        invariant Valid() && TextsValid(View()) && RunFrom(s0, events[..i], View(), old(sendQueue), sendQueue)
      {
        OneMore(s0, events, i, View(), old(sendQueue), sendQueue);
        Step(events[i]);
      }
      assert events[..|events|] == events;
    }

    /** One datagram: handled, and its actions dispatched. */
    method Step(e: Event)
      requires Valid() && Agree(View().conns) && TextsValid(View())
      modifies this, pendingActions, handler.userPersistence, handler.connectionManager, handler.notificationManager
      ensures Valid() && View() == Handle(old(View()), e).0
      ensures sendQueue == old(sendQueue) + Packets(View().conns, Handle(old(View()), e).1)
    {
      hide Agree, Handle, Packets, TextsValid;
      handler.HandleIncomingDatagram(pendingActions, e);
      assert pendingActions.items == Handle(old(View()), e).1;
      if |pendingActions.items| == 0 {
        NothingToSend(View().conns);
        return;
      }
      Dispatch();
      pendingActions.Clear();
    }

    /** One datagram for each session of the user, or one for the address. */
    method DispatchOne(action: Action)
      requires handler.Valid()
      modifies this
      ensures sendQueue == old(sendQueue) + PacketsFor(handler.connectionManager.View(), action)
    {
      hide SessionsOf;
      if action.MessageUser? {
        var one, two := handler.connectionManager.GetAddressFromUser(action.user);
        if one.Some? {
          sendQueue := sendQueue + [Packet(one.value, action.message)];
        }
        if two.Some? {
          sendQueue := sendQueue + [Packet(two.value, action.message)];
        }
      } else {
        sendQueue := sendQueue + [Packet(action.address, action.message)];
      }
    }

    method Dispatch()
      requires handler.Valid()
      modifies this
      ensures sendQueue == old(sendQueue) + Packets(handler.connectionManager.View(), pendingActions.items)
    {
      var actions := pendingActions.items;
      ghost var conns := handler.connectionManager.View();
      hide Packets, PacketsFor;
      NothingToSend(conns);
      for i := 0 to |actions|
        invariant sendQueue == old(sendQueue) + Packets(conns, actions[..i])
      {
        PacketsNext(conns, actions, i);
        DispatchOne(actions[i]);
      }
      assert actions[..|actions|] == actions;
    }
  }

  lemma OneMore(s0: Server, events: seq<Event>, i: nat, s: Server, before: seq<Packet>, sent: seq<Packet>)
    requires i < |events| && RunFrom(s0, events[..i], s, before, sent) && TextsValid(s)
    ensures Agree(s.conns) && TextsValid(Handle(s, events[i]).0)
    ensures var r := Handle(s, events[i]);
            RunFrom(s0, events[..i + 1], r.0, before, sent + Packets(r.0.conns, r.1))
  {
    hide Handle, Packets;
    HandleValid(s, events[i]);
    assert events[..i + 1][..i] == events[..i];
  }

  lemma PacketsNext(conns: Connections, actions: seq<Action>, i: nat)
    requires i < |actions|
    ensures Packets(conns, actions[..i + 1]) == Packets(conns, actions[..i]) + PacketsFor(conns, actions[i])
  {
    assert actions[..i + 1][..i] == actions[..i];
  }

  lemma NothingToSend(conns: Connections)
    ensures Packets(conns, []) == []
  {
  }
}
