/** What arrives at the sessions of a user. */
module ServerArrival {
  import opened Sequences
  import opened ServerTypes
  import opened UserConnection
  import opened UserPersistence
  import opened Notification
  import opened ClientMessageHandler
  import opened ServerInvariant
  import opened ServerDelivery
  import opened ServerRun
  import opened ServerActions

  /** The messages of others among the messages that arrive. */
  function NoticesAmong(messages: seq<MessageData>): seq<Notice> {
    Flat(messages, message => NoticeOf(message))
  }

  function NoticeOf(message: MessageData): seq<Notice> {
    if message.kind == ServerSendCommand && message.payload.Carried? then [message.payload.notice] else []
  }

  lemma {:induction false} MeantNotices(conns: Connections, actions: seq<Action>, a: Address, u: UserId)
    requires PointsTo(conns, a, u) && AllProper(actions)
    ensures NoticesAmong(MeantFor(conns, actions, a)) == NoticesFor(actions, u)
  {
    if actions != [] {
      var front, last := actions[..|actions| - 1], actions[|actions| - 1];
      MeantNotices(conns, front, a, u);
      var meant := Meant(conns, last, a);
      FlatAppend(MeantFor(conns, front, a), meant, message => NoticeOf(message));
      assert NoticesAmong(meant) == NoticeIn(last, u) by {
        if meant != [] { FlatOne(meant[0], message => NoticeOf(message)); }
      }
    }
  }

  /** At every session that a user has after a datagram, exactly the messages issued for the user arrive, in order and
      once each: nothing is missed at one session because of the other, and nothing arrives elsewhere. */
  lemma NoticesArrive(s: Server, e: Event, u: UserId, a: Address)
    requires Inv(s)
    ensures var r := Handle(s, e);
            var arriving := NoticesAmong(ArrivingAt(Packets(r.0.conns, r.1), a));
            && (a in SessionsOf(r.0.conns, u) ==> arriving == NoticesFor(r.1, u))
            && (a !in r.0.conns.byAddress ==> arriving == [])
  {
    var r := Handle(s, e);
    HandleKeeps(s, e);
    HandleIsProper(s, e);
    DispatchIsExact(r.0.conns, r.1, a);
    OneRelation(r.0.conns, a, u);
    hide Handle, Agree;
    if a in SessionsOf(r.0.conns, u) {
      MeantNotices(r.0.conns, r.1, a, u);
    }
    if a !in r.0.conns.byAddress {
      NobodyThere(r.0.conns, r.1, a);
    }
  }

  lemma {:induction false} NobodyThere(conns: Connections, actions: seq<Action>, a: Address)
    requires a !in conns.byAddress && AllProper(actions)
    ensures NoticesAmong(MeantFor(conns, actions, a)) == []
  {
    if actions != [] {
      var front, last := actions[..|actions| - 1], actions[|actions| - 1];
      NobodyThere(conns, front, a);
      var meant := Meant(conns, last, a);
      FlatAppend(MeantFor(conns, front, a), meant, message => NoticeOf(message));
      assert NoticesAmong(meant) == [] by {
        if meant != [] { FlatOne(meant[0], message => NoticeOf(message)); }
      }
    }
  }

  lemma AmongAppend(packets: seq<Packet>, more: seq<Packet>, a: Address)
    ensures NoticesAmong(ArrivingAt(packets + more, a))
         == NoticesAmong(ArrivingAt(packets, a)) + NoticesAmong(ArrivingAt(more, a))
  {
    FlatAppend(packets, more, packet => Arriving(packet, a));
    FlatAppend(ArrivingAt(packets, a), ArrivingAt(more, a), message => NoticeOf(message));
  }

  /** The address is a session of the user after every datagram of the run; the first may have made it one. */
  ghost predicate StaysConnected(s: Server, events: seq<Event>, u: UserId, a: Address)
    requires Inv(s)
  {
    forall k :: 1 <= k <= |events| ==> a in SessionsOf(StateAfter(s, events[..k]).conns, u)
  }

  lemma {:induction false} SessionReceivesDelivered(s: Server, events: seq<Event>, u: UserId, a: Address)
    requires Inv(s) && StaysConnected(s, events, u, a)
    ensures NoticesAmong(ArrivingAt(SentOver(s, events), a)) == DeliveredOver(s, events, u)
    ensures events != [] ==> a in SessionsOf(StateAfter(s, events).conns, u)
  {
    hide Inv, Handle, NoticesFor, Packets, ArrivingAt, NoticesAmong;
    if events == [] {
      NothingArrives(a);
    } else {
      var front, last := events[..|events| - 1], events[|events| - 1];
      assert StaysConnected(s, front, u, a) by {
        assert forall k :: 1 <= k <= |front| ==> front[..k] == events[..k];
      }
      SessionReceivesDelivered(s, front, u, a);
      assert events[..|events|] == events;
      NoticesArrive(StateAfter(s, front), last, u, a);
      AmongAppend(SentOver(s, front), Packets(StateAfter(s, events).conns, LastActions(s, events)), a);
    }
  }

  lemma NothingArrives(a: Address)
    ensures NoticesAmong(ArrivingAt([], a)) == []
  {
  }

  /** End to end, from a login on: as long as an address stays a session of a user, the messages of others that arrive
      there are those that waited for the user, and then exactly the accepted messages of those the user follows at the
      time, each once and in order. */
  lemma SessionReceivesAll(s: Server, events: seq<Event>, u: UserId, a: Address)
    requires Inv(s) && events != [] && StaysConnected(s, events, u, a)
    ensures NoticesAmong(ArrivingAt(SentOver(s, events), a)) == Waiting(s, u) + DueOver(s, events, u)
  {
    hide Inv, Handle, Waiting, StaysConnected, StateAfter, SentOver, DeliveredOver, DueOver, ArrivingAt, NoticesAmong;
    SessionReceivesDelivered(s, events, u, a);
    DeliveryOverRun(s, events, u);
    ServedSession(StateAfter(s, events), u, a);
    assert DeliveredOver(s, events, u) + [] == DeliveredOver(s, events, u);
  }

  /** Over a whole online period, counted from a start of the server: what was issued to the user before, then what
      arrives at the session, is all they were due. */
  lemma SessionCompletes(s0: Server, before: seq<Event>, events: seq<Event>, u: UserId, a: Address)
    requires Restarted(s0) && Inv(s0) && events != [] && StaysConnected(StateAfter(s0, before), events, u, a)
    ensures DeliveredOver(s0, before, u) + NoticesAmong(ArrivingAt(SentOver(StateAfter(s0, before), events), a))
         == DueOver(s0, before, u) + DueOver(StateAfter(s0, before), events, u)
  {
    hide Inv, Handle, Waiting, StaysConnected, StateAfter, SentOver, DeliveredOver, DueOver, ArrivingAt, NoticesAmong, Restarted;
    var s := StateAfter(s0, before);
    SessionReceivesAll(s, events, u, a);
    ExactlyOnce(s0, before, u);
    calc {
      DeliveredOver(s0, before, u) + NoticesAmong(ArrivingAt(SentOver(s, events), a));
      DeliveredOver(s0, before, u) + (Waiting(s, u) + DueOver(s, events, u));
      (DeliveredOver(s0, before, u) + Waiting(s, u)) + DueOver(s, events, u);
      DueOver(s0, before, u) + DueOver(s, events, u);
    }
  }

  lemma ServedSession(s: Server, u: UserId, a: Address)
    requires Inv(s) && a in SessionsOf(s.conns, u)
    ensures Waiting(s, u) == []
  {
    OneRelation(s.conns, a, u);
    NothingWaits(s, u);
  }
}
