/** The server on the values it receives: a run of commands, up to the first value that ends the program. */
module ReceivedValues {
  import opened JsonValue
  import opened JsonWriter
  import opened JsonParser
  import opened JsonRoundTrip
  import opened UserConnection
  import opened Notification
  import opened ClientMessageHandler
  import opened ServerInvariant
  import opened ServerPayload
  import opened ServerReplies
  import opened ServerRun
  import opened Messages
  import opened Options
  import S = ServerTypes
  import Utf8

  /** A value parsed from a datagram. */
  datatype Input = Input(address: S.Address, value: Json, now: S.Time)

  /** The server as the values take it along. */
  datatype Progress = Running(server: Server, sent: seq<S.Packet>) | Ended

  ghost function React(p: Progress, r: Input, doubles: Doubles): Progress
    requires p.Running? ==> Inv(p.server)
  {
    match p
    case Ended => Ended
    case Running(s, sent) =>
      match HandleValue(s, r.address, r.value, r.now, doubles)
      case Handled(server, actions) => Running(server, sent + Packets(server.conns, actions))
      case _ => Ended
  }

  /** The main loop on these values. */
  ghost function ProgressOver(s0: Server, inputs: seq<Input>, doubles: Doubles): (p: Progress)
    requires Inv(s0)
    ensures p.Running? ==> Inv(p.server)
  {
    if inputs == [] then Running(s0, [])
    else
      var p := ProgressOver(s0, inputs[..|inputs| - 1], doubles);
      ReactKeeps(p, inputs[|inputs| - 1], doubles);
      React(p, inputs[|inputs| - 1], doubles)
  }

  /** The command that a value is for a server in this state. */
  function CommandIn(s: Server, r: Input, doubles: Doubles): ClientMessage {
    var m := Understood(r.value, UserAt(s.conns, r.address) != S.INVALID_ID, doubles);
    if m.Some? then m.value else Invalid
  }

  predicate Survives(s: Server, r: Input, doubles: Doubles) {
    var connected := UserAt(s.conns, r.address) != S.INVALID_ID;
    Readable(r.value, connected, doubles) && !NamesTooMuch(r.value, connected, doubles)
  }

  /** A value that the server survives is one event. */
  lemma SurvivedIsEvent(s: Server, r: Input, doubles: Doubles)
    requires Agree(s.conns)
    ensures var outcome := HandleValue(s, r.address, r.value, r.now, doubles);
            && (outcome.Handled? <==> Survives(s, r, doubles))
            && (outcome.Handled? ==>
                  && !Overruns(CommandIn(s, r, doubles))
                  && var after := Handle(s, Event(r.address, CommandIn(s, r, doubles), r.now));
                     outcome == Handled(after.0, after.1))
  {
    ValueIsHandled(s, r.address, r.value, r.now, doubles);
    hide Handle, Agree, Readable, NamesTooMuch, UserAt;
  }

  lemma ReactKeeps(p: Progress, r: Input, doubles: Doubles)
    requires p.Running? ==> Inv(p.server)
    ensures React(p, r, doubles).Running? ==> Inv(React(p, r, doubles).server)
  {
    hide Handle, HandleValue, Inv, Packets;
    if p.Running? {
      assert Agree(p.server.conns) by { InvAgrees(p.server); }
      SurvivedIsEvent(p.server, r, doubles);
      if Survives(p.server, r, doubles) {
        HandleKeeps(p.server, Event(r.address, CommandIn(p.server, r, doubles), r.now));
      }
    }
  }

  /** What the values are as commands, each in the state the ones before it lead to. */
  ghost predicate AreEvents(s0: Server, inputs: seq<Input>, events: seq<Event>, doubles: Doubles)
    requires Inv(s0)
  {
    if inputs == [] || events == [] then inputs == [] && events == []
    else
      var r, e := inputs[|inputs| - 1], events[|events| - 1];
      var s := StateAfter(s0, events[..|events| - 1]);
      && AreEvents(s0, inputs[..|inputs| - 1], events[..|events| - 1], doubles)
      && Survives(s, r, doubles)
      && e.address == r.address && e.now == r.now && e.message == CommandIn(s, r, doubles)
  }

  /** Any values: the server runs as on the commands they are, sends the same packets, and ends at the first value that
      it does not survive; there is one exactly if it ends. */
  lemma {:induction false} ValuesRun(s0: Server, inputs: seq<Input>, doubles: Doubles) returns (events: seq<Event>)
    requires Inv(s0)
    ensures var p, k := ProgressOver(s0, inputs, doubles), |events|;
            && k <= |inputs| && AreEvents(s0, inputs[..k], events, doubles)
            && (p.Running? <==> k == |inputs|)
            && (p.Running? ==> p == Running(StateAfter(s0, events), SentOver(s0, events)))
            && (p.Ended? ==> !Survives(StateAfter(s0, events), inputs[k], doubles))
  {
    hide Inv, Handle, Survives, HandleValue, CommandIn, Packets;
    if inputs == [] {
      events := [];
    } else {
      var front, last := inputs[..|inputs| - 1], inputs[|inputs| - 1];
      events := ValuesRun(s0, front, doubles);
      var k := |events|;
      assert inputs[..k] == front[..k];
      var s := StateAfter(s0, events);
      if ProgressOver(s0, front, doubles).Running? {
        assert Agree(s.conns) by { InvAgrees(s); }
        SurvivedIsEvent(s, last, doubles);
        if Survives(s, last, doubles) {
          var e := Event(last.address, CommandIn(s, last, doubles), last.now);
          assert (events + [e])[..k] == events && front[..k] == front && inputs[..k + 1] == inputs;
          events := events + [e];
        }
      }
    }
  }

  /** A follow overruns the payload, exactly if the name does not fit, or is answered with the name up to its first NUL. */
  predicate IsEchoed(outcome: Outcome, name: string) {
    && outcome != Thrown
    && (outcome == Overrun <==> |CText(name)| >= PAYLOAD_SIZE)
    && (outcome != Overrun ==>
          |outcome.actions| == 1 && outcome.actions[0].message.payload == S.Username(CText(name)))
  }

  lemma FollowEffect(s: Server, a: S.Address, name: string, now: S.Time)
    requires Inv(s) && a in s.conns.byAddress
    ensures Agree(s.conns) && IsEchoed(Effect(s, a, Follow(name), now), name)
  {
    KnownAddress(s, a);
    FollowReply(s, a, name);
    InvAgrees(s);
    hide Inv, HandleFollow, CText, Agree;
  }

  /** From the client's call to the reply. */
  lemma FollowIsEchoed(
      m: ClientMessageData, trailing: string, root: Json, doubles: Doubles, s: Server, a: S.Address, now: S.Time)
    requires IsMsgId(m.msgId) && m.msgType == ClientFollow && Inv(s) && a in s.conns.byAddress
    ensures var r := Parse(Document(Obj(ClientMembers(m)), doubles) + trailing, root, doubles);
            && r.Parsed? && r.error == None
            && IsEchoed(HandleValue(s, a, r.value, now, doubles), Received(m).text)
  {
    FollowEffect(s, a, Received(m).text, now);
    ClientMessageTakesEffect(m, trailing, root, doubles, s, a, now);
    assert Meaning(Received(m)) == Follow(Received(m).text);
    hide *;
  }

  /** So a name with a NUL, which JSON can express, comes back shortened. */
  lemma NulIsCut(msgId: int)
    ensures CText("a\0b") == "a" && Utf8.IsUtf8("a\0b")
    ensures Received(ClientMessageData(msgId, ClientFollow, "a\0b")).text == "a\0b"
  {
    CTextEnds("a", "b");
    assert "a" + ['\0'] + "b" == "a\0b";
    AsciiIsUtf8("a\0b");
    Utf8.RepairedIsUtf8("a\0b");
    hide CText, Utf8.IsUtf8, Utf8.Repaired;
  }

  /** The two bytes of an empty array are a document that the parser accepts, and that ends the server in any state. */
  lemma EmptyArrayEndsTheServer(s: Server, a: S.Address, now: S.Time, trailing: string, root: Json, doubles: Doubles)
    requires Agree(s.conns)
    ensures Document(Arr([]), doubles) == "[]\n"
    ensures var r := Parse("[]\n" + trailing, root, doubles);
            r.Parsed? && r.error == None && HandleValue(s, a, r.value, now, doubles) == Thrown
  {
    assert Text(Arr([]), doubles) == "[]";
    hide Parse, Agree, Handle, Text, Layout, Effect;
    DocumentReadsBack(Arr([]), trailing, root, doubles);
  }
}
