/** The values the parts of the server exchange. */
module ServerTypes {

  type UserId = int
  type NotificationId = int

  /** No user, and no notification, has this id. */
  const INVALID_ID: int := 0

  /** What two socket addresses are compared by. */
  datatype Address = Address(ip: nat, port: nat)

  /** A point in time, of which nothing is known. */
  datatype Time = Time(ticks: int)

  datatype ServerMsgType =
    | LoginSuccess
    | LoginFailInvalidUsername
    | LoginFailTooManySessions
    | LoginFailAlreadyConnectedToDifferentUser
    | ServerSendCommand
    | FollowCommandFail
    | FollowCommandSuccess
    | SendCommandFail
    | SendCommandSuccess

  /** A message of another user. */
  datatype Notice = Notice(author: string, body: string, time: Time)

  /** What a payload carries: the texts as they are read from it. */
  datatype Payload = Empty | Username(username: string) | Carried(notice: Notice)

  datatype MessageData = MessageData(id: int, kind: ServerMsgType, payload: Payload)

  datatype Action =
    | MessageUser(user: UserId, message: MessageData)
    | MessageAddress(address: Address, message: MessageData)

  /** ServerMessage: one datagram of the send queue. */
  datatype Packet = Packet(address: Address, message: MessageData)

  /** The payload is the one that the kind of the message calls for. */
  predicate WellFormed(m: MessageData) {
    match m.kind
    case ServerSendCommand => m.payload.Carried?
    case FollowCommandFail => m.payload.Username?
    case FollowCommandSuccess => m.payload.Username?
    case _ => m.payload.Empty?
  }

  /** is_valid_ascii */
  predicate IsValidAscii(text: string, allowSpace: bool) {
    forall i :: 0 <= i < |text| ==> (text[i] == ' ' && allowSpace) || 33 <= text[i] as int <= 126
  }

  /** The loop of is_valid_ascii. */
  method CheckAscii(text: string, allowSpace: bool) returns (valid: bool)
    ensures valid == IsValidAscii(text, allowSpace)
  {
    for i := 0 to |text|
      invariant IsValidAscii(text[..i], allowSpace)
    {
      var c := text[i] as int;
      if c == 32 {
        if !allowSpace {
          return false;
        }
      } else if c < 33 || c > 126 {
        return false;
      }
      assert text[..i + 1] == text[..i] + [text[i]];
    }
    assert text[..|text|] == text;
    valid := true;
  }

  predicate IsValidUsername(username: string) {
    4 <= |username| <= 20 && IsValidAscii(username, false)
  }

  predicate IsValidMessage(message: string) {
    1 <= |message| <= 128 && IsValidAscii(message, true)
  }

  function Repeat(c: char, n: nat): string {
    seq(n, _ => c)
  }

  /** Names have 4 to 20 characters from ! to ~, messages 1 to 128 from the space to ~. */
  lemma ValidityBounds(c: char, n: nat)
    ensures IsValidUsername(Repeat(c, n)) <==> 4 <= n <= 20 && '!' <= c <= '~'
    ensures IsValidMessage(Repeat(c, n)) <==> 1 <= n <= 128 && ' ' <= c <= '~'
  {
    assert n > 0 ==> Repeat(c, n)[0] == c;
  }

  /** One bad character spoils a text, wherever it is. */
  lemma OneBadCharacter(before: string, c: char, after: string)
    ensures !('!' <= c <= '~') ==> !IsValidUsername(before + [c] + after)
    ensures !(' ' <= c <= '~') ==> !IsValidMessage(before + [c] + after)
  {
    assert (before + [c] + after)[|before|] == c;
  }

  /** No element occurs twice. */
  predicate Distinct<T(==)>(s: seq<T>) {
    forall i, j :: 0 <= i < j < |s| ==> s[i] != s[j]
  }
}
