/** The union that carries the payload of a server message: what strcpy leaves in it, and what is read from it. */
module ServerPayload {
  import opened ServerTypes

  // The layout on a 64-bit platform: the name, the body, four bytes of padding, the time.
  const NAME_SIZE := 20
  const BODY_SIZE := 128
  const TIME_AT := NAME_SIZE + BODY_SIZE + 4
  const PAYLOAD_SIZE := 160

  /** The text of a C string: what precedes the first NUL. */
  function CText(s: string): (t: string)
    ensures t <= s && '\0' !in t
    ensures t == s <==> '\0' !in s
  {
    if s == "" || s[0] == '\0' then "" else [s[0]] + CText(s[1..])
  }

  lemma {:induction false} CTextEnds(t: string, rest: string)
    requires '\0' !in t
    ensures CText(t + ['\0'] + rest) == t
  {
    var s := t + ['\0'] + rest;
    if t == "" {
      assert s[0] == '\0';
    } else {
      assert s[1..] == t[1..] + ['\0'] + rest;
      CTextEnds(t[1..], rest);
    }
  }

  /** A name for a payload of its own; a longer one runs out of the union, and nothing is known of what follows. */
  predicate NameFits(name: string) {
    |CText(name)| < PAYLOAD_SIZE
  }

  /** Texts that leave the time alone, or are there before it. */
  predicate MessageFits(author: string, body: string) {
    NameFits(author) && |CText(body)| < TIME_AT - NAME_SIZE
  }

  /** What reads as the author once the body is there: a name that fills its array is followed by the body, because the
      body overwrites its terminator. */
  function AuthorBeside(author: string, body: string): string {
    var name := CText(author);
    if |name| < NAME_SIZE then name else name[..NAME_SIZE] + CText(body)
  }

  /** A message as it is read from the payload it was copied into. */
  function Copied(author: string, body: string, time: Time): Notice {
    Notice(AuthorBeside(author, body), CText(body), time)
  }

  /** A valid message is read as it was written exactly if the author's name leaves room for its terminator. */
  lemma CopiedIsMeant(author: string, body: string, time: Time)
    requires IsValidUsername(author) && IsValidMessage(body)
    ensures Copied(author, body, time) == Notice(author, body, time) <==> |author| < NAME_SIZE
    ensures |author| == NAME_SIZE ==> Copied(author, body, time) == Notice(author + body, body, time)
    ensures |author| < NAME_SIZE <==> |Copied(author, body, time).author| < NAME_SIZE
  {
    assert |author| == NAME_SIZE ==> author[..NAME_SIZE] == author;
    hide CText;
  }

  /** Even so, no two valid messages are read alike. */
  lemma CopiedTellsApart(a: string, b: string, t: Time, a': string, b': string, t': Time)
    requires IsValidUsername(a) && IsValidMessage(b) && IsValidUsername(a') && IsValidMessage(b')
    requires Copied(a, b, t) == Copied(a', b', t')
    ensures a == a' && b == b' && t == t'
  {
    CopiedIsMeant(a, b, t);
    CopiedIsMeant(a', b', t');
    hide Copied;
    if |a| == NAME_SIZE {
      assert a == (a + b)[..|a|] && a' == (a' + b')[..|a'|];
    }
  }

  // ---------- Memory ----------

  /** Memory after a text and its terminator were written. */
  function Overwritten(bytes: string, at: nat, text: string): (after: string)
    requires at + |text| < |bytes|
    ensures |after| == |bytes|
  {
    bytes[..at] + text + ['\0'] + bytes[at + |text| + 1..]
  }

  lemma ReadsText(bytes: string, at: nat, text: string)
    requires at + |text| < |bytes| && '\0' !in text
    ensures CText(Overwritten(bytes, at, text)[at..]) == text
  {
    var rest := bytes[at + |text| + 1..];
    CTextEnds(text, rest);
    hide CText;
    assert Overwritten(bytes, at, text)[at..] == text + ['\0'] + rest;
  }

  /** What is written behind a terminator is not seen by a reader before it. */
  lemma KeepsShort(bytes: string, name: string, at: nat, text: string)
    requires |name| < at && at + |text| < |bytes| && '\0' !in name
    ensures CText(Overwritten(Overwritten(bytes, 0, name), at, text)) == name
  {
    hide CText;
    var first := Overwritten(bytes, 0, name);
    var after := Overwritten(first, at, text);
    var rest := after[|name| + 1..];
    assert after[..|name|] == first[..|name|] && after[|name|] == first[|name|];
    assert first[..|name|] == name && first[|name|] == '\0';
    assert after == after[..|name|] + [after[|name|]] + rest;
    CTextEnds(name, rest);
  }

  /** What is written within a text takes the place of its end. */
  lemma RunsOn(bytes: string, name: string, at: nat, text: string)
    requires at <= |name| < |bytes| && at + |text| < |bytes| && '\0' !in name && '\0' !in text
    ensures CText(Overwritten(Overwritten(bytes, 0, name), at, text)) == name[..at] + text
  {
    hide CText;
    var first := Overwritten(bytes, 0, name);
    var rest := first[at + |text| + 1..];
    assert first[..at] == name[..at];
    assert Overwritten(first, at, text) == (name[..at] + text) + ['\0'] + rest;
    CTextEnds(name[..at] + text, rest);
  }

  method StrCpy(bytes: array<char>, at: nat, text: string)
    requires at + |CText(text)| < bytes.Length
    modifies bytes
    ensures bytes[..] == Overwritten(old(bytes[..]), at, CText(text))
  {
    var t := CText(text);
    hide CText;
    forall i | 0 <= i < |t| {
      bytes[at + i] := t[i];
    }
    bytes[at + |t|] := '\0';
    assert bytes[at..at + |t|] == t;
    assert bytes[..] == bytes[..at] + bytes[at..at + |t|] + [bytes[at + |t|]] + bytes[at + |t| + 1..];
  }

  /** A payload holds a name or a message. The bytes start with whatever was there before; the time has its own field
      here, since no text read goes up to its bytes. */
  class ServerMsgPayload {
    const bytes: array<char>
    var timestap: Time

    constructor ()
      ensures fresh(bytes) && bytes.Length == PAYLOAD_SIZE
    {
      bytes := new char[PAYLOAD_SIZE];
    }

    method SetName(name: string)
      requires bytes.Length == PAYLOAD_SIZE && NameFits(name)
      modifies bytes
      ensures AsName() == Username(CText(name))
    {
      ReadsText(bytes[..], 0, CText(name));
      StrCpy(bytes, 0, name);
      hide CText;
      assert bytes[..][0..] == bytes[..];
    }

    method SetMessage(author: string, body: string, time: Time)
      requires bytes.Length == PAYLOAD_SIZE && MessageFits(author, body)
      modifies this, bytes
      ensures AsMessage() == Carried(Copied(author, body, time))
    {
      ghost var before, t := bytes[..], CText(author);
      StrCpy(bytes, 0, author);
      StrCpy(bytes, NAME_SIZE, body);
      timestap := time;
      ReadsText(Overwritten(before, 0, t), NAME_SIZE, CText(body));
      if |t| < NAME_SIZE {
        KeepsShort(before, t, NAME_SIZE, CText(body));
      } else {
        RunsOn(before, t, NAME_SIZE, CText(body));
      }
      hide CText;
      assert bytes[NAME_SIZE..] == bytes[..][NAME_SIZE..];
    }

    /** What serialize reads for the replies to a follow. */
    function AsName(): Payload
      reads bytes
    {
      Username(CText(bytes[..]))
    }

    /** What serialize reads for the messages of others. */
    function AsMessage(): Payload
      requires bytes.Length == PAYLOAD_SIZE
      reads this, bytes
    {
      Carried(Notice(CText(bytes[..]), CText(bytes[NAME_SIZE..]), timestap))
    }
  }
}
