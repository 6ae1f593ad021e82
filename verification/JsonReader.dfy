/** Json::Reader as an object: a cursor, a stack of nodes and a list of errors, updated in place. */
module JsonReader {
  import opened Options
  import opened JsonScanner
  import opened JsonValue
  import opened JsonParser
  import DecimalText
  import QuotedString

  /** How a call ended: with its boolean result, or by the exception of the stack limit. */
  datatype Outcome = Returned(ok: bool) | Thrown

  class Reader {
    const doubles: Doubles
    var document: string
    var current: nat
    /** The stack of nodes, the current value last. A node is written back to its parent when it is popped. */
    var nodes: seq<Json>
    var errors: seq<ErrorInfo>

    constructor (doubles: Doubles)
      ensures this.doubles == doubles
    {
      this.doubles := doubles;
      document, current, nodes, errors := "", 0, [], [];
    }

    ghost predicate Valid()
      reads this
    {
      current <= |document|
    }

    /** getNextChar */
    method GetNextChar() returns (c: char)
      requires Valid()
      modifies this`current
      ensures Valid()
      ensures old(current) == |document| ==> current == |document| && c == '\0'
      ensures old(current) < |document| ==> current == old(current) + 1 && c == document[old(current)]
    {
      if current == |document| {
        return '\0';
      }
      c := document[current];
      current := current + 1;
    }

    method SkipSpacesHere()
      requires Valid()
      modifies this`current
      ensures Valid() && current == SkipSpaces(document, old(current))
    {
      while current != |document| && IsSpace(document[current])
        invariant Valid()
        invariant SkipSpaces(document, old(current)) == SkipSpaces(document, current)
        decreases |document| - current
      {
        current := current + 1;
      }
    }

    /** match: compares from the last character down. */
    method Match(pattern: string) returns (ok: bool)
      requires Valid()
      modifies this`current
      ensures Valid() && Scan(ok, current) == KeywordEnd(document, old(current), pattern)
    {
      if |document| - current < |pattern| {
        return false;
      }
      var index: nat := |pattern|;
      while index != 0
        invariant index <= |pattern| <= |document| - current
        invariant forall k :: index <= k < |pattern| ==> document[current + k] == pattern[k]
      {
        index := index - 1;
        if document[current + index] != pattern[index] {
          assert document[current..][index] != pattern[index];
          return false;
        }
      }
      assert pattern == document[current..][..|pattern|];
      current := current + |pattern|;
      return true;
    }

    method ReadCStyleComment() returns (ok: bool)
      requires Valid()
      modifies this`current
      ensures Valid() && Scan(ok, current) == BlockCommentEnd(document, old(current))
    {
      while current + 1 < |document|
        invariant Valid()
        invariant BlockCommentEnd(document, old(current)) == BlockCommentEnd(document, current)
        decreases |document| - current
      {
        ghost var at := current;
        var c := GetNextChar();
        if c == '*' && document[current] == '/' {
          c := GetNextChar();
          return true;
        }
      }
      var last := GetNextChar();
      return last == '/';
    }

    method ReadCppStyleComment()
      requires Valid()
      modifies this`current
      ensures Valid() && current == LineCommentEnd(document, old(current))
    {
      while current != |document|
        invariant Valid()
        invariant LineCommentEnd(document, old(current)) == LineCommentEnd(document, current)
        decreases |document| - current
      {
        var c := GetNextChar();
        if c == '\n' {
          return;
        }
        if c == '\r' {
          if current != |document| && document[current] == '\n' {
            var lineFeed := GetNextChar();
          }
          return;
        }
      }
    }

    method ReadComment() returns (ok: bool)
      requires Valid()
      modifies this`current
      ensures Valid() && Scan(ok, current) == CommentEnd(document, old(current))
    {
      var c := GetNextChar();
      if c == '*' {
        ok := ReadCStyleComment();
      } else if c == '/' {
        ReadCppStyleComment();
        ok := true;
      } else {
        ok := false;
      }
    }

    /** The assignment `c = (current_ = p) < end_ ? *p++ : 0` of readNumber. */
    method Step(p: nat) returns (c: char, next: nat)
      requires p <= |document|
      modifies this`current
      ensures current == p
      ensures p < |document| ==> c == document[p] && next == p + 1
      ensures p == |document| ==> c == '\0' && next == p
    {
      current := p;
      if current < |document| {
        c, next := document[p], p + 1;
      } else {
        c, next := '\0', p;
      }
    }

    /** A run of digits, with `c` the character at the cursor. */
    method StepOverDigits(c0: char, p0: nat) returns (c: char, p: nat)
      requires Valid() && IsNext(c0, p0)
      modifies this`current
      ensures Valid() && current == SkipDigits(document, old(current)) && IsNext(c, p)
    {
      c, p := c0, p0;
      while DecimalText.IsDigit(c)
        invariant Valid() && IsNext(c, p)
        invariant SkipDigits(document, old(current)) == SkipDigits(document, current)
        decreases |document| - current
      {
        c, p := Step(p);
      }
    }

    /** `c` is the character at the cursor and `p` the position behind it. */
    ghost predicate IsNext(c: char, p: nat)
      reads this
      requires Valid()
    {
      if current < |document| then c == document[current] && p == current + 1 else c == '\0' && p == current
    }

    /** readNumber, part by part. */
    method ReadNumber()
      requires Valid()
      modifies this`current
      ensures Valid() && current == NumberEnd(document, old(current))
    {
      var c, p := Step(current);
      c, p := StepOverDigits(c, p);
      c, p := ReadFraction(c, p);
      ReadExponent(c, p);
    }

    method ReadFraction(c0: char, p0: nat) returns (c: char, p: nat)
      requires Valid() && IsNext(c0, p0)
      modifies this`current
      ensures Valid() && current == SkipFraction(document, old(current)) && IsNext(c, p)
    {
      c, p := c0, p0;
      if c == '.' {
        c, p := Step(p);
        c, p := StepOverDigits(c, p);
      }
    }

    method ReadExponent(c0: char, p0: nat)
      requires Valid() && IsNext(c0, p0)
      modifies this`current
      ensures Valid() && current == SkipExponent(document, old(current))
    {
      var c, p := c0, p0;
      if c == 'e' || c == 'E' {
        c, p := Step(p);
        if c == '+' || c == '-' {
          c, p := Step(p);
        }
        c, p := StepOverDigits(c, p);
      }
    }

    method ReadString() returns (ok: bool)
      requires Valid()
      modifies this`current
      ensures Valid() && Scan(ok, current) == StringEnd(document, old(current))
    {
      var c := '\0';
      while current != |document|
        invariant Valid() && c != '\"'
        invariant StringEnd(document, old(current)) == StringEnd(document, current)
        decreases |document| - current
      {
        c := GetNextChar();
        if c == '\\' {
          var escaped := GetNextChar();
        } else if c == '\"' {
          break;
        }
      }
      return c == '\"';
    }

    /** readToken */
    method ReadToken() returns (token: Token)
      requires Valid()
      modifies this`current
      ensures Valid() && token == TokenAt(document, old(current)) && current == token.end
    {
      SkipSpacesHere();
      var start := current;
      var c := GetNextChar();
      var ok := true;
      var kind;
      match c {
        case '{' => kind := ObjectBegin;
        case '}' => kind := ObjectEnd;
        case '[' => kind := ArrayBegin;
        case ']' => kind := ArrayEnd;
        case '\"' =>
          kind := String;
          ok := ReadString();
        case '/' =>
          kind := Comment;
          ok := ReadComment();
        case 't' =>
          kind := TrueWord;
          ok := Match("rue");
        case 'f' =>
          kind := FalseWord;
          ok := Match("alse");
        case 'n' =>
          kind := NullWord;
          ok := Match("ull");
        case ',' => kind := ArraySeparator;
        case ':' => kind := MemberSeparator;
        case '\0' => kind := EndOfStream;
        case _ =>
          if DecimalText.IsDigit(c) || c == '-' {
            kind := Number;
            ReadNumber();
          } else {
            kind := Error;
            ok := false;
          }
      }
      token := Token(if ok then kind else Error, start, current);
    }

    method SkipCommentTokens() returns (token: Token)
      requires Valid()
      modifies this`current
      ensures Valid() && token == ValueToken(document, old(current)) && current == token.end
    {
      token := ReadToken();
      while token.kind == Comment
        invariant Valid() && current == token.end
        invariant ValueToken(document, old(current)) == if token.kind == Comment then ValueToken(document, current) else token
        decreases |document| - current, token.kind == Comment
      {
        token := ReadToken();
      }
    }

    /** addError */
    method AddError(message: string, token: Token)
      modifies this`errors
      ensures errors == old(errors) + [ErrorInfo(token, message)]
    {
      errors := errors + [ErrorInfo(token, message)];
    }

    /** recoverFromError */
    method RecoverFromError(skipUntil: TokenKind)
      requires Valid()
      modifies this`current, this`errors
      ensures Valid() && current == Recovered(document, old(current), skipUntil) && errors == old(errors)
    {
      var errorCount := |errors|;
      while true
        invariant Valid() && errors == old(errors)
        invariant Recovered(document, old(current), skipUntil) == Recovered(document, current, skipUntil)
        decreases |document| - current
      {
        var skip := ReadToken();
        if skip.kind == Error {
          errors := errors[..errorCount];
        }
        if skip.kind == skipUntil || skip.kind == EndOfStream {
          break;
        }
      }
      errors := errors[..errorCount];
    }

    /** currentValue().swapPayload(v) */
    method SetCurrentValue(v: Json)
      requires nodes != []
      modifies this`nodes
      ensures nodes == old(nodes)[..|old(nodes)| - 1] + [v]
    {
      nodes := nodes[..|nodes| - 1] + [v];
    }

    /** The state a normal return leaves: the value on top of the untouched rest of the stack, and at most one error. */
    ghost predicate Ended(outcome: Outcome, r: Parsed, below: seq<Json>, before: seq<ErrorInfo>)
      reads this
    {
      if r.Threw? then outcome == Thrown
      else
        && outcome == Returned(r.error.None?)
        && current == r.pos
        && nodes == below + [r.value]
        && errors == if r.error.Some? then before + [r.error.value] else before
    }

    ghost function Below(): seq<Json>
      reads this
      requires nodes != []
    {
      nodes[..|nodes| - 1]
    }

    ghost function Top(): Json
      reads this
      requires nodes != []
    {
      nodes[|nodes| - 1]
    }

    method ReadValue() returns (outcome: Outcome)
      requires Valid() && nodes != []
      modifies this`current, this`nodes, this`errors
      ensures Valid()
      ensures Ended(outcome, ParseValue(document, old(current), |old(nodes)|, old(Top()), doubles), old(Below()), old(errors))
      decreases |document| - current, 0
    {
      hide TokenAt, ValueToken, ParseItems, ParseMembers, NumberValue, TextOf, Inside, QuotedString.Contents, SkipSpaces;
      if |nodes| > STACK_LIMIT {
        return Thrown;
      }
      var token := SkipCommentTokens();
      if token.kind == ObjectBegin {
        outcome := ReadObject();
      } else if token.kind == ArrayBegin {
        outcome := ReadArray();
      } else if token.kind == Number {
        var ok := DecodeNumberToken(token);
        outcome := Returned(ok);
      } else if token.kind == String {
        var ok := DecodeStringToken(token);
        outcome := Returned(ok);
      } else if token.kind == TrueWord || token.kind == FalseWord {
        SetCurrentValue(Bool(token.kind == TrueWord));
        outcome := Returned(true);
      } else if token.kind == NullWord {
        SetCurrentValue(Null);
        outcome := Returned(true);
      } else {
        AddError(NO_VALUE, token);
        outcome := Returned(false);
      }
    }

    /** decodeNumber, with decodeDouble for everything that is not a 64-bit integer. */
    method DecodeNumberToken(token: Token) returns (ok: bool)
      requires token.start < token.end <= |document| && nodes != []
      modifies this`nodes, this`errors
      ensures match NumberValue(TextOf(document, token), doubles)
              case Some(number) => ok && nodes == old(Below()) + [number] && errors == old(errors)
              case None => !ok && nodes == old(nodes) && errors == old(errors) + [ErrorInfo(token, NotANumber(TextOf(document, token)))]
    {
      var text := document[token.start..token.end];
      var number := DecimalText.DecodeNumber(text);
      match number {
        case Signed(i) => SetCurrentValue(Int(i));
        case Unsigned(u) => SetCurrentValue(UInt(u));
        case NotAnInteger =>
          match doubles.parse(text) {
            case Some(d) => SetCurrentValue(Real(d));
            case None =>
              AddError(NotANumber(text), token);
              return false;
          }
      }
      return true;
    }

    method DecodeStringToken(token: Token) returns (ok: bool)
      requires token.start + 2 <= token.end <= |document| && nodes != []
      modifies this`nodes, this`errors
      ensures match QuotedString.Contents(Inside(document, token))
              case Decoded(text) => ok && nodes == old(Below()) + [Str(text)] && errors == old(errors)
              case Failed(message) => !ok && nodes == old(nodes) && errors == old(errors) + [ErrorInfo(token, message)]
    {
      var decoded := QuotedString.DecodeString(Inside(document, token));
      match decoded {
        case Decoded(text) =>
          SetCurrentValue(Str(text));
          ok := true;
        case Failed(message) =>
          AddError(message, token);
          ok := false;
      }
    }

    /** addErrorAndRecover */
    method AddErrorAndRecover(message: string, token: Token, skipUntil: TokenKind) returns (outcome: Outcome)
      requires Valid()
      modifies this`current, this`errors
      ensures Valid() && outcome == Returned(false)
      ensures current == Recovered(document, old(current), skipUntil)
      ensures errors == old(errors) + [ErrorInfo(token, message)]
    {
      AddError(message, token);
      RecoverFromError(skipUntil);
      outcome := Returned(false);
    }

    /** Pushes a node, reads its value and pops it again. */
    method ReadNode(child: Json) returns (outcome: Outcome, value: Json)
      requires Valid() && nodes != []
      modifies this`current, this`nodes, this`errors
      ensures Valid()
      ensures var r := ParseValue(document, old(current), |old(nodes)| + 1, child, doubles);
              if r.Threw? then outcome == Thrown
              else
                && outcome == Returned(r.error.None?) && value == r.value
                && current == r.pos && nodes == old(nodes)
                && errors == if r.error.Some? then old(errors) + [r.error.value] else old(errors)
      decreases |document| - current, 1
    {
      hide ParseValue;
      nodes := nodes + [child];
      assert Below() == old(nodes);
      outcome := ReadValue();
      if outcome == Thrown {
        return outcome, child;
      }
      value := nodes[|nodes| - 1];
      nodes := nodes[..|nodes| - 1];
    }

    /** One round of readArray: its item and the separator. */
    method ReadItem(items: seq<Json>) returns (finished: bool, outcome: Outcome, extended: seq<Json>)
      requires Valid() && nodes != []
      modifies this`current, this`nodes, this`errors
      ensures Valid()
      ensures finished ==>
        Ended(outcome, ParseItems(document, old(current), |old(nodes)|, items, doubles), old(Below()), old(errors))
      ensures !finished ==>
        && nodes == old(Below()) + [Arr(extended)] && errors == old(errors) && current > old(current)
        && ParseItems(document, old(current), |old(nodes)|, items, doubles)
        == ParseItems(document, current, |old(nodes)|, extended, doubles)
      decreases |document| - current, 2
    {
      hide TokenAt, ParseValue, Recovered;
      var value;
      outcome, value := ReadNode(Null);
      finished, extended := true, items + [value];
      if outcome == Thrown {
        return;
      }
      SetCurrentValue(Arr(extended));
      if !outcome.ok {
        RecoverFromError(ArrayEnd);
        return;
      }
      var token := SkipCommentTokens();
      if token.kind != ArraySeparator && token.kind != ArrayEnd {
        outcome := AddErrorAndRecover(NO_COMMA_IN_ARRAY, token, ArrayEnd);
        return;
      }
      finished := token.kind == ArrayEnd;
    }

    /** readArray, after the opening bracket. */
    method ReadArray() returns (outcome: Outcome)
      requires Valid() && nodes != []
      modifies this`current, this`nodes, this`errors
      ensures Valid()
      ensures Ended(outcome,
                    var first := SkipSpaces(document, old(current));
                    if At(document, first, ']') then Parsed(Arr([]), first + 1, None)
                    else ParseItems(document, first, |old(nodes)|, [], doubles),
                    old(Below()), old(errors))
      decreases |document| - current, 4
    {
      hide TokenAt, ParseItems, SkipSpaces;
      SetCurrentValue(Arr([]));
      SkipSpacesHere();
      if current != |document| && document[current] == ']' {
        ClosingBracket(document, current);
        var endArray := ReadToken();
        return Returned(true);
      }
      outcome := ReadItems();
    }

    /** The loop of readArray. */
    method ReadItems() returns (outcome: Outcome)
      requires Valid() && nodes != [] && Top() == Arr([])
      modifies this`current, this`nodes, this`errors
      ensures Valid()
      ensures Ended(outcome, ParseItems(document, old(current), |old(nodes)|, [], doubles), old(Below()), old(errors))
      decreases |document| - current, 3
    {
      hide ParseItems;
      var items: seq<Json> := [];
      while true
        invariant Valid() && old(current) <= current
        invariant nodes == old(Below()) + [Arr(items)] && errors == old(errors)
        invariant ParseItems(document, old(current), |old(nodes)|, [], doubles)
               == ParseItems(document, current, |old(nodes)|, items, doubles)
        decreases |document| - current
      {
        var finished;
        finished, outcome, items := ReadItem(items);
        if finished {
          return;
        }
      }
    }

    /** The value of a member, set under its name. */
    method ReadMemberValue(members: seq<Member>, key: string)
      returns (finished: bool, outcome: Outcome, extended: seq<Member>)
      requires Valid() && nodes != [] && Top() == Obj(members)
      modifies this`current, this`nodes, this`errors
      ensures Valid()
      ensures finished ==>
        Ended(outcome, ParseMemberValue(document, old(current), |old(nodes)|, members, key, doubles), old(Below()), old(errors))
      ensures !finished ==>
        && nodes == old(Below()) + [Obj(extended)] && errors == old(errors) && current >= old(current)
        && ParseMemberValue(document, old(current), |old(nodes)|, members, key, doubles)
        == ParseAfterMember(document, current, |old(nodes)|, extended, key, doubles)
      decreases |document| - current, 4
    {
      hide ParseValue, ParseAfterMember, Put, Lookup, Recovered;
      finished, extended := true, members;
      var value;
      outcome, value := ReadNode(Lookup(members, key));
      if outcome == Thrown {
        return;
      }
      extended := Put(members, key, value);
      SetCurrentValue(Obj(extended));
      if !outcome.ok {
        RecoverFromError(ObjectEnd);
        return;
      }
      finished := false;
    }

    /** The first half of a round of readObject: the member name, the colon and the value. */
    method ReadMember(members: seq<Member>, name: string)
      returns (finished: bool, outcome: Outcome, extended: seq<Member>, key: string)
      requires Valid() && nodes != [] && Top() == Obj(members)
      modifies this`current, this`nodes, this`errors
      ensures Valid()
      ensures finished ==>
        Ended(outcome, ParseMembers(document, old(current), |old(nodes)|, members, name, doubles), old(Below()), old(errors))
      ensures !finished ==>
        && nodes == old(Below()) + [Obj(extended)] && errors == old(errors) && current > old(current)
        && ParseMembers(document, old(current), |old(nodes)|, members, name, doubles)
        == ParseAfterMember(document, current, |old(nodes)|, extended, key, doubles)
      decreases |document| - current, 2
    {
      hide TokenAt, ParseMemberValue, ParseAfterMember, Inside, Recovered;
      finished, extended, key := true, members, name;
      var token := SkipCommentTokens();
      if token.kind == ObjectEnd && name == "" {
        outcome := Returned(true);
        return;
      }
      if token.kind != String {
        outcome := AddErrorAndRecover(NO_MEMBER, token, ObjectEnd);
        return;
      }
      var decoded := QuotedString.DecodeString(Inside(document, token));
      if decoded.Failed? {
        outcome := AddErrorAndRecover(decoded.message, token, ObjectEnd);
        return;
      }
      key := decoded.text;
      var colon := ReadToken();
      if colon.kind != MemberSeparator {
        outcome := AddErrorAndRecover(NO_COLON, colon, ObjectEnd);
        return;
      }
      finished, outcome, extended := ReadMemberValue(members, key);
    }

    /** The second half: the separator, or the closing brace. */
    method ReadSeparator(members: seq<Member>, key: string) returns (finished: bool, outcome: Outcome)
      requires Valid() && nodes != [] && Top() == Obj(members)
      modifies this`current, this`errors
      ensures Valid()
      ensures finished ==>
        Ended(outcome, ParseAfterMember(document, old(current), |old(nodes)|, members, key, doubles), old(Below()), old(errors))
      ensures !finished ==>
        && errors == old(errors) && current >= old(current)
        && ParseAfterMember(document, old(current), |old(nodes)|, members, key, doubles)
        == ParseMembers(document, current, |old(nodes)|, members, key, doubles)
    {
      hide TokenAt, ParseMembers, Recovered;
      finished, outcome := true, Returned(true);
      var comma := ReadToken();
      if comma.kind != ObjectEnd && comma.kind != ArraySeparator && comma.kind != Comment {
        outcome := AddErrorAndRecover(NO_COMMA_IN_OBJECT, comma, ObjectEnd);
        return;
      }
      if comma.kind == Comment {
        comma := SkipCommentTokens();
      }
      finished := comma.kind == ObjectEnd;
    }

    /** readObject, after the opening brace. */
    method ReadObject() returns (outcome: Outcome)
      requires Valid() && nodes != []
      modifies this`current, this`nodes, this`errors
      ensures Valid()
      ensures Ended(outcome, ParseMembers(document, old(current), |old(nodes)|, [], "", doubles), old(Below()), old(errors))
      decreases |document| - current, 3
    {
      hide ParseMembers, ParseAfterMember;
      SetCurrentValue(Obj([]));
      var members: seq<Member> := [];
      var name := "";
      while true
        invariant Valid() && old(current) <= current
        invariant nodes == old(Below()) + [Obj(members)] && errors == old(errors)
        invariant ParseMembers(document, old(current), |old(nodes)|, [], "", doubles)
               == ParseMembers(document, current, |old(nodes)|, members, name, doubles)
        decreases |document| - current
      {
        var finished;
        finished, outcome, members, name := ReadMember(members, name);
        if finished {
          return;
        }
        finished, outcome := ReadSeparator(members, name);
        if finished {
          return;
        }
      }
    }

    lemma ClosingBracket(doc: string, pos: nat)
      requires At(doc, pos, ']')
      ensures TokenAt(doc, pos) == Token(ArrayEnd, pos, pos + 1)
    {
    }

    /** parse: `root` is what the caller's value holds beforehand, `result` what it holds afterwards. */
    method Read(text: string, root: Json) returns (outcome: Outcome, result: Json)
      modifies this
      ensures document == text && Valid()
      ensures match Parse(text, root, doubles)
              case Threw => outcome == Thrown
              case Parsed(value, _, error) =>
                && outcome == Returned(error.None?) && result == value && nodes == [value]
                && errors == if error.Some? then [error.value] else []
    {
      document, current, errors := text, 0, [];
      nodes := [];
      nodes := nodes + [root];
      outcome := ReadValue();
      if outcome == Thrown {
        return outcome, root;
      }
      var token := SkipCommentTokens();
      result := nodes[0];
    }
  }
}
