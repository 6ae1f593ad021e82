/** What the reader rejects: the error it records names what is missing, and it throws only on many open brackets. */
module JsonRejection {
  import opened Options
  import opened JsonScanner
  import opened JsonValue
  import opened JsonParser
  import QuotedString

  // ---------- The error ----------

  predicate StartsValue(kind: TokenKind) {
    kind in {ObjectBegin, ArrayBegin, TokenKind.String, TokenKind.Number, TrueWord, FalseWord, NullWord}
  }

  /** The token is one that the document has (from p on, after comments where they are allowed), and it is not what the
      message says is expected there. */
  ghost predicate Explains(doc: string, p: nat, e: ErrorInfo, doubles: Doubles) {
    && p <= |doc|
    && var token := e.token;
       || (e.message == NO_VALUE && token == ValueToken(doc, p) && !StartsValue(token.kind))
       || (e.message == NO_COMMA_IN_ARRAY && token == ValueToken(doc, p) && token.kind !in {ArraySeparator, ArrayEnd})
       || (e.message == NO_MEMBER && token == ValueToken(doc, p) && token.kind != TokenKind.String)
       || (e.message == NO_COLON && token == TokenAt(doc, p) && token.kind != MemberSeparator)
       || (e.message == NO_COMMA_IN_OBJECT && token == TokenAt(doc, p)
           && token.kind !in {ObjectEnd, ArraySeparator, Comment})
       || (token == ValueToken(doc, p) && token.kind == TokenKind.Number && token.start < token.end
           && e.message == NotANumber(TextOf(doc, token)) && NumberValue(TextOf(doc, token), doubles) == None)
       || (token == ValueToken(doc, p) && token.kind == TokenKind.String
           && QuotedString.Contents(Inside(doc, token)) == QuotedString.Failed(e.message))
  }

  /** A rejection has its reason. */
  ghost predicate Explained(doc: string, r: Parsed, doubles: Doubles) {
    r.Parsed? && r.error.Some? ==> exists p: nat :: Explains(doc, p, r.error.value, doubles)
  }

  lemma {:induction false} ValueIsExplained(doc: string, pos: nat, depth: nat, current: Json, doubles: Doubles)
    requires pos <= |doc|
    ensures Explained(doc, ParseValue(doc, pos, depth, current, doubles), doubles)
    decreases |doc| - pos, 0
  {
    var r, token := ParseValue(doc, pos, depth, current, doubles), ValueToken(doc, pos);
    if depth <= STACK_LIMIT {
      if token.kind == ObjectBegin {
        MembersAreExplained(doc, token.end, depth, [], "", doubles);
      } else if token.kind == ArrayBegin {
        ItemsAreExplained(doc, SkipSpaces(doc, token.end), depth, [], doubles);
      } else if r.Parsed? && r.error.Some? {
        assert Explains(doc, pos, r.error.value, doubles);
      }
    }
    hide TokenAt, ParseMembers, ParseItems, NumberValue, QuotedString.Contents, Explains;
  }

  lemma {:induction false} ItemsAreExplained(doc: string, pos: nat, depth: nat, done: seq<Json>, doubles: Doubles)
    requires pos <= |doc|
    ensures Explained(doc, ParseItems(doc, pos, depth, done, doubles), doubles)
    decreases |doc| - pos, 1
  {
    ValueIsExplained(doc, pos, depth + 1, Null, doubles);
    var r, v := ParseItems(doc, pos, depth, done, doubles), ParseValue(doc, pos, depth + 1, Null, doubles);
    if v.Parsed? && v.error.None? {
      var token := ValueToken(doc, v.pos);
      if token.kind == ArraySeparator {
        ItemsAreExplained(doc, token.end, depth, done + [v.value], doubles);
      } else if token.kind != ArrayEnd {
        assert Explains(doc, v.pos, r.error.value, doubles);
      }
    }
    hide TokenAt, ParseValue, Explains, Recovered;
  }

  lemma {:induction false} MembersAreExplained(
      doc: string, pos: nat, depth: nat, members: seq<Member>, name: string, doubles: Doubles)
    requires pos <= |doc|
    ensures Explained(doc, ParseMembers(doc, pos, depth, members, name, doubles), doubles)
    decreases |doc| - pos, 1
  {
    var r, token := ParseMembers(doc, pos, depth, members, name, doubles), ValueToken(doc, pos);
    hide TokenAt, Recovered, ParseMemberValue, ValueToken, QuotedString.Contents;
    if !(token.kind == ObjectEnd && name == "") {
      if token.kind == TokenKind.String && QuotedString.Contents(Inside(doc, token)).Decoded? {
        var colon := TokenAt(doc, token.end);
        if colon.kind == MemberSeparator {
          var key := QuotedString.Contents(Inside(doc, token)).text;
          MemberIsExplained(doc, colon.end, depth, members, key, doubles);
        } else {
          assert Explains(doc, token.end, r.error.value, doubles);
        }
      } else {
        assert Explains(doc, pos, r.error.value, doubles);
      }
    }
    hide Explains;
  }

  lemma {:induction false} MemberIsExplained(
      doc: string, pos: nat, depth: nat, members: seq<Member>, key: string, doubles: Doubles)
    requires pos <= |doc|
    ensures Explained(doc, ParseMemberValue(doc, pos, depth, members, key, doubles), doubles)
    decreases |doc| - pos, 1
  {
    hide TokenAt, Recovered, ParseValue, ParseAfterMember, Put, Lookup, Explains;
    var v := ParseValue(doc, pos, depth + 1, Lookup(members, key), doubles);
    ValueIsExplained(doc, pos, depth + 1, Lookup(members, key), doubles);
    if v.Parsed? && v.error.None? {
      AfterMemberIsExplained(doc, v.pos, depth, Put(members, key, v.value), key, doubles);
    }
  }

  lemma {:induction false} AfterMemberIsExplained(
      doc: string, pos: nat, depth: nat, members: seq<Member>, key: string, doubles: Doubles)
    requires pos <= |doc|
    ensures Explained(doc, ParseAfterMember(doc, pos, depth, members, key, doubles), doubles)
    decreases |doc| - pos, 0
  {
    hide TokenAt, ValueToken, Recovered, ParseMembers;
    var r, comma := ParseAfterMember(doc, pos, depth, members, key, doubles), TokenAt(doc, pos);
    if comma.kind in {ObjectEnd, ArraySeparator, Comment} {
      var last := if comma.kind == Comment then ValueToken(doc, comma.end) else comma;
      if last.kind != ObjectEnd {
        AfterIsFurther(doc, pos);
        if last.end > pos {
          MembersAreExplained(doc, last.end, depth, members, key, doubles);
        }
      }
    } else {
      assert Explains(doc, pos, r.error.value, doubles);
    }
    hide Explains;
  }

  lemma AfterIsFurther(doc: string, pos: nat)
    requires pos <= |doc|
    ensures TokenAt(doc, pos).kind in {ArraySeparator, Comment} ==> TokenAt(doc, pos).end > pos
    ensures TokenAt(doc, pos).kind == Comment ==> ValueToken(doc, TokenAt(doc, pos).end).end > pos
  {
  }

  /** Whatever document is rejected, the error recorded names a token of it, and what is expected in its place. */
  lemma RejectionIsExplained(doc: string, root: Json, doubles: Doubles)
    ensures var r := Parse(doc, root, doubles);
            r.Parsed? && r.error.Some? ==> exists p: nat :: Explains(doc, p, r.error.value, doubles)
  {
    ValueIsExplained(doc, 0, 1, root, doubles);
  }

  // ---------- The exception ----------

  /** The brackets that open from a position on. */
  function Opens(doc: string, pos: nat): nat
    requires pos <= |doc|
    decreases |doc| - pos
  {
    if pos == |doc| then 0 else (if doc[pos] == '[' || doc[pos] == '{' then 1 else 0) + Opens(doc, pos + 1)
  }

  lemma {:induction false} FewerOpens(doc: string, pos: nat, later: nat)
    requires pos <= later <= |doc|
    ensures Opens(doc, later) <= Opens(doc, pos)
    ensures pos < later && (doc[later - 1] == '[' || doc[later - 1] == '{') ==> Opens(doc, later) < Opens(doc, pos)
    decreases later - pos
  {
    if pos < later {
      FewerOpens(doc, pos + 1, later);
    }
  }

  lemma {:induction false} BracketOpens(doc: string, pos: nat)
    requires pos <= |doc|
    ensures var token := ValueToken(doc, pos);
            token.kind in {ObjectBegin, ArrayBegin} ==>
              pos < token.end <= |doc| && (doc[token.end - 1] == '[' || doc[token.end - 1] == '{')
    decreases |doc| - pos
  {
    var token := TokenAt(doc, pos);
    if token.kind == Comment {
      BracketOpens(doc, token.end);
    } else {
      hide CommentEnd, StringEnd, KeywordEnd, NumberEnd, SkipSpaces;
    }
  }

  lemma {:induction false} ValueThrows(doc: string, pos: nat, depth: nat, current: Json, doubles: Doubles)
    requires pos <= |doc| && ParseValue(doc, pos, depth, current, doubles) == Threw
    ensures depth + Opens(doc, pos) > STACK_LIMIT
    decreases |doc| - pos, 0
  {
    if depth <= STACK_LIMIT {
      var token := ValueToken(doc, pos);
      BracketOpens(doc, pos);
      FewerOpens(doc, pos, token.end);
      hide TokenAt, ValueToken, ParseMembers, ParseItems, NumberValue, QuotedString.Contents, Opens;
      if token.kind == ObjectBegin {
        MembersThrow(doc, token.end, depth, [], "", doubles);
      } else if token.kind == ArrayBegin {
        var first := SkipSpaces(doc, token.end);
        FewerOpens(doc, token.end, first);
        ItemsThrow(doc, first, depth, [], doubles);
      }
    }
  }

  lemma {:induction false} ItemsThrow(doc: string, pos: nat, depth: nat, done: seq<Json>, doubles: Doubles)
    requires pos <= |doc| && ParseItems(doc, pos, depth, done, doubles) == Threw
    ensures depth + 1 + Opens(doc, pos) > STACK_LIMIT
    decreases |doc| - pos, 1
  {
    var v := ParseValue(doc, pos, depth + 1, Null, doubles);
    hide TokenAt, ParseValue, Recovered, Opens;
    if v == Threw {
      ValueThrows(doc, pos, depth + 1, Null, doubles);
    } else {
      var token := ValueToken(doc, v.pos);
      ItemsThrow(doc, token.end, depth, done + [v.value], doubles);
      FewerOpens(doc, pos, token.end);
    }
  }

  lemma {:induction false} MembersThrow(
      doc: string, pos: nat, depth: nat, members: seq<Member>, name: string, doubles: Doubles)
    requires pos <= |doc| && ParseMembers(doc, pos, depth, members, name, doubles) == Threw
    ensures depth + 1 + Opens(doc, pos) > STACK_LIMIT
    decreases |doc| - pos, 1
  {
    hide TokenAt, Recovered, ParseMemberValue, QuotedString.Contents, Opens;
    var token := ValueToken(doc, pos);
    var colon := TokenAt(doc, token.end);
    MemberThrows(doc, colon.end, depth, members, QuotedString.Contents(Inside(doc, token)).text, doubles);
    FewerOpens(doc, pos, colon.end);
  }

  lemma {:induction false} MemberThrows(
      doc: string, pos: nat, depth: nat, members: seq<Member>, key: string, doubles: Doubles)
    requires pos <= |doc| && ParseMemberValue(doc, pos, depth, members, key, doubles) == Threw
    ensures depth + 1 + Opens(doc, pos) > STACK_LIMIT
    decreases |doc| - pos, 1
  {
    hide TokenAt, Recovered, ParseValue, ParseAfterMember, Put, Lookup, Opens;
    var v := ParseValue(doc, pos, depth + 1, Lookup(members, key), doubles);
    if v == Threw {
      ValueThrows(doc, pos, depth + 1, Lookup(members, key), doubles);
    } else {
      AfterMemberThrows(doc, v.pos, depth, Put(members, key, v.value), key, doubles);
      FewerOpens(doc, pos, v.pos);
    }
  }

  lemma {:induction false} AfterMemberThrows(
      doc: string, pos: nat, depth: nat, members: seq<Member>, key: string, doubles: Doubles)
    requires pos <= |doc| && ParseAfterMember(doc, pos, depth, members, key, doubles) == Threw
    ensures depth + 1 + Opens(doc, pos) > STACK_LIMIT
    decreases |doc| - pos, 0
  {
    AfterIsFurther(doc, pos);
    hide TokenAt, ValueToken, Recovered, ParseMembers, Opens;
    var comma := TokenAt(doc, pos);
    var last := if comma.kind == Comment then ValueToken(doc, comma.end) else comma;
    MembersThrow(doc, last.end, depth, members, key, doubles);
    FewerOpens(doc, pos, last.end);
  }

  /** The exception needs as many opening brackets as there may be nodes. */
  lemma ThrowsOnlyDeep(doc: string, root: Json, doubles: Doubles)
    ensures Parse(doc, root, doubles) == Threw ==> Opens(doc, 0) >= STACK_LIMIT
  {
    if Parse(doc, root, doubles) == Threw {
      ValueThrows(doc, 0, 1, root, doubles);
    }
  }
}
