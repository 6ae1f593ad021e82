/** JSON strings: valueToQuotedStringN of the writer and decodeString of the reader. */
module QuotedString {
  import opened Utf8

  /** A decoded string, or the message of the error the reader records. */
  datatype Outcome = Decoded(text: string) | Failed(message: string)

  const FOUR_DIGITS := "Bad unicode escape sequence in string: four digits expected."
  const HEX_DIGIT := "Bad unicode escape sequence in string: hexadecimal digit expected."
  const SIX_MORE := "additional six characters expected to parse unicode surrogate pair."
  const SECOND_HALF := "expecting another \\u token to begin the second half of a unicode surrogate pair"
  const EMPTY_ESCAPE := "Empty escape sequence in string"
  const BAD_ESCAPE := "Bad escape sequence in string"

  // ---------- Writing ----------

  function HexDigit(d: int): char
    requires 0 <= d < 16
  {
    if d < 10 then (d + '0' as int) as char else (d - 10 + 'a' as int) as char
  }

  /** appendHex: a lower-case four-digit escape. */
  function Hex(x: int): string
    requires 0 <= x < 0x10000
  {
    var high, low := x / 0x100, x % 0x100;
    ['\\', 'u', HexDigit(high / 16), HexDigit(high % 16), HexDigit(low / 16), HexDigit(low % 16)]
  }

  /** The default case of the escaping loop. */
  function EscapedPoint(cp: int): string
    requires 0 <= cp <= 0x1F_FFFF
  {
    if cp < 0x20 then Hex(cp)
    else if cp < 0x80 then [cp as char]
    else if cp < 0x10000 then Hex(cp)
    else
      var extended := cp - 0x10000;
      Hex(0xd800 + extended / 0x400 % 0x400) + Hex(0xdc00 + extended % 0x400)
  }

  /** What one step of the escaping loop appends, and how many bytes it takes. */
  function EscapedStep(s: string): (step: (string, nat))
    requires s != ""
    ensures 1 <= step.1 <= |s|
  {
    match s[0]
    case '\"' => ("\\\"", 1)
    case '\\' => ("\\\\", 1)
    case '\U{8}' => ("\\b", 1)
    case '\U{c}' => ("\\f", 1)
    case '\n' => ("\\n", 1)
    case '\r' => ("\\r", 1)
    case '\t' => ("\\t", 1)
    case _ =>
      var p := Utf8ToCodePoint(s);
      (EscapedPoint(p.cp), p.used)
  }

  function Escaped(s: string): string {
    if s == "" then "" else EscapedStep(s).0 + Escaped(s[EscapedStep(s).1..])
  }

  function Quoted(s: string): string {
    "\"" + Escaped(s) + "\""
  }

  predicate RequiresEscaping(c: char) {
    c == '\\' || c == '\"' || c < ' ' || c as int > 0x7F
  }

  /** Nothing to escape: the loop would copy the bytes unchanged, so the early return of the writer is sound. */
  lemma PlainStep(s: string)
    requires s != "" && !RequiresEscaping(s[0])
    ensures EscapedStep(s) == ([s[0]], 1)
  {
  }

  lemma {:induction false} PlainIsUnchanged(s: string)
    requires forall i :: 0 <= i < |s| ==> !RequiresEscaping(s[i])
    ensures Escaped(s) == s
  {
    hide EscapedStep;
    if s != "" {
      PlainIsUnchanged(s[1..]);
      PlainStep(s);
    }
  }

  /** The character after the backslash of a short escape, as RFC 8259 lists them; the solidus is written as it is. */
  function ShortEscape(cp: int): string {
    if cp == 0x22 then "\""
    else if cp == 0x5C then "\\"
    else if cp == 0x08 then "b"
    else if cp == 0x0C then "f"
    else if cp == 0x0A then "n"
    else if cp == 0x0D then "r"
    else if cp == 0x09 then "t"
    else ""
  }

  /** Each byte below 0x80: its short escape if it has one, itself if it is printable, and else its code in hexadecimal
      digits. */
  lemma AsciiIsQuoted(c: char)
    requires c as int < 0x80
    ensures var cp := c as int;
            Quoted([c])
            == if ShortEscape(cp) != "" then "\"" + "\\" + ShortEscape(cp) + "\""
               else if cp >= 0x20 then "\"" + [c] + "\""
               else "\"" + "\\u00" + [HexDigit(cp / 16), HexDigit(cp % 16)] + "\""
  {
    var s, cp := [c], c as int;
    assert s[1..] == "";
    assert Escaped(s[1..]) == "";
    assert Escaped(s) == EscapedStep(s).0 + Escaped(s[EscapedStep(s).1..]);
    assert EscapedStep(s).1 == 1;
  }

  /** The escaping loop. */
  method AppendEscaped(value: string) returns (result: string)
    ensures result == Escaped(value)
  {
    hide EscapedStep, Escaped;
    result := "";
    var c := 0;
    EscapedNothing(value);
    while c != |value|
      invariant c <= |value|
      invariant Escaped(value) == result + Escaped(value[c..])
      decreases |value| - c
    {
      var step := EscapedStep(value[c..]);
      EscapedFrom(value, c);
      assert result + (step.0 + Escaped(value[c + step.1..])) == result + step.0 + Escaped(value[c + step.1..]);
      result := result + step.0;
      c := c + step.1;
    }
  }

  lemma EscapedNothing(value: string)
    ensures Escaped(value) == "" + Escaped(value[0..]) && Escaped(value[|value|..]) == ""
  {
    hide EscapedStep;
    assert value[0..] == value;
  }

  lemma EscapedFrom(value: string, c: nat)
    requires c < |value|
    ensures Escaped(value[c..]) == EscapedStep(value[c..]).0 + Escaped(value[c + EscapedStep(value[c..]).1..])
  {
    hide EscapedStep;
    assert value[c..][EscapedStep(value[c..]).1..] == value[c + EscapedStep(value[c..]).1..];
  }

  method ValueToQuotedString(value: string) returns (result: string)
    ensures result == Quoted(value)
  {
    if forall i :: 0 <= i < |value| ==> !RequiresEscaping(value[i]) {
      PlainIsUnchanged(value);
      return "\"" + value + "\"";
    }
    var escaped := AppendEscaped(value);
    result := "\"" + escaped + "\"";
  }

  // ---------- Reading ----------

  predicate IsHex(c: char) {
    '0' <= c <= '9' || 'a' <= c <= 'f' || 'A' <= c <= 'F'
  }

  function HexValue(c: char): (v: int)
    requires IsHex(c)
    ensures 0 <= v < 16
  {
    if c <= '9' then c as int - '0' as int
    else if c <= 'F' then c as int - 'A' as int + 10
    else c as int - 'a' as int + 10
  }

  /** A decoded escape and the characters it takes, or an error message. */
  datatype Escape = Unit(value: int, used: nat) | Bad(message: string)

  /** decodeUnicodeEscapeSequence, from position `at`. */
  function FourHexDigits(s: string, at: nat): (e: Escape)
    requires at <= |s|
    ensures e.Unit? ==> 0 <= e.value < 0x10000 && e.used == 4 <= |s| - at
  {
    if |s| - at < 4 then Bad(FOUR_DIGITS)
    else if !IsHex(s[at]) || !IsHex(s[at + 1]) || !IsHex(s[at + 2]) || !IsHex(s[at + 3]) then Bad(HEX_DIGIT)
    else Unit(((HexValue(s[at]) * 16 + HexValue(s[at + 1])) * 16 + HexValue(s[at + 2])) * 16 + HexValue(s[at + 3]), 4)
  }

  /** decodeUnicodeCodePoint: two escapes when the first is a high surrogate. */
  function UnicodeEscape(s: string, at: nat): (e: Escape)
    requires at <= |s|
    ensures e.Unit? ==> 0 <= e.value <= 0x10FFFF && 4 <= e.used <= |s| - at
  {
    match FourHexDigits(s, at)
    case Bad(message) => Bad(message)
    case Unit(high, _) =>
      if !(0xD800 <= high <= 0xDBFF) then Unit(high, 4)
      else if |s| - at < 10 then Bad(SIX_MORE)
      else if s[at + 4] != '\\' || s[at + 5] != 'u' then Bad(SECOND_HALF)
      else
        match FourHexDigits(s, at + 6)
        case Bad(message) => Bad(message)
        case Unit(low, _) => Unit(0x10000 + high % 0x400 * 0x400 + low % 0x400, 10)
  }

  /** A single-character escape. */
  function SimpleEscape(c: char): string {
    match c
    case '\"' => "\""
    case '/' => "/"
    case '\\' => "\\"
    case 'b' => "\U{8}"
    case 'f' => "\U{c}"
    case 'n' => "\n"
    case 'r' => "\r"
    case 't' => "\t"
    case _ => ""
  }

  function Prepend(prefix: string, rest: Outcome): Outcome {
    match rest
    case Decoded(text) => Decoded(prefix + text)
    case Failed(_) => rest
  }

  /** What one step of decodeString takes and yields; a bare quote ends the string. */
  datatype Piece = Piece(text: string, used: nat) | End | Error(message: string)

  function FirstPiece(s: string): (p: Piece)
    requires s != ""
    ensures p.Piece? ==> 1 <= p.used <= |s|
  {
    if s[0] == '\"' then End
    else if s[0] != '\\' then Piece([s[0]], 1)
    else if |s| == 1 then Error(EMPTY_ESCAPE)
    else if s[1] == 'u' then
      match UnicodeEscape(s, 2)
      case Bad(message) => Error(message)
      case Unit(cp, used) => Piece(CodePointToUtf8(cp), 2 + used)
    else if SimpleEscape(s[1]) == "" then Error(BAD_ESCAPE)
    else Piece(SimpleEscape(s[1]), 2)
  }

  /** decodeString, between the quotes. */
  function Contents(s: string): Outcome {
    if s == "" then Decoded("")
    else
      match FirstPiece(s)
      case End => Decoded("")
      case Error(message) => Failed(message)
      case Piece(text, used) => Prepend(text, Contents(s[used..]))
  }

  method DecodeUnicodeEscapeSequence(s: string, start: nat) returns (e: Escape, current: nat)
    requires start <= |s|
    ensures e == FourHexDigits(s, start)
    ensures start <= current <= |s|
    ensures e.Unit? ==> current == start + 4
  {
    current := start;
    if |s| - current < 4 {
      return Bad(FOUR_DIGITS), current;
    }
    var unicode := 0;
    for index := 0 to 4
      invariant current == start + index
      invariant forall k :: start <= k < current ==> IsHex(s[k])
      invariant index == 0 ==> unicode == 0
      invariant index == 1 ==> unicode == HexValue(s[start])
      invariant index == 2 ==> unicode == HexValue(s[start]) * 16 + HexValue(s[start + 1])
      invariant index == 3 ==> unicode == (HexValue(s[start]) * 16 + HexValue(s[start + 1])) * 16 + HexValue(s[start + 2])
      invariant index == 4 ==> Unit(unicode, 4) == FourHexDigits(s, start)
    {
      var c := s[current];
      current := current + 1;
      if !IsHex(c) {
        return Bad(HEX_DIGIT), current;
      }
      unicode := unicode * 16 + HexValue(c);
    }
    e := Unit(unicode, 4);
  }

  method DecodeUnicodeCodePoint(s: string, start: nat) returns (e: Escape, current: nat)
    requires start <= |s|
    ensures e == UnicodeEscape(s, start)
    ensures start <= current <= |s|
    ensures e.Unit? ==> current == start + e.used
  {
    e, current := DecodeUnicodeEscapeSequence(s, start);
    if e.Bad? {
      return;
    }
    if 0xD800 <= e.value <= 0xDBFF {
      if |s| - current < 6 {
        return Bad(SIX_MORE), current;
      }
      current := current + 1;
      var second := s[current - 1] == '\\';
      if second {
        current := current + 1;
        second := s[current - 1] == 'u';
      }
      if second {
        var low;
        low, current := DecodeUnicodeEscapeSequence(s, current);
        if low.Bad? {
          return low, current;
        }
        e := Unit(0x10000 + e.value % 0x400 * 0x400 + low.value % 0x400, 10);
      } else {
        e := Bad(SECOND_HALF);
      }
    }
  }

  lemma FirstPieceOfSuffix(s: string, at: nat)
    requires at + 1 < |s| && s[at] == '\\'
    ensures FirstPiece(s[at..])
         == if s[at + 1] == 'u' then
              match UnicodeEscape(s, at + 2)
              case Bad(message) => Error(message)
              case Unit(cp, used) => Piece(CodePointToUtf8(cp), 2 + used)
            else if SimpleEscape(s[at + 1]) == "" then Error(BAD_ESCAPE)
            else Piece(SimpleEscape(s[at + 1]), 2)
  {
    hide CodePointToUtf8, SimpleEscape;
    if s[at + 1] == 'u' {
      assert UnicodeEscape(s[at..], 2) == UnicodeEscape(s, at + 2);
    }
  }

  /** The escape sequence at a backslash. */
  method DecodeEscape(s: string, start: nat) returns (piece: Piece, current: nat)
    requires start < |s| && s[start] == '\\'
    ensures piece == FirstPiece(s[start..])
    ensures start < current <= |s|
    ensures piece.Piece? ==> current == start + piece.used
  {
    hide CodePointToUtf8, SimpleEscape, UnicodeEscape;
    current := start + 1;
    if current == |s| {
      return Error(EMPTY_ESCAPE), current;
    }
    FirstPieceOfSuffix(s, start);
    var escape := s[current];
    current := current + 1;
    if escape == 'u' {
      var e;
      e, current := DecodeUnicodeCodePoint(s, current);
      match e {
        case Bad(message) => piece := Error(message);
        case Unit(cp, used) => piece := Piece(CodePointToUtf8(cp), 2 + used);
      }
    } else if SimpleEscape(escape) != "" {
      piece := Piece(SimpleEscape(escape), 2);
    } else {
      piece := Error(BAD_ESCAPE);
    }
  }

  lemma ContentsFrom(rest: string, decoded: string)
    requires rest != "" && !FirstPiece(rest).End?
    ensures FirstPiece(rest).Error? ==> Prepend(decoded, Contents(rest)) == Failed(FirstPiece(rest).message)
    ensures FirstPiece(rest).Piece? ==>
      Prepend(decoded, Contents(rest)) == Prepend(decoded + FirstPiece(rest).text, Contents(rest[FirstPiece(rest).used..]))
  {
    var first := FirstPiece(rest);
    if first.Piece? {
      var more := Contents(rest[first.used..]);
      if more.Decoded? {
        assert decoded + (first.text + more.text) == decoded + first.text + more.text;
      }
    }
  }

  /** decodeString: `s` is what stands between the quotes of the token. The cursor never passes the end. */
  method DecodeString(s: string) returns (outcome: Outcome)
    ensures outcome == Contents(s)
  {
    var decoded := "";
    var current := 0;
    while current != |s|
      invariant current <= |s|
      invariant Contents(s) == Prepend(decoded, Contents(s[current..]))
      decreases |s| - current
    {
      ghost var rest := s[current..];
      var c := s[current];
      if c == '\"' {
        break;
      }
      var piece;
      if c == '\\' {
        piece, current := DecodeEscape(s, current);
      } else {
        piece, current := Piece([c], 1), current + 1;
      }
      assert piece == FirstPiece(rest);
      hide FirstPiece, Prepend, Contents;
      ContentsFrom(rest, decoded);
      if piece.Error? {
        return Failed(piece.message);
      }
      assert rest[piece.used..] == s[current..];
      decoded := decoded + piece.text;
    }
    return Decoded(decoded);
  }

  // ---------- Round trip ----------

  /** The escape of a code point as a whole, the single-character ones included. */
  function EscapedScalar(cp: Scalar): string {
    if cp == '\"' as int then "\\\""
    else if cp == '\\' as int then "\\\\"
    else if cp == 8 then "\\b"
    else if cp == 12 then "\\f"
    else if cp == 10 then "\\n"
    else if cp == 13 then "\\r"
    else if cp == 9 then "\\t"
    else EscapedPoint(cp)
  }

  function EscapedScalars(cps: seq<Scalar>): string {
    if cps == [] then "" else EscapedScalar(cps[0]) + EscapedScalars(cps[1..])
  }

  /** Twenty bits in two halves, under whatever stands above them. */
  lemma SurrogateHalves(above: nat, high: nat, low: nat)
    requires high < 0x400 && low < 0x400
    ensures var n := (above * 0x400 + high) * 0x400 + low;
            n / 0x400 % 0x400 == high && n % 0x400 == low && n % 0x10_0000 == high * 0x400 + low
  {
    var upper := above * 0x400 + high;
    assert (upper * 0x400 + low) / 0x400 == upper && (upper * 0x400 + low) % 0x400 == low;
    assert upper % 0x400 == high;
    assert upper * 0x400 + low == above * 0x10_0000 + (high * 0x400 + low);
  }

  lemma ClippedIsEscapedAlike(cp: int)
    requires 0x10000 <= cp <= 0x1F_FFFF
    ensures EscapedPoint(Clip(cp)) == EscapedPoint(cp)
  {
    hide Hex;
    var extended := cp - 0x10000;
    var upper, low := extended / 0x400, extended % 0x400;
    SurrogateHalves(upper / 0x400, upper % 0x400, low);
    SurrogateHalves(0, upper % 0x400, low);
  }

  lemma StepByPoint(s: string)
    requires s != ""
    ensures var p := Utf8ToCodePoint(s); EscapedStep(s) == (EscapedScalar(Clip(p.cp)), p.used)
  {
    var p := Utf8ToCodePoint(s);
    if p.cp >= 0x10000 {
      ClippedIsEscapedAlike(p.cp);
    }
    if s[0] as int < 0x80 {
      assert p == Point(s[0] as int, 1);
      assert [p.cp as char] == [s[0]];
    }
  }

  /** Escaping looks at a byte string only through its code points. */
  lemma {:induction false} EscapedByPoints(s: string)
    ensures Escaped(s) == EscapedScalars(Points(s))
  {
    if s != "" {
      StepByPoint(s);
      EscapedByPoints(s[Utf8ToCodePoint(s).used..]);
    }
  }

  lemma HexDigitReadsBack(d: int)
    requires 0 <= d < 16
    ensures IsHex(HexDigit(d)) && HexValue(HexDigit(d)) == d
  {
  }

  lemma HexReadsBack(x: int, t: string, at: nat)
    requires 0 <= x < 0x10000
    requires at + 6 <= |t| && t[at..at + 6] == Hex(x)
    ensures FourHexDigits(t, at + 2) == Unit(x, 4)
  {
    var high, low := x / 0x100, x % 0x100;
    var escape := t[at..at + 6];
    assert escape[2] == t[at + 2] && escape[3] == t[at + 3] && escape[4] == t[at + 4] && escape[5] == t[at + 5];
    HexDigitReadsBack(high / 16);
    HexDigitReadsBack(high % 16);
    HexDigitReadsBack(low / 16);
    HexDigitReadsBack(low % 16);
  }

  lemma ShortEscapeReadsBack(cp: Scalar, t: string)
    requires |EscapedScalar(cp)| == 2
    requires EscapedScalar(cp) <= t
    ensures FirstPiece(t) == Piece(CodePointToUtf8(cp), 2)
  {
    assert t[0] == EscapedScalar(cp)[0] && t[1] == EscapedScalar(cp)[1];
  }

  lemma HexEscapeReadsBack(cp: Scalar, t: string)
    requires |EscapedScalar(cp)| == 6
    requires EscapedScalar(cp) <= t
    ensures FirstPiece(t) == Piece(CodePointToUtf8(cp), 6)
  {
    HexReadsBack(cp, t, 0);
    assert t[0] == Hex(cp)[0] && t[1] == Hex(cp)[1];
  }

  lemma SurrogateBits(high: nat, low: nat)
    requires high < 0x400 && low < 0x400
    ensures (0xd800 + high) % 0x400 == high && (0xdc00 + low) % 0x400 == low
  {
  }

  lemma AdjacentEscapes(high: int, low: int, t: string)
    requires 0 <= high < 0x10000 && 0 <= low < 0x10000
    requires Hex(high) + Hex(low) <= t
    ensures t[0] == '\\' && t[1] == 'u' && t[6] == '\\' && t[7] == 'u'
    ensures FourHexDigits(t, 2) == Unit(high, 4) && FourHexDigits(t, 8) == Unit(low, 4)
  {
    var first, second := Hex(high), Hex(low);
    assert t[0..6] == first && t[6..12] == second;
    assert t[6] == second[0] && t[7] == second[1] && t[0] == first[0] && t[1] == first[1];
    HexReadsBack(high, t, 0);
    HexReadsBack(low, t, 6);
  }

  lemma PairReadsBack(high: nat, low: nat, t: string)
    requires high < 0x400 && low < 0x400
    requires Hex(0xd800 + high) + Hex(0xdc00 + low) <= t
    ensures UnicodeEscape(t, 2) == Unit(0x10000 + high * 0x400 + low, 10)
    ensures t[0] == '\\' && t[1] == 'u'
  {
    AdjacentEscapes(0xd800 + high, 0xdc00 + low, t);
    SurrogateBits(high, low);
  }

  lemma SurrogateForm(cp: Scalar, high: nat, low: nat)
    requires cp == 0x10000 + high * 0x400 + low && high < 0x400 && low < 0x400
    ensures EscapedScalar(cp) == Hex(0xd800 + high) + Hex(0xdc00 + low)
  {
    hide Hex;
    SurrogateHalves(0, high, low);
  }

  lemma SurrogatesReadBack(cp: Scalar, t: string)
    requires cp >= 0x10000
    requires EscapedScalar(cp) <= t
    ensures FirstPiece(t) == Piece(CodePointToUtf8(cp), 12)
  {
    var extended := cp - 0x10000;
    var high, low := extended / 0x400, extended % 0x400;
    SurrogateForm(cp, high, low);
    hide Hex, CodePointToUtf8, EscapedScalar, UnicodeEscape;
    PairReadsBack(high, low, t);
  }

  lemma ScalarReadsBack(cp: Scalar, rest: string)
    ensures Contents(EscapedScalar(cp) + rest) == Prepend(CodePointToUtf8(cp), Contents(rest))
  {
    var escape := EscapedScalar(cp);
    var t := escape + rest;
    assert t[|escape|..] == rest;
    if |escape| == 2 {
      ShortEscapeReadsBack(cp, t);
    } else if |escape| == 6 {
      HexEscapeReadsBack(cp, t);
    } else if |escape| == 12 {
      SurrogatesReadBack(cp, t);
    }
  }

  lemma {:induction false} ScalarsReadBack(cps: seq<Scalar>)
    ensures Contents(EscapedScalars(cps)) == Decoded(Encode(cps))
  {
    if cps != [] {
      ScalarReadsBack(cps[0], EscapedScalars(cps[1..]));
      ScalarsReadBack(cps[1..]);
    }
  }

  /** Every byte string is read back as its repaired form. Valid UTF-8, and only that, comes back unchanged;
      and quoting what came back gives the same text again. */
  lemma QuotedReadsBack(s: string)
    ensures Contents(Escaped(s)) == Decoded(Repaired(s))
    ensures IsUtf8(Repaired(s))
    ensures Repaired(s) == s <==> IsUtf8(s)
    ensures Quoted(Repaired(s)) == Quoted(s)
  {
    EscapedByPoints(s);
    ScalarsReadBack(Points(s));
    RepairedIsUtf8(s);
    EncodeIsUtf8(Points(s));
    EscapedByPoints(Repaired(s));
  }
}
