/** UTF-8 as jsoncpp reads and writes it, against the syntax of section 4 of RFC 3629.
    A string stands for a sequence of bytes, one character a byte. */
module Utf8 {

  const REPLACEMENT_CHARACTER: int := 0xFFFD

  predicate IsScalar(cp: int) {
    0 <= cp < 0xD800 || 0xE000 <= cp <= 0x10FFFF
  }

  type Scalar = cp: int | 0 <= cp < 0xD800 || 0xE000 <= cp <= 0x10FFFF witness 0

  function Byte(b: int): (c: char)
    requires 0 <= b < 256
    ensures c as int == b
  {
    b as char
  }

  /** codePointToUTF8: the bit patterns of section 3 of RFC 3629, six bits at a time, nothing above U+10FFFF. */
  function CodePointToUtf8(cp: int): string
    requires 0 <= cp
  {
    if cp <= 0x7F then [Byte(cp)]
    else if cp <= 0x7FF then [Byte(0xC0 + cp / 64), Byte(0x80 + cp % 64)]
    else if cp <= 0xFFFF then [Byte(0xE0 + cp / 64 / 64), Byte(0x80 + cp / 64 % 64), Byte(0x80 + cp % 64)]
    else if cp <= 0x10FFFF then
      [Byte(0xF0 + cp / 64 / 64 / 64), Byte(0x80 + cp / 64 / 64 % 64), Byte(0x80 + cp / 64 % 64), Byte(0x80 + cp % 64)]
    else ""
  }

  /** The six low bits of a byte. */
  function Low6(c: char): int {
    c as int % 64
  }

  /** A code point and the number of bytes taken for it. */
  datatype Point = Point(cp: int, used: nat)

  /** utf8ToCodepoint: lenient, so that every byte string yields some code points. */
  function Utf8ToCodePoint(s: string): (p: Point)
    requires s != ""
    ensures 1 <= p.used <= |s| && 0 <= p.cp <= 0x1F_FFFF
    ensures !(0xD800 <= p.cp <= 0xDFFF)
    ensures s[0] as int < 0x80 <==> p.cp < 0x80
    ensures p.cp < 0x80 ==> p == Point(s[0] as int, 1)
  {
    var first := s[0] as int;
    if first < 0x80 then Point(first, 1)
    else if first < 0xE0 then
      if |s| < 2 then Point(REPLACEMENT_CHARACTER, 1)
      else
        var cp := first % 32 * 64 + Low6(s[1]);
        Point(if cp < 0x80 then REPLACEMENT_CHARACTER else cp, 2)
    else if first < 0xF0 then
      if |s| < 3 then Point(REPLACEMENT_CHARACTER, 1)
      else
        var cp := (first % 16 * 64 + Low6(s[1])) * 64 + Low6(s[2]);
        Point(if 0xD800 <= cp <= 0xDFFF || cp < 0x800 then REPLACEMENT_CHARACTER else cp, 3)
    else if first < 0xF8 then
      if |s| < 4 then Point(REPLACEMENT_CHARACTER, 1)
      else
        var cp := ((first % 8 * 64 + Low6(s[1])) * 64 + Low6(s[2])) * 64 + Low6(s[3]);
        Point(if cp < 0x10000 then REPLACEMENT_CHARACTER else cp, 4)
    else Point(REPLACEMENT_CHARACTER, 1)
  }

  function Encode(cps: seq<Scalar>): string {
    if cps == [] then "" else CodePointToUtf8(cps[0]) + Encode(cps[1..])
  }

  /** UTF8-tail, and the ranges of the leading bytes. */
  predicate Between(c: char, low: int, high: int) {
    low <= c as int <= high
  }

  predicate Tail(c: char) {
    Between(c, 0x80, 0xBF)
  }

  /** The length of the UTF8-char the string starts with in the grammar of RFC 3629, 0 if there is none. */
  function WellFormedPrefix(s: string): (n: nat)
    ensures n <= |s|
  {
    if |s| >= 1 && Between(s[0], 0x00, 0x7F) then 1
    else if |s| >= 2 && Between(s[0], 0xC2, 0xDF) && Tail(s[1]) then 2
    else if |s| >= 3 && Tail(s[2])
            && (|| (s[0] as int == 0xE0 && Between(s[1], 0xA0, 0xBF))
                || (Between(s[0], 0xE1, 0xEC) && Tail(s[1]))
                || (s[0] as int == 0xED && Between(s[1], 0x80, 0x9F))
                || (Between(s[0], 0xEE, 0xEF) && Tail(s[1]))) then 3
    else if |s| >= 4 && Tail(s[2]) && Tail(s[3])
            && (|| (s[0] as int == 0xF0 && Between(s[1], 0x90, 0xBF))
                || (Between(s[0], 0xF1, 0xF3) && Tail(s[1]))
                || (s[0] as int == 0xF4 && Between(s[1], 0x80, 0x8F))) then 4
    else 0
  }

  /** UTF8-octets of RFC 3629. */
  predicate IsUtf8(s: string) {
    s == "" || (WellFormedPrefix(s) > 0 && IsUtf8(s[WellFormedPrefix(s)..]))
  }

  /** The escaping of a surrogate pair keeps only twenty bits above U+FFFF. */
  function Clip(cp: int): (r: Scalar)
    requires 0 <= cp <= 0x1F_FFFF && !(0xD800 <= cp <= 0xDFFF)
    ensures IsScalar(cp) ==> r == cp
  {
    if cp < 0x10000 then cp else 0x10000 + (cp - 0x10000) % 0x10_0000
  }

  /** The code points the writer sees in an arbitrary byte string. */
  function Points(s: string): seq<Scalar> {
    if s == "" then []
    else
      var p := Utf8ToCodePoint(s);
      [Clip(p.cp)] + Points(s[p.used..])
  }

  /** The byte string with everything the writer cannot represent replaced. */
  function Repaired(s: string): string {
    Encode(Points(s))
  }

  // ---------- Malformed bytes ----------

  /** How many bytes the first one announces. */
  function Announced(c: char): nat {
    if c as int < 0x80 then 1 else if c as int < 0xE0 then 2 else if c as int < 0xF0 then 3 else if c as int < 0xF8 then 4 else 1
  }

  /** The sequence with the marks that the decoder does not look at: the two high bits of each byte that follows, and of
      the first of two. */
  function Marked(s: string): string
    requires s != "" && 0x80 <= s[0] as int < 0xF8 && |s| == Announced(s[0])
  {
    seq(|s|, i requires 0 <= i < |s| =>
      if i > 0 then Byte(0x80 + Low6(s[i])) else if |s| == 2 then Byte(0xC0 + s[0] as int % 32) else s[0])
  }

  /** Every multi-byte sequence, well-formed or not: a byte that announces nothing, or more bytes than there are, is
      replaced on its own; else all bytes announced are taken, for the character that they are with their marks set,
      and U+FFFD if that is none. Only four bytes may yield a number above U+10FFFF. */
  lemma AnyPoint(s: string)
    requires s != "" && s[0] as int >= 0x80 && forall i :: 0 <= i < |s| ==> s[i] as int < 256
    ensures var n, p := Announced(s[0]), Utf8ToCodePoint(s);
            if n == 1 || |s| < n then p == Point(REPLACEMENT_CHARACTER, 1)
            else
              var t := Marked(s[..n]);
              && p.used == n
              && (p.cp <= 0x10FFFF ==>
                    p.cp == if WellFormedPrefix(t) == n then Utf8ToCodePoint(t).cp else REPLACEMENT_CHARACTER)
              && (p.cp > 0x10FFFF ==> n == 4 && WellFormedPrefix(t) == 0)
  {
    var n := Announced(s[0]);
    if n == 2 && |s| >= 2 {
      TwoMarked(s);
    } else if n == 3 && |s| >= 3 {
      ThreeMarked(s);
    } else if n == 4 && |s| >= 4 {
      FourMarked(s);
    }
  }

  lemma TwoMarked(s: string)
    requires |s| >= 2 && 0x80 <= s[0] as int < 0xE0
    ensures var t := Marked(s[..2]);
            Utf8ToCodePoint(s) == Point(if WellFormedPrefix(t) == 2 then Utf8ToCodePoint(t).cp else REPLACEMENT_CHARACTER, 2)
  {
    var t := Marked(s[..2]);
    assert Low6(t[1]) == Low6(s[1]) && t[0] as int % 32 == s[0] as int % 32;
  }

  lemma ThreeMarked(s: string)
    requires |s| >= 3 && 0xE0 <= s[0] as int < 0xF0
    ensures var t := Marked(s[..3]);
            Utf8ToCodePoint(s) == Point(if WellFormedPrefix(t) == 3 then Utf8ToCodePoint(t).cp else REPLACEMENT_CHARACTER, 3)
  {
    var t := Marked(s[..3]);
    assert Low6(t[1]) == Low6(s[1]) && Low6(t[2]) == Low6(s[2]) && t[0] == s[0];
    assert s[0] as int % 16 == s[0] as int - 0xE0;
    hide Marked;
  }

  lemma FourMarked(s: string)
    requires |s| >= 4 && 0xF0 <= s[0] as int < 0xF8
    ensures var t, p := Marked(s[..4]), Utf8ToCodePoint(s);
            && p.used == 4
            && (p.cp <= 0x10FFFF ==>
                  p.cp == if WellFormedPrefix(t) == 4 then Utf8ToCodePoint(t).cp else REPLACEMENT_CHARACTER)
            && (p.cp > 0x10FFFF ==> WellFormedPrefix(t) == 0)
  {
    var t := Marked(s[..4]);
    assert Low6(t[1]) == Low6(s[1]) && Low6(t[2]) == Low6(s[2]) && Low6(t[3]) == Low6(s[3]) && t[0] == s[0];
    assert s[0] as int % 8 == s[0] as int - 0xF0;
    hide Marked;
  }

  /** The first `n` bytes of `s` are one character, and it is `cp`. */
  predicate StartsWith(s: string, cp: int, n: nat) {
    s != "" && WellFormedPrefix(s) == n && Utf8ToCodePoint(s) == Point(cp, n)
  }

  lemma TwoBytes(cp: Scalar, t: string)
    requires 0x80 <= cp <= 0x7FF
    requires CodePointToUtf8(cp) <= t
    ensures StartsWith(t, cp, 2)
  {
    assert t[0] == CodePointToUtf8(cp)[0] && t[1] == CodePointToUtf8(cp)[1];
  }

  lemma ThreeBytes(cp: Scalar, t: string)
    requires 0x800 <= cp <= 0xFFFF
    requires CodePointToUtf8(cp) <= t
    ensures StartsWith(t, cp, 3)
  {
    var high, low := cp / 64, cp % 64;
    assert t[0] as int == 0xE0 + high / 64 && t[1] as int == 0x80 + high % 64 && t[2] as int == 0x80 + low;
    assert (t[0] as int % 16 * 64 + Low6(t[1])) == high;
  }

  lemma FourBytes(cp: Scalar, t: string)
    requires 0x10000 <= cp
    requires CodePointToUtf8(cp) <= t
    ensures StartsWith(t, cp, 4)
  {
    var high, low := cp / 64, cp % 64;
    var top, middle := high / 64, high % 64;
    assert t[0] as int == 0xF0 + top / 64 && t[1] as int == 0x80 + top % 64;
    assert t[2] as int == 0x80 + middle && t[3] as int == 0x80 + low;
    assert t[0] as int % 8 * 64 + Low6(t[1]) == top;
    assert top * 64 + middle == high && high * 64 + low == cp;
    assert WellFormedPrefix(t) == 4;
  }

  lemma EncodingOfScalar(cp: Scalar, rest: string)
    ensures var code := CodePointToUtf8(cp);
            && StartsWith(code + rest, cp, |code|)
            && (code + rest)[|code|..] == rest
  {
    var t := CodePointToUtf8(cp) + rest;
    if 0x80 <= cp <= 0x7FF {
      TwoBytes(cp, t);
    } else if 0x800 <= cp <= 0xFFFF {
      ThreeBytes(cp, t);
    } else if 0x10000 <= cp {
      FourBytes(cp, t);
    }
  }

  lemma TwoBytesDecode(s: string)
    requires WellFormedPrefix(s) == 2
    ensures var p := Utf8ToCodePoint(s);
            p.used == 2 && IsScalar(p.cp) && s[..2] == CodePointToUtf8(p.cp)
  {
    var cp := Utf8ToCodePoint(s).cp;
    assert cp / 64 == s[0] as int - 0xC0 && cp % 64 == s[1] as int - 0x80;
  }

  lemma ThreeBytesDecode(s: string)
    requires WellFormedPrefix(s) == 3
    ensures var p := Utf8ToCodePoint(s);
            p.used == 3 && IsScalar(p.cp) && s[..3] == CodePointToUtf8(p.cp)
  {
    var high, low := (s[0] as int - 0xE0) * 64 + (s[1] as int - 0x80), s[2] as int - 0x80;
    var cp := high * 64 + low;
    assert Utf8ToCodePoint(s) == Point(cp, 3);
    assert cp / 64 == high && cp % 64 == low;
  }

  lemma FourBytesDecode(s: string)
    requires WellFormedPrefix(s) == 4
    ensures var p := Utf8ToCodePoint(s);
            p.used == 4 && IsScalar(p.cp) && s[..4] == CodePointToUtf8(p.cp)
  {
    var top := (s[0] as int - 0xF0) * 64 + (s[1] as int - 0x80);
    var cp := (top * 64 + (s[2] as int - 0x80)) * 64 + (s[3] as int - 0x80);
    FourBytesPoint(s, top, cp);
    SixBitGroups(top, s[2] as int - 0x80, s[3] as int - 0x80);
    hide Utf8ToCodePoint, WellFormedPrefix;
  }

  lemma SixBitGroups(top: int, middle: int, low: int)
    requires 0 <= top && 0 <= middle < 64 && 0 <= low < 64
    ensures var cp := (top * 64 + middle) * 64 + low;
            cp / 64 == top * 64 + middle && cp / 64 / 64 == top && cp % 64 == low && cp / 64 % 64 == middle
  {
    assert (top * 64 + middle) / 64 == top && (top * 64 + middle) % 64 == middle;
  }

  lemma FourBytesPoint(s: string, top: int, cp: int)
    requires WellFormedPrefix(s) == 4 && top == (s[0] as int - 0xF0) * 64 + (s[1] as int - 0x80)
    requires cp == (top * 64 + (s[2] as int - 0x80)) * 64 + (s[3] as int - 0x80)
    ensures 0x10 <= top <= 0x10F && Utf8ToCodePoint(s) == Point(cp, 4)
    ensures Tail(s[1]) && Tail(s[2]) && Tail(s[3]) && 0xF0 <= s[0] as int <= 0xF4
  {
  }

  /** A well-formed character decodes to the scalar whose encoding it is. */
  lemma WellFormedDecodes(s: string)
    requires WellFormedPrefix(s) > 0
    ensures var p := Utf8ToCodePoint(s);
            p.used == WellFormedPrefix(s) && IsScalar(p.cp) && s[..p.used] == CodePointToUtf8(p.cp)
  {
    match WellFormedPrefix(s)
    case 2 => TwoBytesDecode(s);
    case 3 => ThreeBytesDecode(s);
    case 4 => FourBytesDecode(s);
    case _ =>
  }

  lemma {:induction false} EncodeIsUtf8(cps: seq<Scalar>)
    ensures IsUtf8(Encode(cps)) && Points(Encode(cps)) == cps
  {
    if cps != [] {
      EncodingOfScalar(cps[0], Encode(cps[1..]));
      EncodeIsUtf8(cps[1..]);
    }
  }

  lemma {:induction false} Utf8IsEncoding(s: string)
    requires IsUtf8(s)
    ensures Repaired(s) == s
  {
    if s != "" {
      WellFormedDecodes(s);
      Utf8IsEncoding(s[WellFormedPrefix(s)..]);
      assert s == s[..WellFormedPrefix(s)] + s[WellFormedPrefix(s)..];
    }
  }

  /** Repairing gives valid UTF-8, changes nothing more when done again, and nothing at all exactly on valid UTF-8. */
  lemma RepairedIsUtf8(s: string)
    ensures IsUtf8(Repaired(s))
    ensures Repaired(Repaired(s)) == Repaired(s)
    ensures Repaired(s) == s <==> IsUtf8(s)
  {
    EncodeIsUtf8(Points(s));
    if IsUtf8(s) {
      Utf8IsEncoding(s);
    }
  }
}
