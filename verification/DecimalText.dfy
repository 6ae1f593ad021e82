/** Decimal text of 64-bit integers, as jsoncpp writes and reads it. */
module DecimalText {

  const MAX_INT: int := 0x7fff_ffff
  const MIN_LARGEST_INT: int := -0x8000_0000_0000_0000
  const MAX_LARGEST_INT: int := 0x7fff_ffff_ffff_ffff
  const MAX_LARGEST_UINT: int := 0xffff_ffff_ffff_ffff

  /** uintToStringBufferSize: three digits a byte, and the terminator. */
  const BUFFER_SIZE: nat := 25

  /** What decodeNumber makes of a token: an integer with its type tag, or the token is left to decodeDouble. */
  datatype Number = Signed(i: int) | Unsigned(u: int) | NotAnInteger

  predicate IsDigit(c: char) {
    '0' <= c <= '9'
  }

  predicate AllDigits(s: string) {
    forall i :: 0 <= i < |s| ==> IsDigit(s[i])
  }

  function DigitValue(c: char): nat
    requires IsDigit(c)
  {
    c as int - '0' as int
  }

  function DigitChar(d: nat): (c: char)
    requires d < 10
    ensures IsDigit(c) && DigitValue(c) == d
  {
    (d + '0' as int) as char
  }

  /** The number a string of digits denotes. */
  function NumberOf(s: string): (n: int)
    requires AllDigits(s)
    ensures n >= 0
  {
    if s == "" then 0 else NumberOf(s[..|s| - 1]) * 10 + DigitValue(s[|s| - 1])
  }

  /** The digits of n, most significant first. */
  function Digits(n: nat): (s: string)
    ensures s != "" && AllDigits(s)
  {
    (if n < 10 then "" else Digits(n / 10)) + [DigitChar(n % 10)]
  }

  function IntegerText(n: int): string {
    if n < 0 then "-" + Digits(-n) else Digits(n)
  }

  lemma {:induction false} DigitsDenote(n: nat)
    ensures NumberOf(Digits(n)) == n
    ensures n > 0 ==> Digits(n)[0] != '0'
  {
    var s := Digits(n);
    if n >= 10 {
      DigitsDenote(n / 10);
      assert s[..|s| - 1] == Digits(n / 10);
    }
  }

  function PowerOfTen(k: nat): (p: nat)
    ensures p > 0
  {
    if k == 0 then 1 else 10 * PowerOfTen(k - 1)
  }

  lemma {:induction false} DigitsAreShort(n: nat, k: nat)
    requires k > 0 && n < PowerOfTen(k)
    ensures |Digits(n)| <= k
  {
    if n >= 10 {
      assert PowerOfTen(1) == 10;
      assert n / 10 < PowerOfTen(k - 1);
      DigitsAreShort(n / 10, k - 1);
    }
  }

  lemma LargestUIntHasTwentyDigits(n: nat)
    requires n <= MAX_LARGEST_UINT
    ensures |Digits(n)| <= 20
  {
    assert PowerOfTen(10) == 10_000_000_000 by {
      assert PowerOfTen(5) == 100_000;
    }
    assert PowerOfTen(15) == 1_000_000_000_000_000;
    assert PowerOfTen(20) == 100_000_000_000_000_000_000;
    DigitsAreShort(n, 20);
  }

  /** Writes the terminator and the digits downwards from `start`; the returned cursor is the first digit. */
  method UintToString(value: nat, buffer: array<char>, start: nat) returns (current: nat)
    requires |Digits(value)| < start <= buffer.Length
    modifies buffer
    ensures current == start - 1 - |Digits(value)|
    ensures buffer[current..start - 1] == Digits(value) && buffer[start - 1] == '\0'
    ensures buffer[..current] == old(buffer[..current]) && buffer[start..] == old(buffer[start..])
  {
    hide Digits, AllDigits, DigitChar;
    current := start - 1;
    buffer[current] := '\0';
    var rest := value;
    ghost var text := Digits(value);
    ghost var base := start - 1 - |text|;
    while true
      invariant base < current < start
      invariant Digits(rest) == text[..current - base]
      invariant buffer[start - 1] == '\0'
      invariant buffer[current..start - 1] == text[current - base..]
      invariant buffer[..current] == old(buffer[..current]) && buffer[start..] == old(buffer[start..])
      decreases rest
    {
      LastDigit(rest);
      var digit, quotient := DigitChar(rest % 10), rest / 10;
      ghost var written := buffer[current..start - 1];
      current := current - 1;
      assert text[current - base] == digit;
      buffer[current] := digit;
      assert buffer[current..start - 1] == [digit] + written;
      rest := quotient;
      if rest == 0 {
        return;
      }
    }
  }

  lemma LastDigit(n: nat)
    ensures n / 10 != 0 ==> n / 10 < n && Digits(n) == Digits(n / 10) + [DigitChar(n % 10)]
    ensures n / 10 == 0 ==> Digits(n) == [DigitChar(n % 10)]
  {
  }

  method UnsignedToString(value: nat) returns (text: string)
    requires value <= MAX_LARGEST_UINT
    ensures text == IntegerText(value)
  {
    var buffer := new char[BUFFER_SIZE];
    LargestUIntHasTwentyDigits(value);
    var current := UintToString(value, buffer, BUFFER_SIZE);
    text := buffer[current..BUFFER_SIZE - 1];
  }

  /** No step negates the least 64-bit integer, and the cursor stays inside the 25-byte buffer. */
  method SignedToString(value: int) returns (text: string)
    requires MIN_LARGEST_INT <= value <= MAX_LARGEST_INT
    ensures text == IntegerText(value)
  {
    hide Digits;
    var buffer := new char[BUFFER_SIZE];
    ghost var magnitude := if value < 0 then 0 - value else value;
    LargestUIntHasTwentyDigits(magnitude);
    var current;
    if value == MIN_LARGEST_INT {
      current := UintToString(MAX_LARGEST_INT + 1, buffer, BUFFER_SIZE);
    } else if value < 0 {
      current := UintToString(-value, buffer, BUFFER_SIZE);
    } else {
      current := UintToString(value, buffer, BUFFER_SIZE);
    }
    assert buffer[current..BUFFER_SIZE - 1] == Digits(magnitude);
    if value < 0 {
      current := current - 1;
      buffer[current] := '-';
    }
    text := buffer[current..BUFFER_SIZE - 1];
    assert value < 0 ==> text == ['-'] + text[1..];
  }

  /** The token without its sign. */
  function Magnitude(token: string): string
    requires token != ""
  {
    if token[0] == '-' then token[1..] else token
  }

  /** The largest magnitude that decodes to an integer. */
  function Bound(token: string): int
    requires token != ""
  {
    if token[0] == '-' then MAX_LARGEST_INT + 1 else MAX_LARGEST_UINT
  }

  /** An integer exactly when everything after the sign is a digit and the magnitude fits 64 bits. */
  function Decoded(token: string): Number
    requires token != ""
  {
    var digits := Magnitude(token);
    if !AllDigits(digits) || NumberOf(digits) > Bound(token) then NotAnInteger
    else if token[0] == '-' then Signed(-NumberOf(digits))
    else if NumberOf(digits) <= MAX_INT then Signed(NumberOf(digits))
    else Unsigned(NumberOf(digits))
  }

  lemma {:induction false} LongerIsLarger(digits: string, k: nat)
    requires AllDigits(digits) && k <= |digits|
    ensures NumberOf(digits[..k]) <= NumberOf(digits)
    ensures k < |digits| ==> NumberOf(digits[..k]) * 10 <= NumberOf(digits)
    decreases |digits|
  {
    if k == |digits| {
      assert digits[..k] == digits;
    } else {
      var shorter := digits[..|digits| - 1];
      LongerIsLarger(shorter, k);
      assert shorter[..k] == digits[..k];
    }
  }

  lemma NextDigit(digits: string, k: nat)
    requires k < |digits| && AllDigits(digits[..k]) && IsDigit(digits[k])
    ensures AllDigits(digits[..k + 1])
    ensures NumberOf(digits[..k + 1]) == NumberOf(digits[..k]) * 10 + DigitValue(digits[k])
  {
    assert digits[..k + 1][..k] == digits[..k];
  }

  /** A number that is too large after k digits is too large. */
  lemma StaysTooLarge(token: string, k: nat)
    requires token != "" && k <= |Magnitude(token)| && AllDigits(Magnitude(token)[..k])
    requires NumberOf(Magnitude(token)[..k]) > Bound(token)
             || (k < |Magnitude(token)| && NumberOf(Magnitude(token)[..k]) * 10 > Bound(token))
    ensures Decoded(token) == NotAnInteger
  {
    if AllDigits(Magnitude(token)) {
      LongerIsLarger(Magnitude(token), k);
    }
  }

  /** The guarded loop of decodeNumber: no intermediate value exceeds the bound, yet nothing in range is refused. */
  method DecodeNumber(token: string) returns (number: Number)
    requires token != ""
    ensures number == Decoded(token)
  {
    var current := 0;
    var isNegative := token[0] == '-';
    if isNegative {
      current := 1;
    }
    var maxIntegerValue := if isNegative then MAX_LARGEST_INT + 1 else MAX_LARGEST_UINT;
    var threshold := maxIntegerValue / 10;
    var value := 0;
    ghost var digits := Magnitude(token);
    ghost var sign := current;
    while current < |token|
      invariant sign <= current <= |token|
      invariant digits == token[sign..]
      invariant AllDigits(digits[..current - sign])
      invariant value == NumberOf(digits[..current - sign])
      invariant 0 <= value <= maxIntegerValue == Bound(token)
    {
      var c := token[current];
      ghost var done := current - sign;
      assert c == digits[done];
      current := current + 1;
      if !IsDigit(c) {
        return NotAnInteger;
      }
      hide NumberOf, AllDigits, Decoded;
      var digit := DigitValue(c);
      NextDigit(digits, done);
      if value >= threshold {
        if value > threshold || current != |token| || digit > maxIntegerValue % 10 {
          StaysTooLarge(token, done + 1);
          return NotAnInteger;
        }
      }
      value := value * 10 + digit;
    }
    assert digits[..current - sign] == digits;
    if isNegative && value == maxIntegerValue {
      number := Signed(MIN_LARGEST_INT);
    } else if isNegative {
      number := Signed(-value);
    } else if value <= MAX_INT {
      number := Signed(value);
    } else {
      number := Unsigned(value);
    }
  }

  /** The type tag an integer carries after it has been written and read back. */
  function Tagged(n: int): Number {
    if n <= MAX_INT then Signed(n) else Unsigned(n)
  }

  /** Reading what was written gives the same integer for the whole 64-bit range, signed and unsigned. */
  lemma IntegerTextRoundTrip(n: int)
    requires MIN_LARGEST_INT <= n <= MAX_LARGEST_UINT
    ensures IntegerText(n) != "" && Decoded(IntegerText(n)) == Tagged(n)
  {
    DigitsDenote(if n < 0 then -n else n);
    if n < 0 {
      assert Magnitude(IntegerText(n)) == Digits(-n);
    } else {
      assert IsDigit(Digits(n)[0]);
      assert Magnitude(IntegerText(n)) == Digits(n);
    }
    hide Digits, NumberOf, AllDigits;
  }

  function Zeros(k: nat): (s: string)
    ensures |s| == k && AllDigits(s)
  {
    seq(k, _ => '0')
  }

  lemma {:induction false} ZerosAddNothing(k: nat, s: string)
    requires AllDigits(s)
    ensures AllDigits(Zeros(k) + s) && NumberOf(Zeros(k) + s) == NumberOf(s)
    decreases k + |s|
  {
    var longer := Zeros(k) + s;
    if s != "" {
      ZerosAddNothing(k, s[..|s| - 1]);
      assert longer[..|longer| - 1] == Zeros(k) + s[..|s| - 1];
    } else if k > 0 {
      ZerosAddNothing(k - 1, s);
      assert longer[..k - 1] == Zeros(k - 1) + s;
    } else {
      assert longer == s;
    }
  }

  /** Zeros before the digits do no harm, and there need be no digits at all after a minus: every number within the
      64 bits of its sign is decoded, and no other. */
  lemma IntegersAreDecoded(k: nat, n: nat)
    ensures Decoded(Zeros(k) + Digits(n)) == if n <= MAX_LARGEST_UINT then Tagged(n) else NotAnInteger
    ensures Decoded("-" + Zeros(k) + Digits(n)) == if n <= MAX_LARGEST_INT + 1 then Signed(0 - n) else NotAnInteger
    ensures Decoded("-" + Zeros(k)) == Signed(0)
  {
    hide Digits, NumberOf, Zeros;
    DigitsDenote(n);
    ZerosAddNothing(k, Digits(n));
    ZerosAddNothing(k, "");
    assert NumberOf("") == 0 by { NothingIsZero(); }
    assert Zeros(k) + "" == Zeros(k);
    var digits := Zeros(k) + Digits(n);
    assert IsDigit(digits[0]) && Magnitude(digits) == digits;
    assert Magnitude("-" + Zeros(k) + Digits(n)) == digits && Magnitude("-" + Zeros(k)) == Zeros(k);
    hide AllDigits;
  }

  lemma NothingIsZero()
    ensures NumberOf("") == 0
  {
  }

  /** Any other character makes the token none of an integer. */
  lemma OneStrangeCharacter(before: string, c: char, after: string)
    requires !IsDigit(c) && (before != "" || c != '-')
    ensures Decoded(before + [c] + after) == NotAnInteger
  {
    var token := before + [c] + after;
    var digits := Magnitude(token);
    assert digits[|digits| - |after| - 1] == c;
  }
}
